/**
When `find` finds a divisible scalar target. It takes one entry for each preference, the first in the order
of the vector, and gives up after the last; so it depends on that order whether the entries taken suffice.
*/
module SearchOrders {
  import opened Options
  import opened ResourceModel
  import opened ResourceLaws
  import opened Conversions
  import opened Finding

  predicate Divisible(target: Resource) {
    Asks(target) && target.value.Scalar? && !target.shared && !Indivisible(target.meta)
  }

  /** The entry has what the target asks for, whatever its reservations. */
  predicate InClass(e: Entry, target: Resource) {
    !e.r.shared && e.r.value.Scalar? && WithReservations(e.r, []).meta == WithReservations(target, []).meta
  }

  function AmountIn(o: Option<Entry>): int {
    if o.Some? && o.value.r.value.Scalar? then o.value.r.value.amount else 0
  }

  function Sum(picks: seq<Option<Entry>>): int {
    if picks == [] then 0 else AmountIn(picks[0]) + Sum(picks[1..])
  }

  // ----- the search as a choice of entries

  function First(total: seq<Entry>, target: Resource, p: Preference): (o: Option<Entry>)
    ensures o.Some? ==> o.value in total && InClass(o.value, target) && Matches(o.value.r, p)
    ensures o.None? ==> forall e :: e in total ==> !(InClass(e, target) && Matches(e.r, p))
  {
    if total == [] then None
    else if InClass(total[0], target) && Matches(total[0].r, p) then Some(total[0])
    else First(total[1..], target, p)
  }

  function Without(total: seq<Entry>, o: Option<Entry>): seq<Entry> {
    if o.Some? then Subtract(total, o.value) else total
  }

  /** The entries taken, one for each preference that has any left. */
  function Taken(total: seq<Entry>, target: Resource, preferences: seq<Preference>): seq<Option<Entry>>
    decreases |preferences|
  {
    if preferences == [] then []
    else
      var o := First(total, target, preferences[0]);
      [o] + Taken(Without(total, o), target, preferences[1..])
  }

  function Left(target: Resource, amount: int): Entry {
    Single(WithReservations(target, []).(value := Scalar(amount)))
  }

  lemma UsefulIff(e: Entry, target: Resource, left: int)
    requires ValidEntry(e) && Divisible(target) && left > 0
    ensures Useful(e, [Left(target, left)]) <==> InClass(e, target)
    ensures InClass(e, target) ==> (Contains([Unreserve(e)], [Left(target, left)]) <==> e.r.value.amount >= left)
  {
    ContainsSingle(Unreserve(e), Left(target, left));
    ContainsSingle(Left(target, left), Unreserve(e));
  }

  lemma LeftOver(e: Entry, target: Resource, left: int)
    requires ValidEntry(e) && Divisible(target) && InClass(e, target) && e.r.value.amount < left
    ensures Subtract([Left(target, left)], Unreserve(e)) == [Left(target, left - e.r.value.amount)]
  {
    assert Find([Left(target, left)], Unreserve(e).r) == 0;
  }

  lemma UsefulFirst(e: Entry, rest: seq<Entry>, remaining: seq<Entry>)
    ensures FirstUseful([e] + rest, remaining) == if Useful(e, remaining) then 0 else 1 + FirstUseful(rest, remaining)
  {
    assert ([e] + rest)[1..] == rest;
  }

  lemma {:induction false} FirstIsUseful(total: seq<Entry>, target: Resource, p: Preference, left: int)
    requires (forall e :: e in total ==> ValidEntry(e)) && Divisible(target) && left > 0
    ensures var candidates := Filter(total, p); var i := FirstUseful(candidates, [Left(target, left)]);
      First(total, target, p) == if i == |candidates| then None else Some(candidates[i])
  {
    hide ValidEntry, Divisible, InClass, Useful, Left;
    if total == [] {
      assert FirstUseful([], [Left(target, left)]) == 0;
    } else {
      FirstIsUseful(total[1..], target, p, left);
      UsefulIff(total[0], target, left);
      hide FirstUseful;
      UsefulFirst(total[0], Filter(total[1..], p), [Left(target, left)]);
    }
  }

  lemma {:induction false} SumNonNegative(total: seq<Entry>, target: Resource, preferences: seq<Preference>)
    requires Combined(total)
    ensures Sum(Taken(total, target, preferences)) >= 0
    decreases |preferences|
  {
    if preferences != [] {
      var o := First(total, target, preferences[0]);
      WithoutCombined(total, o);
      SumNonNegative(Without(total, o), target, preferences[1..]);
      assert AmountIn(o) >= 0;
      SumFirst(o, Taken(Without(total, o), target, preferences[1..]));
    }
  }

  lemma SumFirst(o: Option<Entry>, picks: seq<Option<Entry>>)
    ensures Sum([o] + picks) == AmountIn(o) + Sum(picks)
  {
    assert ([o] + picks)[1..] == picks;
  }

  lemma WithoutCombined(total: seq<Entry>, o: Option<Entry>)
    requires Combined(total) && (o.Some? ==> o.value in total)
    ensures Combined(Without(total, o))
  {
    if o.Some? {
      SubtractRefines(total, o.value);
    }
  }

  /** The target is found exactly when the entries taken have as much. */
  lemma {:induction false} FoundIffSum(found: seq<Entry>, total: seq<Entry>, target: Resource, left: int, preferences: seq<Preference>)
    requires Combined(total) && Divisible(target) && left > 0
    ensures Search(found, total, [Left(target, left)], preferences).Some? <==> Sum(Taken(total, target, preferences)) >= left
    decreases |preferences|
  {
    if preferences != [] {
      var o, rest := First(total, target, preferences[0]), preferences[1..];
      FirstIsUseful(total, target, preferences[0], left);
      hide First, Filter, FirstUseful, Combined, Divisible, Left, Contains, Useful;
      WithoutCombined(total, o);
      SumFirst(o, Taken(Without(total, o), target, rest));
      if o.None? {
        FoundIffSum(found, total, target, left, rest);
      } else {
        var e := o.value;
        FoundStep(found, total, target, left, preferences, e);
      }
    }
  }

  lemma SearchStep(found: seq<Entry>, total: seq<Entry>, target: Resource, left: int, preferences: seq<Preference>, e: Entry)
    requires Combined(total) && Divisible(target) && left > 0 && preferences != [] && First(total, target, preferences[0]) == Some(e)
    ensures Search(found, total, [Left(target, left)], preferences).Some? <==>
      AmountIn(Some(e)) >= left ||
      Search(Add(found, e), Subtract(total, e), [Left(target, left - AmountIn(Some(e)))], preferences[1..]).Some?
    ensures AmountIn(Some(e)) > 0
  {
    hide Contains, Useful, Left, Divisible, ValidEntry, Subtract, Add, Filter, FirstUseful, First;
    InCombined(total, e);
    FirstIsUseful(total, target, preferences[0], left) by { AllInCombined(total); }
    UsefulIff(e, target, left);
    if e.r.value.amount < left {
      LeftOver(e, target, left);
    }
  }

  lemma InCombined(total: seq<Entry>, e: Entry)
    requires Combined(total) && e in total
    ensures ValidEntry(e) && (e.r.value.Scalar? ==> e.r.value.amount > 0)
  {
  }

  lemma AllInCombined(total: seq<Entry>)
    requires Combined(total)
    ensures forall e :: e in total ==> ValidEntry(e)
  {
  }

  lemma {:induction false} FoundStep(found: seq<Entry>, total: seq<Entry>, target: Resource, left: int, preferences: seq<Preference>, e: Entry)
    requires Combined(total) && Divisible(target) && left > 0 && preferences != [] && First(total, target, preferences[0]) == Some(e)
    ensures Search(found, total, [Left(target, left)], preferences).Some? <==>
      AmountIn(Some(e)) + Sum(Taken(Without(total, Some(e)), target, preferences[1..])) >= left
    decreases |preferences|, 0
  {
    hide Combined, Divisible, Left, Taken, Search, First, Sum, AmountIn, Matches, InClass, Add, Subtract;
    var rest := preferences[1..];
    SearchStep(found, total, target, left, preferences, e);
    WithoutCombined(total, Some(e));
    SumNonNegative(Without(total, Some(e)), target, rest);
    if AmountIn(Some(e)) < left {
      FoundIffSum(Add(found, e), Subtract(total, e), target, left - AmountIn(Some(e)), rest);
    }
  }

  // ----- choices that do not depend on an order

  /** An entry of those not picked before that meets the preference, or none where there is none. */
  ghost predicate Pick(es: seq<Entry>, target: Resource, p: Preference, before: seq<Option<Entry>>, o: Option<Entry>) {
    match o
    case Some(e) => e in es && o !in before && InClass(e, target) && Matches(e.r, p)
    case None => forall e :: e in es && InClass(e, target) && Matches(e.r, p) ==> Some(e) in before
  }

  ghost predicate DrawsAfter(es: seq<Entry>, target: Resource, before: seq<Option<Entry>>, preferences: seq<Preference>, picks: seq<Option<Entry>>)
  {
    |picks| == |preferences| &&
    forall k :: 0 <= k < |picks| ==> Pick(es, target, preferences[k], before + picks[..k], picks[k])
  }

  ghost predicate Draws(es: seq<Entry>, target: Resource, picks: seq<Option<Entry>>) {
    DrawsAfter(es, target, [], Preferences(target), picks)
  }

  /** Whichever entries are picked, they have as much as the target. */
  ghost predicate Enough(es: seq<Entry>, target: Resource)
    requires target.value.Scalar?
  {
    forall picks :: Draws(es, target, picks) ==> Sum(picks) >= target.value.amount
  }

  /** Entries of the class are told apart by their reservations. */
  lemma ClassOnce(es: seq<Entry>, i: nat, j: nat, target: Resource)
    requires Combined(es) && Divisible(target) && i < |es| && j < |es| && i != j
    requires InClass(es[i], target) && InClass(es[j], target)
    ensures es[i].r.meta.reservations != es[j].r.meta.reservations && !Subtractable(es[i].r, es[j].r)
  {
    assert i < j ==> !Addable(es[i].r, es[j].r);
    assert j < i ==> !Addable(es[j].r, es[i].r);
  }

  lemma SubtractWhole(total: seq<Entry>, i: nat, target: Resource)
    requires Combined(total) && Divisible(target) && i < |total| && InClass(total[i], target)
    ensures Subtract(total, total[i]) == RemoveAt(total, i)
  {
    var k := Find(total, total[i].r);
    assert Subtractable(total[i].r, total[i].r);
    if k < i {
      assert InClass(total[k], target);
      ClassOnce(total, k, i, target);
    }
  }

  lemma Gone(total: seq<Entry>, e: Entry, target: Resource)
    requires Combined(total) && Divisible(target) && e in total && InClass(e, target)
    ensures forall f :: f in Subtract(total, e) <==> f in total && f != e
    ensures e != total[0] ==> Subtract(total, e) != [] && Subtract(total, e)[0] == total[0]
  {
    var i :| 0 <= i < |total| && total[i] == e;
    SubtractWhole(total, i, target);
    forall k | 0 <= k < |total| && k != i ensures total[k] != e {
      if total[k] == e {
        ClassOnce(total, k, i, target);
      }
    }
    hide Subtract, Combined, InClass, Divisible;
    RemovedElements(total, i);
  }

  lemma RemovedElements(total: seq<Entry>, i: nat)
    requires i < |total| && forall k :: 0 <= k < |total| && k != i ==> total[k] != total[i]
    ensures forall f :: f in RemoveAt(total, i) <==> f in total && f != total[i]
    ensures i > 0 ==> RemoveAt(total, i) != [] && RemoveAt(total, i)[0] == total[0]
  {
    var out, n := RemoveAt(total, i), |total| - 1;
    forall k | 0 <= k < n ensures out[k] in total && out[k] != total[i] {
      assert out[k] == if k == i then total[n] else total[k];
    }
    forall k | 0 <= k < |total| && k != i ensures total[k] in out {
      assert k < n ==> out[k] == total[k];
      assert k == n ==> out[i] == total[k];
    }
  }

  /** What is left of the class. */
  ghost predicate Rest(es: seq<Entry>, target: Resource, before: seq<Option<Entry>>, total: seq<Entry>) {
    Combined(total) && forall e :: InClass(e, target) ==> (e in total <==> e in es && Some(e) !in before)
  }

  lemma RestNext(es: seq<Entry>, target: Resource, before: seq<Option<Entry>>, total: seq<Entry>, o: Option<Entry>)
    requires Rest(es, target, before, total) && Divisible(target)
    requires o.Some? ==> o.value in total && InClass(o.value, target)
    ensures Rest(es, target, before + [o], Without(total, o))
  {
    hide InClass;
    WithoutCombined(total, o);
    if o.Some? {
      Gone(total, o.value, target);
    }
    hide Subtract, Combined;
    forall e | InClass(e, target) ensures e in Without(total, o) <==> e in es && Some(e) !in before + [o] {
    }
  }

  lemma {:induction false} TakenDraws(es: seq<Entry>, target: Resource, before: seq<Option<Entry>>, total: seq<Entry>, preferences: seq<Preference>)
    requires Rest(es, target, before, total) && Divisible(target)
    ensures DrawsAfter(es, target, before, preferences, Taken(total, target, preferences))
    decreases |preferences|
  {
    hide Divisible, InClass, Without, Combined, Matches;
    if preferences != [] {
      var o := First(total, target, preferences[0]);
      RestNext(es, target, before, total, o);
      var rest := Taken(Without(total, o), target, preferences[1..]);
      TakenDraws(es, target, before + [o], Without(total, o), preferences[1..]);
      DrawsNext(es, target, before, preferences, o, rest);
    }
  }

  lemma DrawsNext(es: seq<Entry>, target: Resource, before: seq<Option<Entry>>, preferences: seq<Preference>, o: Option<Entry>, rest: seq<Option<Entry>>)
    requires preferences != [] && Pick(es, target, preferences[0], before, o)
    requires DrawsAfter(es, target, before + [o], preferences[1..], rest)
    ensures DrawsAfter(es, target, before, preferences, [o] + rest)
  {
    hide Pick;
    var picks := [o] + rest;
    forall k | 0 <= k < |picks| ensures Pick(es, target, preferences[k], before + picks[..k], picks[k]) {
      if k == 0 {
        assert before + picks[..0] == before;
      } else {
        assert before + picks[..k] == before + [o] + rest[..k - 1];
        assert preferences[k] == preferences[1..][k - 1] && picks[k] == rest[k - 1];
      }
    }
  }

  // ----- every choice is that of some order

  /** Whether a collection is combined does not depend on its order. */
  ghost predicate CombinedElements(es: seq<Entry>) {
    && (forall e :: e in es ==> ValidEntry(e))
    && (forall e, f :: e in es && f in es && Addable(e.r, f.r) ==> e == f && multiset(es)[e] == 1)
  }

  lemma CombinedByElements(es: seq<Entry>)
    ensures Combined(es) <==> CombinedElements(es)
  {
    hide ValidEntry;
    if Combined(es) {
      forall e, f | e in es && f in es && Addable(e.r, f.r) ensures e == f && multiset(es)[e] == 1 {
        AddableOnce(es, e, f);
      }
    }
    if CombinedElements(es) {
      forall i, j | 0 <= i < j < |es| ensures !Addable(es[i].r, es[j].r) {
        if Addable(es[i].r, es[j].r) {
          TwiceInside(es, i, j);
        }
      }
    }
  }

  lemma TwiceInside(es: seq<Entry>, i: nat, j: nat)
    requires i < j < |es| && es[i] == es[j]
    ensures multiset(es)[es[j]] >= 2
  {
    assert es == es[..j] + [es[j]] + es[j + 1..];
    assert es[..j][i] == es[j];
    assert es[j] in multiset(es[..j]);
  }

  lemma AddableBoth(e: Entry, f: Entry)
    requires Addable(e.r, f.r)
    ensures Addable(f.r, e.r) && Addable(e.r, e.r)
  {
  }

  lemma AddableOnce(es: seq<Entry>, e: Entry, f: Entry)
    requires Combined(es) && e in es && f in es && Addable(e.r, f.r)
    ensures e == f && multiset(es)[e] == 1
  {
    hide ValidEntry, Addable;
    var i :| 0 <= i < |es| && es[i] == e;
    var j :| 0 <= j < |es| && es[j] == f;
    AddableBoth(e, f);
    assert i == j;
    forall k | 0 <= k < |es| && k != i ensures es[k] != e {
      assert k < i ==> !Addable(es[k].r, es[i].r);
      assert i < k ==> !Addable(es[i].r, es[k].r);
    }
    hide Combined;
    OnceInside(es, i);
  }

  lemma OnceInside(es: seq<Entry>, i: nat)
    requires i < |es| && forall k :: 0 <= k < |es| && k != i ==> es[k] != es[i]
    ensures multiset(es)[es[i]] == 1
  {
    assert es == es[..i] + [es[i]] + es[i + 1..];
    assert es[i] !in es[..i] && es[i] !in es[i + 1..];
    assert es[i] !in multiset(es[..i]) && es[i] !in multiset(es[i + 1..]);
  }

  lemma ReorderedCombined(es: seq<Entry>, fs: seq<Entry>)
    requires Combined(es) && multiset(es) == multiset(fs)
    ensures Combined(fs) && forall e :: e in es <==> e in fs
  {
    SameMembers(es, fs);
    CombinedByElements(es);
    CombinedByElements(fs);
  }

  lemma SplitElements(es: seq<Entry>, i: nat)
    requires i < |es|
    ensures multiset([es[i]] + es[..i] + es[i + 1..]) == multiset(es) == multiset(es[..i] + es[i + 1..] + [es[i]])
  {
    assert es == es[..i] + [es[i]] + es[i + 1..];
  }

  ghost function MoveToFront(es: seq<Entry>, o: Option<Entry>): (fs: seq<Entry>)
    requires o.Some? ==> o.value in es
    ensures multiset(fs) == multiset(es) && (o.Some? ==> fs != [] && fs[0] == o.value)
  {
    if o.None? then es
    else
      var i :| 0 <= i < |es| && es[i] == o.value;
      SplitElements(es, i);
      [es[i]] + es[..i] + es[i + 1..]
  }

  ghost function MoveToBack(es: seq<Entry>, o: Option<Entry>): (fs: seq<Entry>)
    requires o.Some? ==> o.value in es
    ensures multiset(fs) == multiset(es) && (o.Some? ==> fs != [] && fs[|fs| - 1] == o.value)
    ensures es != [] && Some(es[0]) != o ==> fs != [] && fs[0] == es[0]
    ensures |fs| == |es|
  {
    if o.None? then es
    else
      var i :| 0 <= i < |es| && es[i] == o.value;
      SplitElements(es, i);
      es[..i] + es[i + 1..] + [es[i]]
  }

  lemma SameMembers(es: seq<Entry>, fs: seq<Entry>)
    requires multiset(es) == multiset(fs)
    ensures forall e :: e in es <==> e in fs
  {
    assert forall e :: e in es <==> e in multiset(es);
    assert forall e :: e in fs <==> e in multiset(fs);
  }

  /** One entry comes first and another one last. */
  ghost function Ends(es: seq<Entry>, first: Entry, last: Option<Entry>): (fs: seq<Entry>)
    requires first in es && (last.Some? ==> last.value in es && last.value != first)
    ensures multiset(fs) == multiset(es) && fs != [] && fs[0] == first
    ensures last.Some? ==> |fs| > 1 && fs[|fs| - 1] == last.value
  {
    var front := MoveToFront(es, Some(first));
    SameMembers(es, front);
    MoveToBack(front, last)
  }

  lemma UnreservedOnce(es: seq<Entry>, target: Resource, e: Entry, f: Entry)
    requires Combined(es) && Divisible(target) && e in es && f in es && InClass(e, target) && InClass(f, target)
    requires e.r.meta.reservations == [] && f.r.meta.reservations == []
    ensures e == f
  {
    var i :| 0 <= i < |es| && es[i] == e;
    var j :| 0 <= j < |es| && es[j] == f;
    if i != j {
      ClassOnce(es, i, j, target);
    }
  }

  /** The last two choices, when the last of them comes first in what is left. */
  lemma LastTwo(total: seq<Entry>, target: Resource, o: Option<Entry>, last: Option<Entry>)
    requires Combined(total) && Divisible(target) && Pick(total, target, Unreserved, [], o) && Pick(total, target, Any, [o], last)
    requires last.Some? ==> total != [] && total[0] == last.value
    ensures Taken(total, target, [Unreserved, Any]) == [o, last]
  {
    hide Divisible, InClass, Combined;
    var first := First(total, target, Unreserved);
    if first.Some? && o.Some? {
      UnreservedOnce(total, target, first.value, o.value);
    }
    assert first == o;
    var rest := Without(total, o);
    if o.Some? {
      Gone(total, o.value, target);
    }
    assert First(rest, target, Any) == last;
    assert [Unreserved, Any][1..] == [Any] && [Any][1..] == [];
    assert Taken(rest, target, [Any]) == [last] + [];
  }

  /** What is left after the first of an order is taken. */
  lemma AfterFirst(es: seq<Entry>, target: Resource, first: Entry, last: Option<Entry>)
    requires Combined(es) && Divisible(target) && first in es && InClass(first, target)
    requires last.Some? ==> last.value in es && last.value != first
    ensures var total := Subtract(Ends(es, first, last), first);
      && Combined(total) && (forall e :: e in total <==> e in es && e != first)
      && (last.Some? ==> total != [] && total[0] == last.value)
  {
    var fs := Ends(es, first, last);
    ReorderedCombined(es, fs);
    SubtractWhole(fs, 0, target);
    Gone(fs, first, target);
    SubtractRefines(fs, first);
  }

  lemma OrderForUnreserved(es: seq<Entry>, target: Resource, o: Option<Entry>, last: Option<Entry>) returns (fs: seq<Entry>)
    requires Combined(es) && Divisible(target) && Pick(es, target, Unreserved, [], o) && Pick(es, target, Any, [o], last)
    ensures multiset(fs) == multiset(es) && Taken(fs, target, [Unreserved, Any]) == [o, last]
  {
    hide Divisible, InClass, Combined, Taken;
    fs := MoveToFront(es, last);
    ReorderedCombined(es, fs);
    LastTwo(fs, target, o, last);
  }

  lemma OrderForReserved(es: seq<Entry>, target: Resource, role: string, first: Option<Entry>, o: Option<Entry>, last: Option<Entry>)
    returns (fs: seq<Entry>)
    requires Combined(es) && Divisible(target) && Pick(es, target, ReservedTo(role), [], first)
    requires Pick(es, target, Unreserved, [first], o) && Pick(es, target, Any, [first, o], last)
    ensures multiset(fs) == multiset(es) && Taken(fs, target, [ReservedTo(role), Unreserved, Any]) == [first, o, last]
  {
    hide Divisible, InClass, Combined, Subtract, Matches;
    fs := if first.Some? then Ends(es, first.value, last) else MoveToFront(es, last);
    hide Pick;
    ReorderedCombined(es, fs);
    LastTwoAfter(es, fs, target, role, first, o, last);
    assert [ReservedTo(role), Unreserved, Any][1..] == [Unreserved, Any];
    assert [first] + [o, last] == [first, o, last];
  }

  lemma LastTwoAfter(es: seq<Entry>, fs: seq<Entry>, target: Resource, role: string, first: Option<Entry>, o: Option<Entry>, last: Option<Entry>)
    requires Combined(es) && Combined(fs) && Divisible(target) && (forall e :: e in es <==> e in fs)
    requires Pick(es, target, ReservedTo(role), [], first)
    requires Pick(es, target, Unreserved, [first], o) && Pick(es, target, Any, [first, o], last)
    requires fs == if first.Some? then Ends(es, first.value, last) else MoveToFront(es, last)
    ensures First(fs, target, ReservedTo(role)) == first
    ensures Taken(Without(fs, first), target, [Unreserved, Any]) == [o, last]
  {
    hide Divisible, InClass, Combined, Taken, Subtract;
    if first.Some? {
      AfterFirst(es, target, first.value, last);
    }
    LastTwo(Without(fs, first), target, o, last);
  }

  lemma OrderFor(es: seq<Entry>, target: Resource, picks: seq<Option<Entry>>) returns (fs: seq<Entry>)
    requires Combined(es) && Divisible(target) && Draws(es, target, picks)
    ensures multiset(fs) == multiset(es) && Taken(fs, target, Preferences(target)) == picks
  {
    hide Divisible, Combined, Taken, Pick;
    var ps := Preferences(target);
    assert forall k :: 0 <= k < |picks| ==> [] + picks[..k] == picks[..k];
    assert picks[..0] == [] && picks[..1] == [picks[0]];
    assert Pick(es, target, ps[0], picks[..0], picks[0]) && Pick(es, target, ps[1], picks[..1], picks[1]);
    if target.meta.reservations == [] {
      assert picks == [picks[0], picks[1]] && ps == [Unreserved, Any];
      fs := OrderForUnreserved(es, target, picks[0], picks[1]);
    } else {
      assert Pick(es, target, ps[2], picks[..2], picks[2]);
      assert picks == [picks[0], picks[1], picks[2]] && ps == [ps[0], Unreserved, Any];
      assert picks[..2] == [picks[0], picks[1]];
      fs := OrderForReserved(es, target, ps[0].role, picks[0], picks[1], picks[2]);
    }
  }

  // ----- the exact condition

  ghost predicate FoundInEveryOrder(es: seq<Entry>, target: Resource) {
    forall fs :: multiset(fs) == multiset(es) ==> SearchOne(fs, target).Some?
  }

  /** The target is found, whatever the order of the entries, exactly when any choice of entries has enough. */
  lemma FoundInEveryOrderIff(es: seq<Entry>, target: Resource)
    requires Combined(es) && Divisible(target)
    ensures FoundInEveryOrder(es, target) <==> Enough(es, target)
  {
    hide Combined, Draws, InClass, Taken, Preferences;
    if Enough(es, target) {
      forall fs | multiset(fs) == multiset(es) ensures SearchOne(fs, target).Some? {
        ReorderedCombined(es, fs);
        FoundWhenEnough(es, fs, target);
      }
    }
    if FoundInEveryOrder(es, target) {
      forall picks | Draws(es, target, picks) ensures Sum(picks) >= target.value.amount {
        var fs := OrderFor(es, target, picks);
        ReorderedCombined(es, fs);
        FoundBySum(fs, target);
      }
    }
  }

  lemma FoundBySum(fs: seq<Entry>, target: Resource)
    requires Combined(fs) && Divisible(target)
    ensures SearchOne(fs, target).Some? <==> Sum(Taken(fs, target, Preferences(target))) >= target.value.amount
  {
    assert Wanted(target) == [Left(target, target.value.amount)];
    FoundIffSum([], fs, target, target.value.amount, Preferences(target));
  }

  lemma FoundWhenEnough(es: seq<Entry>, fs: seq<Entry>, target: Resource)
    requires Combined(fs) && Divisible(target) && Enough(es, target) && forall e :: e in es <==> e in fs
    ensures SearchOne(fs, target).Some?
  {
    hide Combined, Divisible, Taken, Preferences, InClass;
    TakenDraws(es, target, [], fs, Preferences(target));
    FoundBySum(fs, target);
    assert Draws(es, target, Taken(fs, target, Preferences(target)));
  }

  // ----- targets that are found whole or not at all

  lemma {:induction false} FirstUsefulIsFound(found: seq<Entry>, total: seq<Entry>, w: Entry, preferences: seq<Preference>)
    requires preferences != [] && preferences[|preferences| - 1] == Any
    requires forall e :: e in total && Useful(e, [w]) ==> Contains([Unreserve(e)], [w])
    ensures Search(found, total, [w], preferences).Some? <==> exists e :: e in total && Useful(e, [w])
    decreases |preferences|
  {
    hide Useful, Contains, Filter;
    var candidates := Filter(total, preferences[0]);
    var i := FirstUseful(candidates, [w]);
    FilterAny(total);
    if i < |candidates| {
      assert candidates[i] in total;
    } else if |preferences| == 1 {
      assert forall k :: 0 <= k < |total| ==> !Useful(total[k], [w]);
      assert preferences[1..] == [];
    } else {
      FirstUsefulIsFound(found, total, w, preferences[1..]);
    }
  }

  /** An exclusive disk or a shared volume is found exactly when it is there, under any reservations and in any order. */
  lemma FoundWholeIff(es: seq<Entry>, target: Resource)
    requires Combined(es) && Asks(target) && (target.shared || Indivisible(target.meta))
    ensures SearchOne(es, target).Some? <==> exists e :: e in es && WithReservations(e.r, []) == WithReservations(target, [])
  {
    var w := Single(WithReservations(target, []));
    forall e | e in es
      ensures Useful(e, [w]) <==> WithReservations(e.r, []) == w.r
      ensures Useful(e, [w]) ==> Contains([Unreserve(e)], [w])
    {
      ContainsSingle(Unreserve(e), w);
      ContainsSingle(w, Unreserve(e));
    }
    LastIsAny(target);
    FirstUsefulIsFound([], es, w, Preferences(target));
  }
}
