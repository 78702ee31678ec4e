/**
`find`: resources to the amount of a target, wherever they are reserved.
*/
module Finding {
  import opened Options
  import opened ResourceModel
  import opened ResourceLaws
  import opened Conversions

  // ----- restacking is additive

  /** What the entries hold together once each has been restacked. */
  function Merged(es: seq<Entry>, op: StackOp, a: Atom): int {
    if es == [] then 0 else Merge(a, Weight(Restacked(es[0], op), a), Merged(es[1..], op, a))
  }

  lemma RestackedValid(e: Entry, op: StackOp, a: Atom)
    requires ValidEntry(e)
    ensures ValidEntry(Restacked(e, op)) && Weight(Restacked(e, op), a) >= 0
  {
  }

  lemma {:induction false} MergedAppend(es: seq<Entry>, e: Entry, op: StackOp, a: Atom)
    requires (forall i :: 0 <= i < |es| ==> ValidEntry(es[i])) && ValidEntry(e)
    ensures Merged(es + [e], op, a) == Merge(a, Merged(es, op, a), Weight(Restacked(e, op), a))
    ensures Merged(es, op, a) >= 0
  {
    RestackedValid(e, op, a);
    if es == [] {
      assert ([] + [e])[1..] == [];
    } else {
      RestackedValid(es[0], op, a);
      assert (es + [e])[1..] == es[1..] + [e];
      MergedAppend(es[1..], e, op, a);
    }
  }

  lemma {:induction false} RestackHolds(es: seq<Entry>, op: StackOp, a: Atom)
    requires Combined(es)
    ensures Held(Restack(es, op), a) == Merged(es, op, a)
  {
    hide Restacked, Weight;
    if es != [] {
      var n := |es| - 1;
      CombinedFront(es);
      RestackHolds(es[..n], op, a);
      RestackCombined(es[..n], op);
      RestackedValid(es[n], op, a);
      AddRefines(Restack(es[..n], op), Restacked(es[n], op));
      MergedAppend(es[..n], es[n], op, a);
      assert es == es[..n] + [es[n]];
    }
  }

  lemma MergeSum(e: Entry, f: Entry, op: StackOp, a: Atom)
    requires ValidEntry(e) && ValidEntry(f) && Addable(e.r, f.r)
    ensures Weight(Restacked(EntryAdd(e, f), op), a) == Merge(a, Weight(Restacked(e, op), a), Weight(Restacked(f, op), a))
  {
  }

  lemma {:induction false} MergedAddTo(es: seq<Entry>, e: Entry, op: StackOp, a: Atom)
    requires (forall i :: 0 <= i < |es| ==> ValidEntry(es[i])) && ValidEntry(e)
    ensures Merged(AddTo(es, e), op, a) == Merge(a, Merged(es, op, a), Weight(Restacked(e, op), a))
    ensures Merged(es, op, a) >= 0
  {
    RestackedValid(e, op, a);
    if es == [] {
      assert [e][1..] == [];
    } else {
      RestackedValid(es[0], op, a);
      MergedAddTo(es[1..], e, op, a);
      if Addable(es[0].r, e.r) {
        MergeSum(es[0], e, op, a);
        assert ([EntryAdd(es[0], e)] + es[1..])[1..] == es[1..];
      } else {
        assert ([es[0]] + AddTo(es[1..], e))[1..] == AddTo(es[1..], e);
      }
    }
  }

  /** Unreserving a sum gives the sum of what is unreserved. */
  lemma RestackAdds(es: seq<Entry>, e: Entry, op: StackOp, a: Atom)
    requires Combined(es) && ValidEntry(e)
    ensures Held(Restack(Add(es, e), op), a) == Merge(a, Held(Restack(es, op), a), Weight(Restacked(e, op), a))
  {
    AddRefines(es, e);
    RestackHolds(es, op, a);
    RestackHolds(Add(es, e), op, a);
    MergedAddTo(es, e, op, a);
  }

  // ----- a single target

  datatype Preference = ReservedTo(role: string) | Unreserved | Any

  predicate Matches(r: Resource, p: Preference) {
    match p
    case ReservedTo(role) => var rs := r.meta.reservations; rs != [] && rs[|rs| - 1].role == role
    case Unreserved => r.meta.reservations == []
    case Any => true
  }

  function Filter(es: seq<Entry>, p: Preference): (fs: seq<Entry>)
    ensures forall e :: e in fs ==> e in es && Matches(e.r, p)
  {
    if es == [] then []
    else
      var rest := Filter(es[1..], p);
      if Matches(es[0].r, p) then [es[0]] + rest else rest
  }

  /** The target's role first, then unreserved resources, then any. */
  function Preferences(target: Resource): seq<Preference> {
    var rs := target.meta.reservations;
    (if rs != [] then [ReservedTo(rs[|rs| - 1].role)] else []) + [Unreserved, Any]
  }

  function Unreserve(e: Entry): Entry {
    Restacked(e, Clear)
  }

  function WithReservations(r: Resource, rs: seq<Reservation>): Resource {
    r.(meta := r.meta.(reservations := rs))
  }

  predicate Asks(target: Resource) {
    Valid(target) && !IsEmptyValue(target.value)
  }

  /** The whole target without its reservations; an empty or invalid target asks for nothing. */
  function Wanted(target: Resource): seq<Entry> {
    if Asks(target) then [Single(WithReservations(target, []))] else []
  }

  /** At most one entry, unreserved and in one copy: what is still to be found. */
  ghost predicate Remaining(remaining: seq<Entry>) {
    && Combined(remaining) && |remaining| <= 1
    && forall i :: 0 <= i < |remaining| ==> remaining[i].count == 1 && remaining[i].r.meta.reservations == []
  }

  /** What was found was taken out of the total, and with what remains it makes up the target. */
  ghost predicate Progress(es: seq<Entry>, found: seq<Entry>, total: seq<Entry>, remaining: seq<Entry>, wanted: seq<Entry>) {
    && Combined(found) && Combined(total) && Remaining(remaining)
    && (forall a :: Held(found, a) + Held(total, a) <= Held(es, a))
    && (forall a :: Merge(a, Held(Restack(found, Clear), a), Held(remaining, a)) == Held(wanted, a))
  }

  /** Without its reservations, what is found is what was wanted. */
  ghost predicate MakesUp(found: seq<Entry>, wanted: seq<Entry>) {
    Combined(found) && Same(Restack(found, Clear), wanted)
  }

  ghost predicate Found(es: seq<Entry>, found: seq<Entry>, wanted: seq<Entry>) {
    MakesUp(found, wanted) && Within(found, es)
  }

  lemma UnreserveOne(e: Entry)
    requires ValidEntry(e)
    ensures Restack(Add([], e), Clear) == [Unreserve(e)] && Combined([Unreserve(e)])
    ensures forall a :: Held([Unreserve(e)], a) == Weight(Unreserve(e), a)
  {
    assert Add([], e) == [e] && [e][..0] == [];
    assert [Unreserve(e)][1..] == [];
  }

  lemma ContainsSingle(e: Entry, f: Entry)
    ensures Contains([e], [f]) <==> EntryContains(e, f)
  {
    assert [f][1..] == [];
    if EntryContains(e, f) {
      assert EntryContains([e][0], f);
    }
  }

  lemma HeldSingle(e: Entry, a: Atom)
    ensures Held([e], a) == Weight(e, a)
  {
    assert [e][1..] == [];
  }

  lemma TakeNothing(es: seq<Entry>, found: seq<Entry>, total: seq<Entry>, wanted: seq<Entry>)
    requires Progress(es, found, total, [], wanted)
    ensures Found(es, found, wanted)
  {
    RestackCombined(found, Clear);
    forall a ensures Held(found, a) <= Held(es, a) && Held(Restack(found, Clear), a) == Held(wanted, a) {
      HeldNonNegative(total, a);
      HeldNonNegative(Restack(found, Clear), a);
      assert Merge(a, Held(Restack(found, Clear), a), Held([], a)) == Held(wanted, a);
    }
  }

  /** The entry has enough of what remains: the rest of the target is taken from it. */
  lemma TakeLast(es: seq<Entry>, found: seq<Entry>, total: seq<Entry>, r: Entry, wanted: seq<Entry>, e: Entry)
    requires Progress(es, found, total, [r], wanted) && e in total && Contains([Unreserve(e)], [r])
    ensures Found(es, Add(found, Single(WithReservations(r.r, e.r.meta.reservations))), wanted)
  {
    var i :| 0 <= i < |total| && total[i] == e;
    assert ValidEntry(e) && ValidEntry([r][0]) && [r][0].count == 1 && [r][0].r.meta.reservations == [];
    ContainsSingle(Unreserve(e), r);
    var piece := Single(WithReservations(r.r, e.r.meta.reservations));
    var out := Add(found, piece);
    AddRefines(found, piece);
    hide Restack, Add, Combined, Contains, ValidEntry;
    forall a ensures Held(out, a) <= Held(es, a) {
      PieceFits(e, r, a);
      HeldAtLeast(total, i, a);
      HeldByCombined(found, a);
      assert Held(found, a) + Held(total, a) <= Held(es, a);
    }
    forall a ensures Held(Restack(out, Clear), a) == Held(wanted, a) {
      RestackAdds(found, piece, Clear, a);
      assert Unreserve(piece) == r;
      HeldSingle(r, a);
      assert Merge(a, Held(Restack(found, Clear), a), Held([r], a)) == Held(wanted, a);
    }
  }

  lemma PieceFits(e: Entry, r: Entry, a: Atom)
    requires ValidEntry(e) && ValidEntry(r) && r.count == 1 && r.r.meta.reservations == [] && EntryContains(Unreserve(e), r)
    ensures Weight(Single(WithReservations(r.r, e.r.meta.reservations)), a) <= Weight(e, a)
  {
  }

  /** What remains has room for the whole entry: all of it is taken, and less remains. */
  lemma TakeWhole(es: seq<Entry>, found: seq<Entry>, total: seq<Entry>, remaining: seq<Entry>, wanted: seq<Entry>, e: Entry)
    requires Progress(es, found, total, remaining, wanted) && e in total
    requires !Contains([Unreserve(e)], remaining) && Contains(remaining, [Unreserve(e)])
    ensures Progress(es, Add(found, e), Subtract(total, e), Subtract(remaining, Unreserve(e)), wanted)
  {
    var u := Unreserve(e);
    var i :| 0 <= i < |total| && total[i] == e;
    assert remaining != [];
    var r := remaining[0];
    assert remaining == [r];
    ContainsSingle(u, r);
    ContainsSingle(r, u);
    RemainingLess(r, u);
    WholeMoved(es, found, total, i);
    forall a ensures Merge(a, Held(Restack(Add(found, e), Clear), a), Held(Subtract(remaining, u), a)) == Held(wanted, a) {
      assert Merge(a, Held(Restack(found, Clear), a), Held(remaining, a)) == Held(wanted, a);
      WholeTaken(found, r, e, a);
    }
  }

  /** Taking an entry from one collection to another keeps what they hold together. */
  lemma WholeMoved(es: seq<Entry>, found: seq<Entry>, total: seq<Entry>, i: nat)
    requires Combined(found) && Combined(total) && i < |total|
    requires forall a :: Held(found, a) + Held(total, a) <= Held(es, a)
    ensures Combined(Add(found, total[i])) && Combined(Subtract(total, total[i]))
    ensures forall a :: Held(Add(found, total[i]), a) + Held(Subtract(total, total[i]), a) <= Held(es, a)
  {
    var e := total[i];
    AddRefines(found, e);
    SubtractRefines(total, e);
    forall a ensures Held(Add(found, e), a) + Held(Subtract(total, e), a) <= Held(es, a) {
      HeldAtLeast(total, i, a);
      HeldNonNegative(found, a);
      WeightNonNegative(e, a);
    }
  }

  lemma WholeTaken(found: seq<Entry>, r: Entry, e: Entry, a: Atom)
    requires Combined(found) && ValidEntry(r) && ValidEntry(e) && Combined([r]) && EntryContains(r, Unreserve(e))
    ensures Merge(a, Held(Restack(Add(found, e), Clear), a), Held(Subtract([r], Unreserve(e)), a))
         == Merge(a, Held(Restack(found, Clear), a), Held([r], a))
  {
    var u := Unreserve(e);
    RestackedValid(e, Clear, a);
    RestackAdds(found, e, Clear, a);
    SubtractRefines([r], u);
    WholeFits(r, u, a);
    RestackCombined(found, Clear);
    HeldNonNegative(Restack(found, Clear), a);
    assert [r][1..] == [] && Held([r], a) == Weight(r, a);
  }

  lemma WeightNonNegative(e: Entry, a: Atom)
    requires ValidEntry(e)
    ensures Weight(e, a) >= 0
  {
  }

  lemma WholeFits(r: Entry, u: Entry, a: Atom)
    requires ValidEntry(r) && ValidEntry(u) && EntryContains(r, u)
    ensures 0 <= Weight(u, a) <= Weight(r, a)
    ensures a.MemberOf? ==> Weight(r, a) <= 1
  {
  }

  lemma RemainingLess(r: Entry, u: Entry)
    requires ValidEntry(r) && ValidEntry(u) && r.count == 1 && r.r.meta.reservations == []
    requires EntryContains(r, u) && !EntryContains(u, r)
    ensures Remaining(Subtract([r], u))
  {
    assert Find([r], u.r) == 0;
    var out := Subtract([r], u);
    assert Combined([r]);
    SubtractRefines([r], u);
  }

  lemma Begin(es: seq<Entry>, target: Resource)
    requires Combined(es)
    ensures Progress(es, [], es, Wanted(target), Wanted(target))
  {
    var wanted := Wanted(target);
    assert Combined(wanted);
    forall a ensures Merge(a, Held(Restack([], Clear), a), Held(wanted, a)) == Held(wanted, a) {
      HeldNonNegative(wanted, a);
    }
  }

  /** An entry that falls short of the target but fits into it. */
  predicate FallsShort(e: Entry, wanted: seq<Entry>) {
    Contains(wanted, [Unreserve(e)]) && !Contains([Unreserve(e)], wanted)
  }

  predicate Useful(e: Entry, remaining: seq<Entry>) {
    Contains([Unreserve(e)], remaining) || Contains(remaining, [Unreserve(e)])
  }

  /** The first candidate that covers what remains or fits into it, or the number of candidates. */
  function FirstUseful(candidates: seq<Entry>, remaining: seq<Entry>): (i: nat)
    ensures i <= |candidates|
    ensures i < |candidates| ==> Useful(candidates[i], remaining)
    ensures forall k :: 0 <= k < i ==> !Useful(candidates[k], remaining)
  {
    if candidates == [] || Useful(candidates[0], remaining) then 0 else 1 + FirstUseful(candidates[1..], remaining)
  }

  /** The search on values: at most one candidate is taken for each preference. */
  function Search(found: seq<Entry>, total: seq<Entry>, remaining: seq<Entry>, preferences: seq<Preference>): Option<seq<Entry>>
    decreases |preferences|
  {
    if preferences == [] then None
    else
      var candidates := Filter(total, preferences[0]);
      var i := FirstUseful(candidates, remaining);
      if i == |candidates| then Search(found, total, remaining, preferences[1..])
      else
        var e := candidates[i];
        if Contains([Unreserve(e)], remaining) then
          Some(if remaining == [] then found
               else Add(found, Single(WithReservations(remaining[0].r, e.r.meta.reservations))))
        else Search(Add(found, e), Subtract(total, e), Subtract(remaining, Unreserve(e)), preferences[1..])
  }

  /** The result for one target, on values. */
  function SearchOne(es: seq<Entry>, target: Resource): Option<seq<Entry>> {
    Search([], es, Wanted(target), Preferences(target))
  }

  lemma SearchNext(found: seq<Entry>, total: seq<Entry>, remaining: seq<Entry>, preferences: seq<Preference>, p: nat, i: nat)
    requires p < |preferences|
    requires var candidates := Filter(total, preferences[p]);
      && i <= |candidates| && (i < |candidates| ==> Useful(candidates[i], remaining))
      && forall k :: 0 <= k < i ==> !Useful(candidates[k], remaining)
    ensures var candidates := Filter(total, preferences[p]);
      Search(found, total, remaining, preferences[p..]) ==
      if i == |candidates| then Search(found, total, remaining, preferences[p + 1..])
      else
        var e := candidates[i];
        if Contains([Unreserve(e)], remaining) then
          Some(if remaining == [] then found
               else Add(found, Single(WithReservations(remaining[0].r, e.r.meta.reservations))))
        else Search(Add(found, e), Subtract(total, e), Subtract(remaining, Unreserve(e)), preferences[p + 1..])
  {
    hide Contains, Filter;
    assert preferences[p..][0] == preferences[p] && preferences[p..][1..] == preferences[p + 1..];
    assert FirstUseful(Filter(total, preferences[p]), remaining) == i;
  }

  /** No entry is large enough by itself, unless a smaller one got in the way. */
  ghost predicate Missed(es: seq<Entry>, target: Resource) {
    (forall e :: e in es ==> !FallsShort(e, Wanted(target))) ==> forall e :: e in es ==> !Contains([Unreserve(e)], Wanted(target))
  }

  lemma LastIsAny(target: Resource)
    ensures var ps := Preferences(target); |ps| > 0 && ps[|ps| - 1] == Any
  {
  }

  lemma SearchEnd(found: seq<Entry>, total: seq<Entry>, remaining: seq<Entry>)
    ensures Search(found, total, remaining, []) == None
  {
  }

  lemma {:induction false} FilterAny(es: seq<Entry>)
    ensures Filter(es, Any) == es
  {
    if es != [] {
      FilterAny(es[1..]);
    }
  }

  lemma AtHand(es: seq<Entry>, found: seq<Entry>, total: seq<Entry>, remaining: seq<Entry>, wanted: seq<Entry>, e: Entry)
    requires Progress(es, found, total, remaining, wanted) && e in total
    ensures Restack(Add([], e), Clear) == [Unreserve(e)]
    ensures SubtractAll(remaining, [Unreserve(e)]) == Subtract(remaining, Unreserve(e))
    ensures remaining == [] || remaining == [remaining[0]]
  {
    UnreserveOne(e);
    assert [Unreserve(e)][..0] == [];
  }

  /** The search on values keeps what the loop keeps. */
  lemma {:induction false} SearchFinds(es: seq<Entry>, found: seq<Entry>, total: seq<Entry>, remaining: seq<Entry>, wanted: seq<Entry>, preferences: seq<Preference>)
    requires Progress(es, found, total, remaining, wanted) && Search(found, total, remaining, preferences).Some?
    ensures Found(es, Search(found, total, remaining, preferences).value, wanted)
    decreases |preferences|
  {
    hide Progress, Found, Contains, Combined, Add, Subtract;
    var candidates := Filter(total, preferences[0]);
    var i := FirstUseful(candidates, remaining);
    if i == |candidates| {
      SearchFinds(es, found, total, remaining, wanted, preferences[1..]);
    } else {
      var e := candidates[i];
      AtHand(es, found, total, remaining, wanted, e);
      if !Contains([Unreserve(e)], remaining) {
        TakeWhole(es, found, total, remaining, wanted, e);
        SearchFinds(es, Add(found, e), Subtract(total, e), Subtract(remaining, Unreserve(e)), wanted, preferences[1..]);
      } else if remaining == [] {
        TakeNothing(es, found, total, wanted);
      } else {
        TakeLast(es, found, total, remaining[0], wanted, e);
      }
    }
  }

  lemma {:induction false} MergedAtLeast(es: seq<Entry>, op: StackOp, a: Atom, i: nat)
    requires (forall k :: 0 <= k < |es| ==> ValidEntry(es[k])) && i < |es|
    ensures Merged(es, op, a) >= Weight(Restacked(es[i], op), a)
  {
    hide Restacked, Weight;
    RestackedValid(es[0], op, a);
    MergedAddTo(es[1..], es[0], op, a);
    if i > 0 {
      MergedAtLeast(es[1..], op, a, i - 1);
    }
  }

  function Cpus(amount: int): Resource {
    Resource(Meta("cpus", None, [], None, false, None), false, Scalar(amount))
  }

  // ----- a target spread over several entries

  function CpusOf(role: string): Entry {
    Single(WithReservations(Cpus(1000), [Reservation(Dynamic, role, None, None)]))
  }

  /** Two CPUs in two roles are not found for a target of two: one entry is taken, then the search ends. */
  lemma SpreadIsMissed()
    ensures var es := [CpusOf("a"), CpusOf("b")];
      && Combined(es) && Held(Restack(es, Clear), AmountOf(Cpus(2000).meta)) == 2000
      && Search([], es, Wanted(Cpus(2000)), Preferences(Cpus(2000))) == None
  {
    var a, b := CpusOf("a"), CpusOf("b");
    var es, one, two := [a, b], Single(Cpus(1000)), Single(Cpus(2000));
    assert Combined(es);
    assert Wanted(Cpus(2000)) == [two] && Preferences(Cpus(2000)) == [Unreserved, Any];
    assert Unreserve(a) == one && Unreserve(b) == one;
    SpreadHeld(a, b, one);
    FilterNone(es);
    FilterAny(es);
    ContainsSingle(one, two);
    ContainsSingle(two, one);
    assert FirstUseful([], [two]) == 0 && FirstUseful(es, [two]) == 0;
    assert [Unreserved, Any][1..] == [Any] && [Any][1..] == [];
    assert Search([], es, [two], [Unreserved, Any]) == Search([], es, [two], [Any]);
    SearchEnd(Add([], a), Subtract(es, a), Subtract([two], one));
  }

  lemma {:induction false} FilterNone(es: seq<Entry>)
    requires forall e :: e in es ==> e.r.meta.reservations != []
    ensures Filter(es, Unreserved) == []
  {
    if es != [] {
      FilterNone(es[1..]);
    }
  }

  lemma SpreadHeld(a: Entry, b: Entry, one: Entry)
    requires Combined([a, b]) && Unreserve(a) == one && Unreserve(b) == one && one == Single(Cpus(1000))
    ensures Held(Restack([a, b], Clear), AmountOf(Cpus(2000).meta)) == 2000
  {
    var m := AmountOf(Cpus(2000).meta);
    RestackHolds([a, b], Clear, m);
    assert [a, b][1..] == [b] && [b][1..] == [];
    assert Merged([b], Clear, m) == Merge(m, Weight(one, m), Merged([], Clear, m));
    assert Merged([a, b], Clear, m) == Merge(m, Weight(one, m), Merged([b], Clear, m));
  }
}
