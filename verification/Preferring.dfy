/**
Whose resources `find` takes: those of the target's role first, then unreserved ones, then any.
*/
module Preferring {
  import opened Options
  import opened ResourceModel
  import opened ResourceLaws
  import opened Conversions
  import opened Finding
  import opened SearchOrders

  /** The role that a resource is reserved to, if it is. */
  function RoleOf(r: Resource): Option<string> {
    var rs := r.meta.reservations;
    if rs == [] then None else Some(rs[|rs| - 1].role)
  }

  /** Under whatever reservations, the entry has all of the target. */
  predicate HasAll(e: Entry, target: Resource) {
    Contains([Unreserve(e)], Wanted(target))
  }

  /** Some entry of the role, or unreserved entry for none, has all of the target, and none has only a part of it. */
  ghost predicate Offers(es: seq<Entry>, target: Resource, role: Option<string>) {
    && (exists e :: e in es && RoleOf(e.r) == role && HasAll(e, target))
    && (forall e :: e in es && RoleOf(e.r) == role ==> !FallsShort(e, Wanted(target)))
  }

  /** No entry of the role has any of the target to give. */
  ghost predicate OffersNothing(es: seq<Entry>, target: Resource, role: Option<string>) {
    forall e :: e in es && RoleOf(e.r) == role ==> !HasAll(e, target) && !FallsShort(e, Wanted(target))
  }

  /** All of the target is taken from one entry of the role. */
  ghost predicate FromRole(es: seq<Entry>, target: Resource, role: Option<string>, result: Option<seq<Entry>>) {
    exists e :: e in es && RoleOf(e.r) == role && HasAll(e, target)
             && result == Some([Single(WithReservations(target, e.r.meta.reservations))])
  }

  /** The target's own role comes first, and unreserved resources come next. */
  ghost predicate Preferred(es: seq<Entry>, target: Resource, result: Option<seq<Entry>>) {
    && (RoleOf(target).Some? && Offers(es, target, RoleOf(target)) ==> FromRole(es, target, RoleOf(target), result))
    && ((RoleOf(target).None? || OffersNothing(es, target, RoleOf(target))) && Offers(es, target, None) ==> FromRole(es, target, None, result))
  }

  /** The entries that meet a preference are those of a role. */
  lemma {:induction false} FilteredByRole(es: seq<Entry>, p: Preference, e: Entry)
    requires !p.Any?
    ensures e in Filter(es, p) <==> e in es && RoleOf(e.r) == if p.ReservedTo? then Some(p.role) else None
  {
    if es != [] {
      FilteredByRole(es[1..], p, e);
      assert es == [es[0]] + es[1..];
    }
  }

  lemma PreferencesOf(target: Resource)
    ensures RoleOf(target).None? ==> Preferences(target) == [Unreserved, Any]
    ensures RoleOf(target).Some? ==> Preferences(target) == [ReservedTo(RoleOf(target).value), Unreserved, Any]
  {
  }

  /** Where a role offers the target and its preference comes first, the target is taken from it. */
  lemma TakenFromRole(es: seq<Entry>, target: Resource, role: Option<string>, preferences: seq<Preference>)
    requires Combined(es) && Asks(target) && Offers(es, target, role)
    requires preferences != [] && preferences[0] == if role.Some? then ReservedTo(role.value) else Unreserved
    ensures FromRole(es, target, role, Search([], es, Wanted(target), preferences))
  {
    hide Contains, Filter, Combined, RoleOf;
    var p, wanted := preferences[0], Wanted(target);
    var candidates := Filter(es, p);
    forall e ensures e in candidates <==> e in es && RoleOf(e.r) == role { FilteredByRole(es, p, e); }
    var some :| some in es && RoleOf(some.r) == role && HasAll(some, target);
    var k :| 0 <= k < |candidates| && candidates[k] == some;
    assert Useful(candidates[k], wanted);
    var i := FirstUseful(candidates, wanted);
    var e := candidates[i];
    assert e in candidates && HasAll(e, target);
    TakesAll(target, e);
  }

  lemma TakesAll(target: Resource, e: Entry)
    requires Asks(target)
    ensures Wanted(target) != []
    ensures Add([], Single(WithReservations(Wanted(target)[0].r, e.r.meta.reservations))) == [Single(WithReservations(target, e.r.meta.reservations))]
  {
  }

  /** Where a role offers nothing, its preference is passed over. */
  lemma PassedOver(es: seq<Entry>, target: Resource, role: string, preferences: seq<Preference>)
    requires OffersNothing(es, target, Some(role)) && preferences != [] && preferences[0] == ReservedTo(role)
    ensures Search([], es, Wanted(target), preferences) == Search([], es, Wanted(target), preferences[1..])
  {
    hide Contains, Filter, RoleOf, Wanted;
    var p, wanted := preferences[0], Wanted(target);
    var candidates := Filter(es, p);
    forall k | 0 <= k < |candidates| ensures !Useful(candidates[k], wanted) {
      FilteredByRole(es, p, candidates[k]);
    }
    assert FirstUseful(candidates, wanted) == |candidates|;
  }

  /** The search prefers the target's role, then unreserved resources. */
  lemma SearchPrefers(es: seq<Entry>, target: Resource)
    requires Combined(es) && Asks(target)
    ensures Preferred(es, target, SearchOne(es, target))
  {
    hide Offers, OffersNothing, FromRole, Search, Combined, RoleOf, Preferences;
    PreferencesOf(target);
    var role, preferences := RoleOf(target), Preferences(target);
    if role.Some? {
      if Offers(es, target, role) {
        TakenFromRole(es, target, role, preferences);
      }
      if OffersNothing(es, target, role) && Offers(es, target, None) {
        PassedOver(es, target, role.value, preferences);
        TakenFromRole(es, target, None, preferences[1..]);
      }
    } else if Offers(es, target, None) {
      TakenFromRole(es, target, None, preferences);
    }
  }

  // ----- how much of a divisible scalar target comes from where

  function Min(x: int, y: int): int {
    if x <= y then x else y
  }

  /** As much as there is from the first entry, then from the next, until nothing is left to be found. */
  function Share(picks: seq<Option<Entry>>, left: int, a: Atom): int {
    if picks == [] then 0
    else
      var x := Min(left, AmountIn(picks[0]));
      (if picks[0].Some? && a == AmountOf(picks[0].value.r.meta) then x else 0) + Share(picks[1..], left - x, a)
  }

  lemma ShareFirst(o: Option<Entry>, picks: seq<Option<Entry>>, left: int, a: Atom)
    ensures Share([o] + picks, left, a) ==
      var x := Min(left, AmountIn(o)); (if o.Some? && a == AmountOf(o.value.r.meta) then x else 0) + Share(picks, left - x, a)
  {
    assert ([o] + picks)[1..] == picks;
  }

  lemma NoShare(left: int, a: Atom)
    ensures Share([], left, a) == 0
  {
  }

  lemma {:induction false} NothingLeft(total: seq<Entry>, target: Resource, preferences: seq<Preference>, a: Atom)
    requires Combined(total)
    ensures Share(Taken(total, target, preferences), 0, a) == 0
    decreases |preferences|
  {
    hide Combined, InClass;
    if preferences != [] {
      var o := First(total, target, preferences[0]);
      WithoutCombined(total, o);
      NothingLeft(Without(total, o), target, preferences[1..], a);
      ShareFirst(o, Taken(Without(total, o), target, preferences[1..]), 0, a);
      if o.Some? {
        InCombined(total, o.value);
      }
    }
  }

  /** The last part is taken under the reservations of the entry. */
  lemma PartTaken(found: seq<Entry>, target: Resource, left: int, e: Entry, a: Atom)
    requires Combined(found) && Divisible(target) && left > 0 && InClass(e, target)
    ensures Held(Add(found, Single(WithReservations(Left(target, left).r, e.r.meta.reservations))), a)
         == Held(found, a) + if a == AmountOf(e.r.meta) then left else 0
  {
    var piece := Single(WithReservations(Left(target, left).r, e.r.meta.reservations));
    assert ValidEntry(piece) && piece.r.meta == e.r.meta;
    AddRefines(found, piece);
    HeldByCombined(found, a);
  }

  lemma WholeAdded(found: seq<Entry>, target: Resource, e: Entry, a: Atom)
    requires Combined(found) && Divisible(target) && ValidEntry(e) && InClass(e, target)
    ensures Combined(Add(found, e))
    ensures Held(Add(found, e), a) == Held(found, a) + if a == AmountOf(e.r.meta) then e.r.value.amount else 0
  {
    AddRefines(found, e);
    HeldByCombined(found, a);
  }

  /** What one step of the search finds. */
  lemma SearchStepIs(found: seq<Entry>, total: seq<Entry>, target: Resource, left: int, preferences: seq<Preference>)
    requires Combined(total) && Divisible(target) && left > 0 && preferences != []
    ensures var o, rest := First(total, target, preferences[0]), preferences[1..];
      Search(found, total, [Left(target, left)], preferences) ==
        if o.None? then Search(found, total, [Left(target, left)], rest)
        else if AmountIn(o) >= left then Some(Add(found, Single(WithReservations(Left(target, left).r, o.value.r.meta.reservations))))
        else Search(Add(found, o.value), Subtract(total, o.value), [Left(target, left - AmountIn(o))], rest)
  {
    hide Contains, Useful, Left, Divisible, ValidEntry, Subtract, Add, Filter, FirstUseful, First, Combined;
    AllInCombined(total);
    FirstIsUseful(total, target, preferences[0], left);
    var o := First(total, target, preferences[0]);
    if o.Some? {
      UsefulIff(o.value, target, left);
      if o.value.r.value.amount < left {
        LeftOver(o.value, target, left);
      }
    }
  }

  lemma {:induction false} SearchShares(found: seq<Entry>, total: seq<Entry>, target: Resource, left: int, preferences: seq<Preference>, a: Atom)
    requires Combined(found) && Combined(total) && Divisible(target) && left > 0
    requires Search(found, total, [Left(target, left)], preferences).Some?
    ensures Held(Search(found, total, [Left(target, left)], preferences).value, a)
         == Held(found, a) + Share(Taken(total, target, preferences), left, a)
    decreases |preferences|
  {
    hide Combined, Divisible, Left, Search, First, Add, Subtract, ValidEntry, InClass, Held, Share, Taken, AmountIn, WithReservations;
    if preferences == [] {
      SearchEnd(found, total, [Left(target, left)]);
    } else {
      var o, rest := First(total, target, preferences[0]), preferences[1..];
      SearchStepIs(found, total, target, left, preferences);
      TakenFirst(total, target, preferences);
      ShareFirst(o, Taken(Without(total, o), target, rest), left, a);
      WithoutCombined(total, o);
      if o.None? {
        NoAmount();
        SearchShares(found, total, target, left, rest, a);
      } else {
        InCombined(total, o.value);
        AmountOfScalar(o.value, target);
        if AmountIn(o) >= left {
          PartTaken(found, target, left, o.value, a);
          NothingLeft(Without(total, o), target, rest, a);
        } else {
          WholeAdded(found, target, o.value, a);
          SearchShares(Add(found, o.value), Subtract(total, o.value), target, left - AmountIn(o), rest, a);
        }
      }
    }
  }

  lemma NoAmount()
    ensures AmountIn(None) == 0
  {
  }

  lemma TakenFirst(total: seq<Entry>, target: Resource, preferences: seq<Preference>)
    requires preferences != []
    ensures var o := First(total, target, preferences[0]);
      Taken(total, target, preferences) == [o] + Taken(Without(total, o), target, preferences[1..])
  {
  }

  lemma AmountOfScalar(e: Entry, target: Resource)
    requires InClass(e, target)
    ensures e.r.value.Scalar? && AmountIn(Some(e)) == e.r.value.amount
  {
  }

  /** An entry of the class and the role that has not been chosen before, or none where there is none. */
  ghost predicate Chosen(es: seq<Entry>, target: Resource, role: Option<string>, before: set<Entry>, o: Option<Entry>) {
    match o
    case Some(e) => e in es && InClass(e, target) && RoleOf(e.r) == role && e !in before
    case None => forall e :: e in es && InClass(e, target) && RoleOf(e.r) == role ==> e in before
  }

  ghost predicate ChosenAnywhere(es: seq<Entry>, target: Resource, before: set<Entry>, o: Option<Entry>) {
    match o
    case Some(e) => e in es && InClass(e, target) && e !in before
    case None => forall e :: e in es && InClass(e, target) ==> e in before
  }

  function AsSet(o: Option<Entry>): set<Entry> {
    if o.Some? then {o.value} else {}
  }

  /** From an entry of the target's role, then from the unreserved one, then from another one: each gives all it has before the next. */
  ghost predicate Shares(es: seq<Entry>, target: Resource, result: seq<Entry>, own: Option<Entry>, free: Option<Entry>, other: Option<Entry>)
    requires target.value.Scalar?
  {
    && (if RoleOf(target).None? then own.None? else Chosen(es, target, RoleOf(target), {}, own))
    && Chosen(es, target, None, {}, free)
    && ChosenAnywhere(es, target, AsSet(own) + AsSet(free), other)
    && forall a :: Held(result, a) == Share([own, free, other], target.value.amount, a)
  }

  /** Resources of other roles are taken only where all of the target's role and the unreserved ones do not suffice. */
  lemma OthersLast(es: seq<Entry>, target: Resource, result: seq<Entry>, own: Option<Entry>, free: Option<Entry>, other: Option<Entry>, a: Atom)
    requires Combined(es) && Divisible(target) && Shares(es, target, result, own, free, other) && Held(result, a) > 0
    ensures a.AmountOf?
    ensures (own.None? || a != AmountOf(own.value.r.meta)) && (free.None? || a != AmountOf(free.value.r.meta)) ==>
      && AmountIn(own) + AmountIn(free) < target.value.amount
      && other.Some? && a == AmountOf(other.value.r.meta)
  {
    hide Combined, InClass, Share, RoleOf;
    var amount := target.value.amount;
    var left := amount - Min(amount, AmountIn(own));
    assert [own] + [free, other] == [own, free, other] && [free] + [other] == [free, other] && [other] + [] == [other];
    ShareFirst(own, [free, other], amount, a);
    ShareFirst(free, [other], left, a);
    ShareFirst(other, [], left - Min(left, AmountIn(free)), a);
    NoShare(left - Min(left, AmountIn(free)) - Min(left - Min(left, AmountIn(free)), AmountIn(other)), a);
    assert Held(result, a) == Share([own, free, other], amount, a);
    forall o | o in [own, free, other] ensures AmountIn(o) >= 0 {
      if o.Some? {
        InCombined(es, o.value);
      }
    }
    assert own in [own, free, other] && free in [own, free, other] && other in [own, free, other];
  }

  lemma PicksOfReserved(es: seq<Entry>, target: Resource, picks: seq<Option<Entry>>)
    requires Combined(es) && Divisible(target) && Draws(es, target, picks) && RoleOf(target).Some?
    ensures |picks| == 3 && Chosen(es, target, RoleOf(target), {}, picks[0]) && Chosen(es, target, None, {}, picks[1])
    ensures ChosenAnywhere(es, target, AsSet(picks[0]) + AsSet(picks[1]), picks[2])
  {
    hide InClass, Combined, Divisible;
    PreferencesOf(target);
    assert [] + picks[..0] == [] && [] + picks[..1] == [picks[0]] && [] + picks[..2] == [picks[0], picks[1]];
    assert Pick(es, target, Preferences(target)[0], [] + picks[..0], picks[0]);
    assert Pick(es, target, Preferences(target)[1], [] + picks[..1], picks[1]);
    assert Pick(es, target, Preferences(target)[2], [] + picks[..2], picks[2]);
  }

  lemma PicksOfUnreserved(es: seq<Entry>, target: Resource, picks: seq<Option<Entry>>)
    requires Combined(es) && Divisible(target) && Draws(es, target, picks) && RoleOf(target).None?
    ensures |picks| == 2 && Chosen(es, target, None, {}, picks[0]) && ChosenAnywhere(es, target, AsSet(picks[0]), picks[1])
  {
    hide InClass, Combined, Divisible;
    PreferencesOf(target);
    assert [] + picks[..0] == [] && [] + picks[..1] == [picks[0]];
    assert Pick(es, target, Preferences(target)[0], [] + picks[..0], picks[0]);
    assert Pick(es, target, Preferences(target)[1], [] + picks[..1], picks[1]);
  }

  lemma SharesTaken(es: seq<Entry>, target: Resource, a: Atom)
    requires Combined(es) && Divisible(target) && SearchOne(es, target).Some?
    ensures Held(SearchOne(es, target).value, a) == Share(Taken(es, target, Preferences(target)), target.value.amount, a)
  {
    var nothing: seq<Entry> := [];
    assert Combined(nothing) && Held(nothing, a) == 0;
    assert Wanted(target) == [Left(target, target.value.amount)];
    hide Combined, Search, Taken, Share, Held, Divisible, Left, Wanted;
    SearchShares(nothing, es, target, target.value.amount, Preferences(target), a);
  }

  lemma ScalarShares(es: seq<Entry>, target: Resource) returns (own: Option<Entry>, free: Option<Entry>, other: Option<Entry>)
    requires Combined(es) && Divisible(target) && SearchOne(es, target).Some?
    ensures Shares(es, target, SearchOne(es, target).value, own, free, other)
  {
    hide Combined, InClass, SearchOne, Chosen, ChosenAnywhere, RoleOf, Draws, Taken, Share, Preferences, Held;
    var picks, amount := Taken(es, target, Preferences(target)), target.value.amount;
    TakesDraws(es, target);
    if RoleOf(target).Some? {
      PicksOfReserved(es, target, picks);
      own, free, other := picks[0], picks[1], picks[2];
      assert picks == [own, free, other];
    } else {
      PicksOfUnreserved(es, target, picks);
      own, free, other := None, picks[0], picks[1];
      assert picks == [free, other] && AsSet(own) + AsSet(free) == AsSet(free);
      assert [own] + picks == [own, free, other];
    }
    hide Divisible;
    forall a ensures Held(SearchOne(es, target).value, a) == Share([own, free, other], amount, a) {
      SharesTaken(es, target, a);
      ShareNone(picks, amount, a);
    }
  }

  lemma ShareNone(picks: seq<Option<Entry>>, left: int, a: Atom)
    requires left >= 0
    ensures Share([None] + picks, left, a) == Share(picks, left, a)
  {
    ShareFirst(None, picks, left, a);
  }

  lemma TakesDraws(es: seq<Entry>, target: Resource)
    requires Combined(es) && Divisible(target)
    ensures Draws(es, target, Taken(es, target, Preferences(target)))
  {
    hide Taken, Preferences, InClass, Divisible, Combined;
    TakenDraws(es, target, [], es, Preferences(target));
  }

  // ----- the search

  /**
  Looks for the target by preference; a whole entry is taken at most once per preference. What is
  found is held and makes up the target. An entry large enough is missed only when a smaller one
  got in the way.
  */
  method FindOne(es: seq<Entry>, target: Resource) returns (result: Option<seq<Entry>>)
    requires Combined(es)
    ensures result == SearchOne(es, target)
    ensures Asks(target) ==> Preferred(es, target, result)
    ensures Divisible(target) && result.Some? ==> exists own, free, other :: Shares(es, target, result.value, own, free, other)
    ensures result.Some? ==> Found(es, result.value, Wanted(target))
    ensures result.None? ==> Missed(es, target)
  {
    hide Progress, Found, Contains, Combined, Wanted, Search, Filter, Preferences, Preferred, Shares, Asks, Divisible;
    var found: seq<Entry>, total, remaining := [], es, Wanted(target);
    ghost var wanted, short := remaining, false;
    Begin(es, target);
    FoundAsPreferred(es, target);
    var preferences := Preferences(target);
    LastIsAny(target);
    assert preferences[0..] == preferences;
    for p := 0 to |preferences|
      invariant Search(found, total, remaining, preferences[p..]) == Search([], es, wanted, preferences)
      invariant Progress(es, found, total, remaining, wanted)
      invariant short ==> exists e :: e in es && FallsShort(e, wanted)
      invariant !short ==> total == es && remaining == wanted
      invariant p == |preferences| && !short ==> forall e :: e in es ==> !Contains([Unreserve(e)], wanted)
    {
      var candidates := Filter(total, preferences[p]);
      ghost var taken := false;
      for i := 0 to |candidates|
        invariant !taken && forall k :: 0 <= k < i ==> !Useful(candidates[k], remaining)
      {
        var e := candidates[i];
        AtHand(es, found, total, remaining, wanted, e);
        var unreserved := Restack(Add([], e), Clear);
        if Useful(e, remaining) {
          SearchNext(found, total, remaining, preferences, p, i);
        }
        if Contains(unreserved, remaining) {
          if remaining == [] {
            TakeNothing(es, found, total, wanted);
          } else {
            TakeLast(es, found, total, remaining[0], wanted, e);
            found := Add(found, Single(WithReservations(remaining[0].r, e.r.meta.reservations)));
          }
          return Some(found);
        } else if Contains(remaining, unreserved) {
          TakeWhole(es, found, total, remaining, wanted, e);
          assert !short ==> FallsShort(e, wanted);
          found := Add(found, e);
          total := Subtract(total, e);
          remaining := SubtractAll(remaining, unreserved);
          short, taken := true, true;
          break;
        }
      }
      if !taken {
        SearchNext(found, total, remaining, preferences, p, |candidates|);
      }
      if p == |preferences| - 1 && !short {
        FilterAny(es);
      }
    }
    SearchEnd(found, total, remaining);
    assert preferences[|preferences|..] == [];
    return None;
  }

  lemma FoundAsPreferred(es: seq<Entry>, target: Resource)
    requires Combined(es)
    ensures Asks(target) ==> Preferred(es, target, SearchOne(es, target))
    ensures Divisible(target) && SearchOne(es, target).Some? ==>
      exists own, free, other :: Shares(es, target, SearchOne(es, target).value, own, free, other)
  {
    if Asks(target) {
      SearchPrefers(es, target);
    }
    hide Combined, Preferred, Search, Shares, Divisible;
    if Divisible(target) && SearchOne(es, target).Some? {
      var own, free, other := ScalarShares(es, target);
    }
  }
}
