/**
`find` for a list of targets: each is looked for in the whole collection, and the results are added up.
*/
module Targets {
  import opened Options
  import opened ResourceModel
  import opened ResourceLaws
  import opened Conversions
  import opened Finding
  import opened Preferring

  function WantedAll(targets: seq<Resource>): seq<Entry> {
    if targets == [] then []
    else AddAll(WantedAll(targets[..|targets| - 1]), Wanted(targets[|targets| - 1]))
  }

  function SearchAll(es: seq<Entry>, targets: seq<Resource>): Option<seq<Entry>> {
    if targets == [] then Some([])
    else
      match (SearchAll(es, targets[..|targets| - 1]), SearchOne(es, targets[|targets| - 1]))
      case (Some(total), Some(found)) => Some(AddAll(total, found))
      case _ => None
  }

  lemma {:induction false} SearchAllStops(es: seq<Entry>, targets: seq<Resource>, i: nat)
    requires i <= |targets| && SearchAll(es, targets[..i]).None?
    ensures SearchAll(es, targets).None?
    decreases |targets|
  {
    if i == |targets| {
      assert targets[..i] == targets;
    } else {
      assert targets[..|targets| - 1][..i] == targets[..i];
      SearchAllStops(es, targets[..|targets| - 1], i);
    }
  }

  // ----- targets that can be found in the same place

  /** Without their reservations, two amounts of one class, or the same exclusive disk or shared volume. */
  predicate Rivals(t: Resource, u: Resource) {
    && Asks(t) && Asks(u)
    && var v, w := WithReservations(t, []), WithReservations(u, []);
       if v.shared || Indivisible(v.meta) then v == w
       else !w.shared && v.meta == w.meta && v.value.Scalar? && w.value.Scalar?
  }

  predicate NoRivals(targets: seq<Resource>) {
    forall i, j :: 0 <= i < j < |targets| ==> !Rivals(targets[i], targets[j])
  }

  lemma HeldWanted(target: Resource, a: Atom)
    ensures Asks(target) ==> Held(Wanted(target), a) == Weight(Single(WithReservations(target, [])), a)
    ensures !Asks(target) ==> Held(Wanted(target), a) == 0
    ensures Held(Wanted(target), a) >= 0
  {
    if Asks(target) {
      HeldSingle(Single(WithReservations(target, [])), a);
    }
  }

  /** Rivals are the targets that share something other than a member. */
  lemma RivalsIff(t: Resource, u: Resource)
    ensures Rivals(t, u) <==> exists a: Atom :: !a.MemberOf? && Held(Wanted(t), a) > 0 && Held(Wanted(u), a) > 0
  {
    if a: Atom :| !a.MemberOf? && Held(Wanted(t), a) > 0 && Held(Wanted(u), a) > 0 {
      HeldWanted(t, a);
      HeldWanted(u, a);
    }
    if Rivals(t, u) {
      var a := SharedAtom(t, u);
    }
  }

  lemma SharedAtom(t: Resource, u: Resource) returns (a: Atom)
    requires Rivals(t, u)
    ensures !a.MemberOf? && Held(Wanted(t), a) > 0 && Held(Wanted(u), a) > 0
  {
    a := Witness(Single(WithReservations(t, [])));
    HeldWanted(t, a);
    HeldWanted(u, a);
  }

  /** The atom without its reservations. */
  function Bare(a: Atom): Atom {
    match a
    case AmountOf(m) => AmountOf(m.(reservations := []))
    case MemberOf(m, kind, x) => MemberOf(m.(reservations := []), kind, x)
    case UnitsOf(u) => UnitsOf(WithReservations(u, []))
    case CopiesOf(v) => CopiesOf(WithReservations(v, []))
  }

  /** A result for a target holds only what the target asks for. */
  lemma FoundBare(found: seq<Entry>, target: Resource, a: Atom)
    requires MakesUp(found, Wanted(target)) && Held(found, a) > 0 && !a.MemberOf?
    ensures Held(Wanted(target), Bare(a)) > 0
  {
    var i := HeldSome(found, a);
    RestackHolds(found, Clear, Bare(a));
    MergedAtLeast(found, Clear, Bare(a), i);
    assert Held(Restack(found, Clear), Bare(a)) == Held(Wanted(target), Bare(a));
  }

  // ----- all targets

  /** What is held so far was asked for by a target. */
  ghost predicate FromTargets(total: seq<Entry>, targets: seq<Resource>) {
    forall a: Atom :: !a.MemberOf? && Held(total, a) > 0
      ==> exists k :: 0 <= k < |targets| && Held(Wanted(targets[k]), Bare(a)) > 0
  }

  /**
  All targets, each looked for in the whole collection. The result makes up all of them, and it is
  held when no two are rivals.
  */
  method FindAll(es: seq<Entry>, targets: seq<Resource>) returns (result: Option<seq<Entry>>)
    requires Combined(es)
    ensures result == SearchAll(es, targets)
    ensures result.Some? ==> MakesUp(result.value, WantedAll(targets))
    ensures result.Some? && NoRivals(targets) ==> Found(es, result.value, WantedAll(targets))
    ensures result.None? ==> exists i :: 0 <= i < |targets| && Missed(es, targets[i])
  {
    hide MakesUp, Within, Combined, NoRivals, FallsShort, Contains, Search;
    var total: seq<Entry> := [];
    for i := 0 to |targets|
      invariant SearchAll(es, targets[..i]) == Some(total)
    {
      var found := FindOne(es, targets[i]);
      assert targets[..i + 1][..i] == targets[..i];
      if found.None? {
        assert Missed(es, targets[i]);
        SearchAllStops(es, targets, i + 1);
        return None;
      }
      total := AddAll(total, found.value);
    }
    assert targets[..|targets|] == targets;
    SearchAllMakes(es, targets);
    if NoRivals(targets) {
      SearchAllHeld(es, targets);
    }
    return Some(total);
  }

  lemma SearchOneFound(es: seq<Entry>, target: Resource)
    requires Combined(es) && SearchOne(es, target).Some?
    ensures Found(es, SearchOne(es, target).value, Wanted(target))
  {
    Begin(es, target);
    SearchFinds(es, [], es, Wanted(target), Wanted(target), Preferences(target));
  }

  lemma {:induction false} SearchAllMakes(es: seq<Entry>, targets: seq<Resource>)
    requires Combined(es) && SearchAll(es, targets).Some?
    ensures MakesUp(SearchAll(es, targets).value, WantedAll(targets))
  {
    if targets != [] {
      hide Wanted, Search, Combined, MakesUp;
      var n := |targets| - 1;
      SearchAllMakes(es, targets[..n]);
      SearchOneFound(es, targets[n]);
      WantedCombined(targets);
      WantedCombined(targets[..n]);
      MadeTogether(SearchAll(es, targets[..n]).value, WantedAll(targets[..n]), SearchOne(es, targets[n]).value, Wanted(targets[n]));
    }
  }

  /** Without rivals, what is found for all targets is held, and each part of it was asked for. */
  lemma {:induction false} SearchAllHeld(es: seq<Entry>, targets: seq<Resource>)
    requires Combined(es) && SearchAll(es, targets).Some? && NoRivals(targets)
    ensures Within(SearchAll(es, targets).value, es) && FromTargets(SearchAll(es, targets).value, targets)
  {
    hide Wanted, Search, Combined, Rivals, MakesUp;
    if targets == [] {
      forall a ensures Held([], a) <= Held(es, a) { HeldByCombined(es, a); }
    } else {
      var n := |targets| - 1;
      SearchAllHeld(es, targets[..n]);
      SearchAllMakes(es, targets[..n]);
      MadeOfCombined(SearchAll(es, targets[..n]).value, WantedAll(targets[..n]));
      SearchOneFound(es, targets[n]);
      HeldMore(es, SearchAll(es, targets[..n]).value, targets, SearchOne(es, targets[n]).value);
    }
  }

  lemma HeldMore(es: seq<Entry>, total: seq<Entry>, targets: seq<Resource>, found: seq<Entry>)
    requires targets != [] && NoRivals(targets) && Combined(total) && Within(total, es) && FromTargets(total, targets[..|targets| - 1])
    requires Found(es, found, Wanted(targets[|targets| - 1]))
    ensures Within(AddAll(total, found), es) && FromTargets(AddAll(total, found), targets)
  {
    hide Wanted, MakesUp, Restack;
    var n := |targets| - 1;
    MadeOfCombined(found, Wanted(targets[n]));
    hide Combined;
    AddAllRefines(total, found);
    forall a: Atom ensures Held(AddAll(total, found), a) <= Held(es, a) {
      HeldApart(total, targets, found, a);
      assert Held(total, a) <= Held(es, a) && Held(found, a) <= Held(es, a);
    }
    forall a: Atom | !a.MemberOf? && Held(AddAll(total, found), a) > 0
      ensures exists k :: 0 <= k < |targets| && Held(Wanted(targets[k]), Bare(a)) > 0
    {
      if Held(total, a) > 0 {
        var k :| 0 <= k < n && Held(Wanted(targets[..n][k]), Bare(a)) > 0;
        assert targets[..n][k] == targets[k];
      } else {
        FoundBare(found, targets[n], a);
      }
    }
  }

  lemma HeldApart(total: seq<Entry>, targets: seq<Resource>, found: seq<Entry>, a: Atom)
    requires targets != [] && NoRivals(targets) && Combined(total) && FromTargets(total, targets[..|targets| - 1])
    requires MakesUp(found, Wanted(targets[|targets| - 1]))
    ensures Held(total, a) >= 0 && Held(found, a) >= 0
    ensures a.MemberOf? || Held(total, a) == 0 || Held(found, a) == 0
  {
    hide Wanted, Rivals;
    var n := |targets| - 1;
    HeldByCombined(total, a);
    HeldByCombined(found, a);
    if !a.MemberOf? && Held(total, a) > 0 && Held(found, a) > 0 {
      FoundBare(found, targets[n], a);
      var k :| 0 <= k < n && Held(Wanted(targets[..n][k]), Bare(a)) > 0;
      RivalsIff(targets[k], targets[n]);
    }
  }

  lemma {:induction false} WantedCombined(targets: seq<Resource>)
    ensures Combined(WantedAll(targets))
    ensures forall i :: 0 <= i < |targets| ==> Combined(Wanted(targets[i]))
  {
    if targets != [] {
      WantedCombined(targets[..|targets| - 1]);
      AddAllRefines(WantedAll(targets[..|targets| - 1]), Wanted(targets[|targets| - 1]));
    }
  }

  lemma {:induction false} RestackAddsAll(es: seq<Entry>, fs: seq<Entry>, op: StackOp, a: Atom)
    requires Combined(es) && Combined(fs)
    ensures Held(Restack(AddAll(es, fs), op), a) == Merge(a, Held(Restack(es, op), a), Held(Restack(fs, op), a))
    decreases |fs|
  {
    hide Restack, Restacked, Merged;
    RestackCombined(es, op);
    HeldByCombined(Restack(es, op), a);
    if fs == [] {
      NothingRestacked(op, a);
    } else {
      var n := |fs| - 1;
      CombinedFront(fs);
      AddAllRefines(es, fs[..n]);
      RestackAddsAll(es, fs[..n], op, a);
      RestackAdds(AddAll(es, fs[..n]), fs[n], op, a);
      RestackHolds(fs, op, a);
      RestackHolds(fs[..n], op, a);
      MergedAppend(fs[..n], fs[n], op, a);
      assert fs == fs[..n] + [fs[n]];
      RestackedValid(fs[n], op, a);
    }
  }

  lemma NothingRestacked(op: StackOp, a: Atom)
    ensures Held(Restack([], op), a) == 0
  {
  }

  lemma MadeTogether(total: seq<Entry>, wanted: seq<Entry>, found: seq<Entry>, more: seq<Entry>)
    requires MakesUp(total, wanted) && MakesUp(found, more) && Combined(wanted) && Combined(more)
    ensures MakesUp(AddAll(total, found), AddAll(wanted, more))
  {
    hide Combined, Restack;
    AddAllRefines(total, found);
    AddAllRefines(wanted, more);
    forall a ensures Held(Restack(AddAll(total, found), Clear), a) == Held(AddAll(wanted, more), a) {
      RestackAddsAll(total, found, Clear, a);
      assert Held(Restack(total, Clear), a) == Held(wanted, a) && Held(Restack(found, Clear), a) == Held(more, a);
    }
  }

  lemma MadeOfCombined(found: seq<Entry>, wanted: seq<Entry>)
    requires MakesUp(found, wanted)
    ensures Combined(found)
  {
  }

  // ----- a collection in which rivals are found in the same place

  /** Holds just enough for each of the targets by itself. */
  function Cover(targets: seq<Resource>): seq<Entry> {
    if targets == [] then []
    else
      var wanted := Wanted(targets[|targets| - 1]);
      AddAll(SubtractAll(Cover(targets[..|targets| - 1]), wanted), wanted)
  }

  /** The most that a single target asks for. */
  function Largest(targets: seq<Resource>, a: Atom): int {
    if targets == [] then 0
    else
      var most, last := Largest(targets[..|targets| - 1], a), Held(Wanted(targets[|targets| - 1]), a);
      if most < last then last else most
  }

  lemma {:induction false} CoverHolds(targets: seq<Resource>)
    ensures Combined(Cover(targets)) && forall a :: Held(Cover(targets), a) == Largest(targets, a)
  {
    if targets != [] {
      var n := |targets| - 1;
      var wanted := Wanted(targets[n]);
      CoverHolds(targets[..n]);
      WantedCombined(targets);
      hide Combined, Wanted;
      SubtractAllRefines(Cover(targets[..n]), wanted);
      AddAllRefines(SubtractAll(Cover(targets[..n]), wanted), wanted);
      forall a: Atom ensures Held(Cover(targets), a) == Largest(targets, a) {
        HeldByCombined(Cover(targets[..n]), a);
        HeldByCombined(wanted, a);
        if a.MemberOf? {
          MemberHeldOnce(Cover(targets[..n]), a);
          MemberHeldOnce(wanted, a);
        }
      }
    }
  }

  lemma {:induction false} LargestHolds(targets: seq<Resource>, i: nat, a: Atom)
    requires i < |targets|
    ensures Held(Wanted(targets[i]), a) <= Largest(targets, a)
  {
    if i < |targets| - 1 {
      LargestHolds(targets[..|targets| - 1], i, a);
    }
  }

  lemma {:induction false} LargestOf(targets: seq<Resource>, a: Atom) returns (i: nat)
    requires Largest(targets, a) > 0
    ensures i < |targets| && Held(Wanted(targets[i]), a) > 0
  {
    i := |targets| - 1;
    if Held(Wanted(targets[i]), a) <= 0 {
      i := LargestOf(targets[..i], a);
    }
  }

  ghost predicate AllUnreserved(es: seq<Entry>) {
    forall e :: e in es ==> e.r.meta.reservations == []
  }

  lemma CoverUnreserved(targets: seq<Resource>)
    ensures AllUnreserved(Cover(targets))
  {
    CoverHolds(targets);
    var es := Cover(targets);
    forall k | 0 <= k < |es| ensures es[k].r.meta.reservations == [] {
      var a := Witness(es[k]);
      HeldAtLeast(es, k, a);
      var i := LargestOf(targets, a);
      HeldWanted(targets[i], a);
    }
  }

  // ----- what a search finds among unreserved entries

  /** An empty or invalid target is found wherever there is anything. */
  lemma {:induction false} NothingFound(es: seq<Entry>, preferences: seq<Preference>)
    requires es != [] && preferences != [] && preferences[|preferences| - 1] == Any
    ensures Search([], es, [], preferences) == Some([])
    decreases |preferences|
  {
    var candidates := Filter(es, preferences[0]);
    FilterAny(es);
    if candidates == [] {
      NothingFound(es, preferences[1..]);
    } else {
      assert Useful(candidates[0], []);
    }
  }

  lemma {:induction false} FilterUnreserved(es: seq<Entry>, role: string)
    requires AllUnreserved(es)
    ensures Filter(es, Unreserved) == es && Filter(es, ReservedTo(role)) == []
  {
    if es != [] {
      FilterUnreserved(es[1..], role);
    }
  }

  /** Among unreserved entries that cover the target, whatever is of use has all of it. */
  lemma UsefulCovers(es: seq<Entry>, i: nat, w: Entry)
    requires Combined(es) && AllUnreserved(es) && i < |es| && ValidEntry(w) && w.count == 1 && Within([w], es)
    requires Useful(es[i], [w])
    ensures EntryContains(es[i], w)
  {
    var e := es[i];
    assert e in es;
    assert Unreserve(e) == e;
    ContainsSingle(e, w);
    ContainsSingle(w, e);
    if !EntryContains(e, w) {
      forall a ensures Weight(w, a) <= Held(es, a) { HeldSingle(w, a); }
      EntryFits(es, i, w);
    }
  }

  /** Some entry is of use. */
  lemma SomeUseful(es: seq<Entry>, w: Entry)
    requires Combined(es) && AllUnreserved(es) && ValidEntry(w) && Within([w], es)
    ensures FirstUseful(es, [w]) < |es|
  {
    forall a ensures Weight(w, a) <= Held(es, a) { HeldSingle(w, a); }
    ContainsEntryIff(es, w);
    var k :| 0 <= k < |es| && EntryContains(es[k], w);
    assert es[k] in es;
    assert Unreserve(es[k]) == es[k];
    ContainsSingle(es[k], w);
    assert Useful(es[k], [w]);
  }

  /** The first entry of use is found, and all of the target is taken from it. */
  lemma WholeFound(es: seq<Entry>, w: Entry, preferences: seq<Preference>)
    requires Combined(es) && AllUnreserved(es) && ValidEntry(w) && w.count == 1 && w.r.meta.reservations == [] && Within([w], es)
    requires preferences != [] && preferences[0] == Unreserved
    ensures Search([], es, [w], preferences) == Some([w])
  {
    FilterUnreserved(es, "");
    SomeUseful(es, w);
    var i := FirstUseful(es, [w]);
    UsefulCovers(es, i, w);
    assert es[i] in es;
    hide Combined, Within, FirstUseful, Filter, EntryContains, Useful, Contains;
    assert Unreserve(es[i]) == es[i];
    ContainsSingle(es[i], w);
    assert WithReservations(w.r, []) == w.r && Single(w.r) == w;
    assert Add([], w) == [w];
  }

  lemma WantedFound(es: seq<Entry>, target: Resource)
    requires Combined(es) && AllUnreserved(es) && es != [] && Within(Wanted(target), es)
    ensures SearchOne(es, target) == Some(Wanted(target))
  {
    hide Within, Combined, AllUnreserved;
    var preferences := Preferences(target);
    LastIsAny(target);
    if !Asks(target) {
      NothingFound(es, preferences);
    } else {
      var w := Single(WithReservations(target, []));
      if preferences[0] == Unreserved {
        WholeFound(es, w, preferences);
      } else {
        FilterUnreserved(es, preferences[0].role);
        assert preferences[1..] == [Unreserved, Any];
        WholeFound(es, w, preferences[1..]);
      }
    }
  }

  lemma {:induction false} AllWantedFound(es: seq<Entry>, targets: seq<Resource>)
    requires Combined(es) && AllUnreserved(es) && es != [] && forall i :: 0 <= i < |targets| ==> Within(Wanted(targets[i]), es)
    ensures SearchAll(es, targets) == Some(WantedAll(targets))
  {
    hide Within, Combined, AllUnreserved, Search;
    if targets != [] {
      AllWantedFound(es, targets[..|targets| - 1]);
      WantedFound(es, targets[|targets| - 1]);
    }
  }

  // ----- the exact condition

  lemma WantedAllLast(targets: seq<Resource>, a: Atom)
    requires targets != [] && !a.MemberOf?
    ensures Held(WantedAll(targets), a) == Held(WantedAll(targets[..|targets| - 1]), a) + Held(Wanted(targets[|targets| - 1]), a)
  {
    hide Wanted, Combined;
    WantedCombined(targets);
    WantedCombined(targets[..|targets| - 1]);
    AddAllRefines(WantedAll(targets[..|targets| - 1]), Wanted(targets[|targets| - 1]));
  }

  /** Together targets ask for at least as much as each, and for more than each when two ask for the same. */
  lemma {:induction false} TogetherMore(targets: seq<Resource>, a: Atom)
    requires !a.MemberOf?
    ensures Held(WantedAll(targets), a) >= Largest(targets, a) >= 0
    ensures (exists i, j :: 0 <= i < j < |targets| && Held(Wanted(targets[i]), a) > 0 && Held(Wanted(targets[j]), a) > 0)
        ==> Held(WantedAll(targets), a) > Largest(targets, a)
  {
    if targets != [] {
      var n := |targets| - 1;
      TogetherMore(targets[..n], a);
      HeldWanted(targets[n], a);
      WantedAllLast(targets, a);
      hide Wanted, WantedAll;
      if i, j :| 0 <= i < j < |targets| && Held(Wanted(targets[i]), a) > 0 && Held(Wanted(targets[j]), a) > 0 {
        LargestHolds(targets[..n], i, a);
        if j < n {
          assert targets[..n][i] == targets[i] && targets[..n][j] == targets[j];
        }
      }
    }
  }

  /** Rivals are found in the same place when there is just enough for each of them. */
  lemma RivalsFoundTwice(targets: seq<Resource>, i: nat, j: nat)
    requires i < j < |targets| && Rivals(targets[i], targets[j])
    ensures var es := Cover(targets);
      Combined(es) && SearchAll(es, targets) == Some(WantedAll(targets)) && !Within(WantedAll(targets), es)
  {
    hide Rivals, Wanted, Combined;
    var es := Cover(targets);
    var a := SharedAtom(targets[i], targets[j]);
    CoverHolds(targets);
    CoverUnreserved(targets);
    LargestHolds(targets, i, a);
    assert es != [];
    forall k | 0 <= k < |targets| ensures Within(Wanted(targets[k]), es) {
      forall a ensures Held(Wanted(targets[k]), a) <= Held(es, a) { LargestHolds(targets, k, a); }
    }
    AllWantedFound(es, targets);
    TogetherMore(targets, a);
  }

  /** Whatever is found is held. */
  ghost predicate FoundIsHeld(es: seq<Entry>, targets: seq<Resource>) {
    SearchAll(es, targets).Some? ==> Within(SearchAll(es, targets).value, es)
  }

  /** What is found is held, in every collection, exactly when no two targets are rivals. */
  lemma AlwaysHeldIff(targets: seq<Resource>)
    ensures (forall es :: Combined(es) ==> FoundIsHeld(es, targets)) <==> NoRivals(targets)
  {
    hide Rivals, Combined, Within;
    if NoRivals(targets) {
      forall es | Combined(es) ensures FoundIsHeld(es, targets) {
        if SearchAll(es, targets).Some? {
          SearchAllHeld(es, targets);
        }
      }
    } else {
      var i, j :| 0 <= i < j < |targets| && Rivals(targets[i], targets[j]);
      RivalsFoundTwice(targets, i, j);
      assert !FoundIsHeld(Cover(targets), targets);
    }
  }

  lemma CpusWithin(amount: nat, enough: nat)
    requires amount <= enough
    ensures Within([Single(Cpus(amount))], [Single(Cpus(enough))])
  {
    forall a ensures Held([Single(Cpus(amount))], a) <= Held([Single(Cpus(enough))], a) {
      HeldSingle(Single(Cpus(amount)), a);
      HeldSingle(Single(Cpus(enough)), a);
    }
  }

  function CpusFor(role: string, amount: nat): Resource {
    WithReservations(Cpus(amount), [Reservation(Dynamic, role, None, None)])
  }

  /** The same five CPUs are found for three of them and for four that may be reserved. */
  lemma FoundTwice(role: string)
    ensures Combined([Single(Cpus(5000))]) && Combined([Single(Cpus(3000)), Single(CpusFor(role, 4000))])
    ensures var es, targets := [Single(Cpus(5000))], [Cpus(3000), CpusFor(role, 4000)];
      SearchAll(es, targets) == Some(WantedAll(targets)) && !Within(WantedAll(targets), es)
  {
    hide Within, Wanted, Search, AllUnreserved, Combined, Cpus, CpusFor;
    CpusCombined(role);
    WantedCpus(role, 3000);
    WantedCpus(role, 4000);
    CpusWithin(3000, 5000);
    CpusWithin(4000, 5000);
    AllWantedFound([Single(Cpus(5000))], [Cpus(3000), CpusFor(role, 4000)]);
    TooMuch(Cpus(3000), CpusFor(role, 4000));
  }

  lemma CpusCombined(role: string)
    ensures Combined([Single(Cpus(5000))]) && AllUnreserved([Single(Cpus(5000))])
    ensures Combined([Single(Cpus(3000)), Single(CpusFor(role, 4000))])
  {
  }

  lemma TooMuch(t: Resource, u: Resource)
    requires Wanted(t) == [Single(Cpus(3000))] && Wanted(u) == [Single(Cpus(4000))]
    ensures !Within(WantedAll([t, u]), [Single(Cpus(5000))])
  {
    hide Wanted, WantedAll;
    var a := AmountOf(Cpus(0).meta);
    HeldSingle(Single(Cpus(3000)), a);
    HeldSingle(Single(Cpus(4000)), a);
    HeldSingle(Single(Cpus(5000)), a);
    SevenWanted([t, u], a);
  }

  lemma WantedCpus(role: string, amount: nat)
    requires amount > 0
    ensures Wanted(Cpus(amount)) == Wanted(CpusFor(role, amount)) == [Single(Cpus(amount))]
    ensures Weight(Single(Cpus(amount)), AmountOf(Cpus(0).meta)) == amount
  {
  }

  lemma SevenWanted(targets: seq<Resource>, a: Atom)
    requires |targets| == 2 && !a.MemberOf? && Held(Wanted(targets[0]), a) == 3000 && Held(Wanted(targets[1]), a) == 4000
    ensures Held(WantedAll(targets), a) == 7000
  {
    WantedAllLast(targets, a);
    WantedAllLast(targets[..1], a);
    assert targets[..1][..0] == [];
  }
}
