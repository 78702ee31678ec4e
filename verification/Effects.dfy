/**
What each offer operation leaves: what it takes out of the resources and what it puts in, atom by
atom, and when it succeeds.
*/
module Effects {
  import opened Options
  import opened ResourceModel
  import opened ResourceLaws
  import opened Conversions
  import opened Disks
  import opened Finding
  import opened Operations

  // ----- lists of resources

  /** Empty and invalid resources are ignored. */
  predicate Counts(r: Resource) {
    Valid(r) && !IsEmptyValue(r.value)
  }

  /** What the resources of a list are together. */
  function Listed(rs: seq<Resource>, a: Atom): int {
    if rs == [] then 0
    else
      var r := rs[|rs| - 1];
      Merge(a, Listed(rs[..|rs| - 1], a), if Counts(r) then Weight(Single(r), a) else 0)
  }

  lemma {:induction false} FromListHolds(rs: seq<Resource>, a: Atom)
    ensures Held(FromList(rs), a) == Listed(rs, a) >= 0
  {
    FromListCombined(rs);
    HeldByCombined(FromList(rs), a);
    if rs != [] {
      var n := |rs| - 1;
      FromListHolds(rs[..n], a);
      FromListCombined(rs[..n]);
      hide Combined;
      if Counts(rs[n]) {
        AddRefines(FromList(rs[..n]), Single(rs[n]));
      }
    }
  }

  lemma ListedOne(r: Resource, a: Atom)
    ensures Listed([r], a) == if Counts(r) then Weight(Single(r), a) else 0
  {
    assert [r][..0] == [];
    if Counts(r) {
      WeightNonNegative(Single(r), a);
    }
  }

  /** The resource under its last reservation. */
  function WithoutLast(r: Resource): Resource {
    var rs := r.meta.reservations;
    if rs == [] then r else r.(meta := r.meta.(reservations := rs[..|rs| - 1]))
  }

  function WithoutLasts(rs: seq<Resource>): seq<Resource> {
    seq(|rs|, i requires 0 <= i < |rs| => WithoutLast(rs[i]))
  }

  lemma {:induction false} PoppedHolds(rs: seq<Resource>, a: Atom)
    ensures Held(Restack(FromList(rs), Pop), a) == Listed(WithoutLasts(rs), a)
  {
    if rs != [] {
      var n := |rs| - 1;
      assert WithoutLasts(rs)[..n] == WithoutLasts(rs[..n]);
      PoppedHolds(rs[..n], a);
      FromListCombined(rs[..n]);
      RestackCombined(FromList(rs[..n]), Pop);
      HeldByCombined(Restack(FromList(rs[..n]), Pop), a);
      hide Combined, Restack;
      assert Restacked(Single(rs[n]), Pop) == Single(WithoutLast(rs[n])) && Counts(WithoutLast(rs[n])) == Counts(rs[n]);
      if Counts(rs[n]) {
        RestackAdds(FromList(rs[..n]), Single(rs[n]), Pop, a);
      }
    }
  }

  // ----- exchanges

  ghost predicate Has(es: seq<Entry>, taken: seq<Resource>) {
    forall a :: Listed(taken, a) <= Held(es, a)
  }

  ghost predicate Exchanges(es: seq<Entry>, taken: seq<Resource>, given: seq<Resource>, out: seq<Entry>) {
    Combined(out) && forall a :: Held(out, a) == Merge(a, Held(es, a) - Listed(taken, a), Listed(given, a))
  }

  /** Succeeds exactly when all that is taken is there, and then gives the others for it. */
  ghost predicate Trades(es: seq<Entry>, taken: seq<Resource>, given: seq<Resource>, result: Option<seq<Entry>>) {
    && (result.Some? <==> Has(es, taken))
    && (result.Some? ==> Exchanges(es, taken, given, result.value))
  }

  ghost predicate Holds(es: seq<Entry>, rs: seq<Resource>) {
    Combined(es) && forall a :: Held(es, a) == Listed(rs, a)
  }

  lemma ListHolds(rs: seq<Resource>)
    ensures Holds(FromList(rs), rs)
  {
    FromListCombined(rs);
    forall a ensures Held(FromList(rs), a) == Listed(rs, a) { FromListHolds(rs, a); }
  }

  lemma PoppedListHolds(rs: seq<Resource>)
    ensures Holds(Restack(FromList(rs), Pop), WithoutLasts(rs))
  {
    FromListCombined(rs);
    RestackCombined(FromList(rs), Pop);
    forall a ensures Held(Restack(FromList(rs), Pop), a) == Listed(WithoutLasts(rs), a) { PoppedHolds(rs, a); }
  }

  lemma ExchangedAtom(es: seq<Entry>, c: Conversion, taken: seq<Resource>, given: seq<Resource>, a: Atom)
    requires Combined(es) && Holds(c.consumed, taken) && Holds(c.converted, given) && Listed(taken, a) <= Held(es, a)
    ensures Held(AddAll(SubtractAll(es, c.consumed), c.converted), a) == Merge(a, Held(es, a) - Listed(taken, a), Listed(given, a))
  {
    hide Combined, Listed, Held, AddAll, SubtractAll;
    SubtractAllRefines(es, c.consumed);
    AddAllRefines(SubtractAll(es, c.consumed), c.converted);
  }

  lemma ExchangeMade(es: seq<Entry>, c: Conversion, taken: seq<Resource>, given: seq<Resource>)
    requires Combined(es) && Holds(c.consumed, taken) && Holds(c.converted, given) && Has(es, taken)
    ensures Exchanges(es, taken, given, AddAll(SubtractAll(es, c.consumed), c.converted))
  {
    var out := AddAll(SubtractAll(es, c.consumed), c.converted);
    assert Combined(out) by {
      hide Combined, Listed, Held;
      SubtractAllRefines(es, c.consumed);
      AddAllRefines(SubtractAll(es, c.consumed), c.converted);
    }
    hide Combined, Listed, Held, Holds, AddAll, SubtractAll;
    forall a ensures Held(out, a) == Merge(a, Held(es, a) - Listed(taken, a), Listed(given, a)) {
      ExchangedAtom(es, c, taken, given, a);
    }
  }

  lemma ConversionTrades(es: seq<Entry>, c: Conversion, taken: seq<Resource>, given: seq<Resource>)
    requires Combined(es) && Holds(c.consumed, taken) && Holds(c.converted, given) && Countable(c.consumed)
    ensures c.vanished.None? ==> Trades(es, taken, given, ApplyConversion(es, c))
    ensures Contains(es, c.consumed) <==> Has(es, taken)
    ensures Has(es, taken) ==> Exchanges(es, taken, given, AddAll(SubtractAll(es, c.consumed), c.converted))
  {
    hide Combined, Countable, Listed, Held, Exchanges, Contains, AddAll, SubtractAll;
    SubtractThenAdd(es, c.consumed);
    assert Within(c.consumed, es) <==> Has(es, taken);
    hide Holds, Has, Within;
    if Has(es, taken) {
      ExchangeMade(es, c, taken, given);
    }
  }

  lemma OneCounts(r: Resource)
    ensures Holds(FromList([r]), [r]) && Countable(FromList([r]))
  {
    ListHolds([r]);
    forall a ensures Uncounted(a) ==> Held(FromList([r]), a) <= 1 {
      ListedOne(r, a);
    }
  }

  // ----- volumes and the space that they are made of

  /** The same resource, not shared, without the volume: its disk keeps the source, and is no disk of its own without one. */
  predicate SpaceOf(space: Resource, v: Resource) {
    && space == v.(shared := false, meta := v.meta.(disk := space.meta.disk))
    && match v.meta.disk
       case Some(Disk(Some(source), _)) => space.meta.disk == Some(Disk(Some(source), None))
       case _ => space.meta.disk == None
  }

  predicate AreSpaces(spaces: seq<Resource>, volumes: seq<Resource>) {
    |spaces| == |volumes| && forall i :: 0 <= i < |volumes| ==> SpaceOf(spaces[i], volumes[i])
  }

  ghost predicate AllVolumes(volumes: seq<Resource>) {
    forall i :: 0 <= i < |volumes| ==> IsVolume(volumes[i])
  }

  lemma SpaceIsStrip(space: Resource, v: Resource)
    ensures SpaceOf(space, v) <==> space == Strip(v)
  {
  }

  /** The atom of which a volume is one. */
  function Whole(v: Resource): Atom {
    if v.shared then CopiesOf(v) else UnitsOf(v)
  }

  /** A volume is one of its atom and nothing else. */
  lemma VolumeAtoms(v: Resource, a: Atom)
    requires IsVolume(v)
    ensures Listed([v], a) == if a == Whole(v) then 1 else 0
  {
    ListedOne(v, a);
  }

  /** The space is one disk where disks are used whole, and otherwise an amount. */
  lemma SpaceAtoms(space: Resource, v: Resource, a: Atom)
    requires IsVolume(v) && SpaceOf(space, v)
    ensures Listed([space], a) ==
      if UsedWhole(space.meta.disk) then (if a == UnitsOf(space) then 1 else 0)
      else if a == AmountOf(space.meta) then v.value.amount else 0
  {
    ListedOne(space, a);
    UsedWholeIff(space.meta);
  }

  /** No volume is space for another. */
  lemma SpaceApart(space: Resource, v: Resource, w: Resource, a: Atom)
    requires IsVolume(v) && IsVolume(w) && SpaceOf(space, v)
    ensures Listed([space], a) == 0 || Listed([w], a) == 0
    ensures Listed([space], a) >= 0 && Listed([w], a) >= 0 && (a.MemberOf? ==> Listed([space], a) == Listed([w], a) == 0)
  {
    VolumeAtoms(w, a);
    SpaceAtoms(space, v, a);
  }

  lemma ListedNext(rs: seq<Resource>, n: nat, a: Atom)
    requires n < |rs|
    ensures Listed(rs[..n + 1], a) == Merge(a, Listed(rs[..n], a), Listed([rs[n]], a))
  {
    assert rs[..n + 1][..n] == rs[..n];
    ListedOne(rs[n], a);
  }

  lemma ListedNonNegative(rs: seq<Resource>, a: Atom)
    ensures Listed(rs, a) >= 0
  {
    FromListHolds(rs, a);
  }

  /** Nor is any of several volumes space for one more, or the other way round. */
  lemma {:induction false} SpacesApart(spaces: seq<Resource>, volumes: seq<Resource>, n: nat, space: Resource, v: Resource, a: Atom)
    requires AreSpaces(spaces, volumes) && n <= |volumes| && AllVolumes(volumes) && IsVolume(v) && SpaceOf(space, v)
    ensures Listed(spaces[..n], a) >= 0 && Listed(volumes[..n], a) >= 0
    ensures Listed([v], a) > 0 ==> Listed(spaces[..n], a) == 0
    ensures Listed([space], a) > 0 ==> Listed(volumes[..n], a) == 0
    ensures a.MemberOf? ==> Listed(spaces[..n], a) == Listed(volumes[..n], a) == 0
    decreases n
  {
    hide IsVolume, SpaceOf;
    if n == 0 {
      assert spaces[..0] == [] && volumes[..0] == [];
    } else {
      hide Listed;
      SpacesApart(spaces, volumes, n - 1, space, v, a);
      ListedNext(spaces, n - 1, a);
      ListedNext(volumes, n - 1, a);
      SpaceApart(spaces[n - 1], volumes[n - 1], v, a);
      SpaceApart(space, v, volumes[n - 1], a);
    }
  }

  // ----- one step after another

  lemma FirstSteps(es: seq<Entry>, op: Operation)
    requires WellTyped(op)
    ensures ApplySteps(es, op, 0) == Some(es)
    ensures Steps(op) == 1 ==> ApplySteps(es, op, 1) == ApplyConversion(es, ConversionOf(op, 0))
  {
    assert ApplySteps(es, op, 0) == Some(es);
  }

  lemma NextStep(es: seq<Entry>, op: Operation, n: nat)
    requires WellTyped(op) && n < Steps(op)
    ensures ApplySteps(es, op, n + 1) ==
      var before := ApplySteps(es, op, n);
      if before.None? then None else ApplyConversion(before.value, ConversionOf(op, n))
  {
  }

  // ----- CREATE

  lemma Nothing(es: seq<Entry>, taken: seq<Resource>, given: seq<Resource>)
    requires Combined(es) && taken == given == []
    ensures Trades(es, taken, given, Some(es))
  {
    forall a ensures Held(es, a) >= 0 { HeldByCombined(es, a); }
  }

  lemma ListedGrows(rs: seq<Resource>, n: nat, es: seq<Entry>)
    requires n < |rs| && Has(es, rs[..n + 1])
    ensures Has(es, rs[..n])
  {
    forall a ensures Listed(rs[..n], a) <= Held(es, a) {
      ListedNext(rs, n, a);
      ListedNonNegative([rs[n]], a);
    }
  }

  /** What one more volume needs is there exactly when it is there besides what the others need. */
  lemma CreateAtom(es: seq<Entry>, mid: seq<Entry>, volumes: seq<Resource>, spaces: seq<Resource>, n: nat, a: Atom)
    requires AreSpaces(spaces, volumes) && n < |volumes| && AllVolumes(volumes)
    requires Exchanges(es, spaces[..n], volumes[..n], mid) && Has(es, spaces[..n])
    ensures Listed([spaces[n]], a) <= Held(mid, a) <==> Listed(spaces[..n + 1], a) <= Held(es, a)
    ensures Merge(a, Held(mid, a) - Listed([spaces[n]], a), Listed([volumes[n]], a))
         == Merge(a, Held(es, a) - Listed(spaces[..n + 1], a), Listed(volumes[..n + 1], a))
  {
    hide IsVolume, SpaceOf, Listed, Combined;
    ListedNext(spaces, n, a);
    ListedNext(volumes, n, a);
    SpacesApart(spaces, volumes, n, spaces[n], volumes[n], a);
    SpaceApart(spaces[n], volumes[n], volumes[n], a);
    assert Held(mid, a) == Merge(a, Held(es, a) - Listed(spaces[..n], a), Listed(volumes[..n], a));
    assert Listed(spaces[..n], a) <= Held(es, a);
  }

  lemma CreateOne(mid: seq<Entry>, volumes: seq<Resource>, space: Resource, n: nat)
    requires Combined(mid) && n < |volumes| && SpaceOf(space, volumes[n])
    ensures Trades(mid, [space], [volumes[n]], ApplyConversion(mid, ConversionOf(CreateVolumes(volumes), n)))
  {
    hide Listed, Combined, ApplyConversion, Contains, FromList;
    SpaceIsStrip(space, volumes[n]);
    hide Strip, SpaceOf, Trades;
    OneCounts(space);
    OneCounts(volumes[n]);
    ConversionTrades(mid, ConversionOf(CreateVolumes(volumes), n), [space], [volumes[n]]);
  }

  lemma CreateNext(es: seq<Entry>, mid: seq<Entry>, volumes: seq<Resource>, spaces: seq<Resource>, n: nat, result: Option<seq<Entry>>)
    requires AreSpaces(spaces, volumes) && n < |volumes| && AllVolumes(volumes)
    requires Exchanges(es, spaces[..n], volumes[..n], mid) && Has(es, spaces[..n])
    requires Trades(mid, [spaces[n]], [volumes[n]], result)
    ensures Trades(es, spaces[..n + 1], volumes[..n + 1], result)
  {
    hide Listed, Combined, SpaceOf, IsVolume;
    forall a ensures Listed([spaces[n]], a) <= Held(mid, a) <==> Listed(spaces[..n + 1], a) <= Held(es, a)
      ensures Merge(a, Held(mid, a) - Listed([spaces[n]], a), Listed([volumes[n]], a))
           == Merge(a, Held(es, a) - Listed(spaces[..n + 1], a), Listed(volumes[..n + 1], a))
    {
      CreateAtom(es, mid, volumes, spaces, n, a);
    }
  }

  lemma {:induction false} CreateSteps(es: seq<Entry>, volumes: seq<Resource>, spaces: seq<Resource>, n: nat)
    requires Combined(es) && AreSpaces(spaces, volumes) && AllVolumes(volumes) && n <= |volumes|
    ensures Trades(es, spaces[..n], volumes[..n], ApplySteps(es, CreateVolumes(volumes), n))
    decreases n
  {
    hide Listed, Combined, ApplySteps, ApplyConversion, ConversionOf, Exchanges, Has;
    var op := CreateVolumes(volumes);
    if n == 0 {
      FirstSteps(es, op);
      Nothing(es, spaces[..0], volumes[..0]);
    } else {
      CreateSteps(es, volumes, spaces, n - 1);
      NextStep(es, op, n - 1);
      var before := ApplySteps(es, op, n - 1);
      if before.None? {
        if Has(es, spaces[..n]) {
          ListedGrows(spaces, n - 1, es);
        }
      } else {
        assert Combined(before.value) by { ExchangedCombined(es, spaces[..n - 1], volumes[..n - 1], before.value); }
        CreateOne(before.value, volumes, spaces[n - 1], n - 1);
        CreateNext(es, before.value, volumes, spaces, n - 1, ApplySteps(es, op, n));
      }
    }
  }

  lemma ExchangedCombined(es: seq<Entry>, taken: seq<Resource>, given: seq<Resource>, out: seq<Entry>)
    requires Exchanges(es, taken, given, out)
    ensures Combined(out)
  {
  }

  // ----- DESTROY

  /** Each volume is there in one copy and asked for once. */
  ghost predicate OnceEach(es: seq<Entry>, volumes: seq<Resource>) {
    && (forall i, j :: 0 <= i < j < |volumes| ==> volumes[i] != volumes[j])
    && (forall i :: 0 <= i < |volumes| ==> Held(es, Whole(volumes[i])) == 1)
  }

  lemma {:induction false} ListedOnce(volumes: seq<Resource>, v: Resource)
    requires AllVolumes(volumes) && forall i, j :: 0 <= i < j < |volumes| ==> volumes[i] != volumes[j]
    ensures Listed(volumes, Whole(v)) == if v in volumes then 1 else 0
  {
    if volumes != [] {
      var n := |volumes| - 1;
      ListedOnce(volumes[..n], v);
      VolumeAtoms(volumes[n], Whole(v));
      ListedOne(volumes[n], Whole(v));
      assert volumes == volumes[..n] + [volumes[n]];
      assert Whole(v) == Whole(volumes[n]) <==> v == volumes[n];
    }
  }

  lemma WholeIff(es: seq<Entry>, v: Resource)
    requires Combined(es) && IsVolume(v)
    ensures ContainsEntry(es, Single(v)) <==> Held(es, Whole(v)) >= 1
    ensures Has(es, [v]) <==> Held(es, Whole(v)) >= 1
  {
    ContainsEntryIff(es, Single(v));
    hide Combined;
    forall a ensures Listed([v], a) == Weight(Single(v), a) == (if a == Whole(v) then 1 else 0) && Held(es, a) >= 0 {
      VolumeAtoms(v, a);
      ListedOne(v, a);
      HeldByCombined(es, a);
    }
  }

  lemma DestroyOne(mid: seq<Entry>, v: Resource, space: Resource, c: Conversion)
    requires Combined(mid) && IsVolume(v) && SpaceOf(space, v)
    requires c == Conversion(FromList([v]), FromList([space]), Some(v))
    ensures ApplyConversion(mid, c).Some? <==> Held(mid, Whole(v)) == 1
    ensures ApplyConversion(mid, c).Some? ==> Exchanges(mid, [v], [space], ApplyConversion(mid, c).value)
  {
    hide Combined, Contains, ContainsEntry, Listed, IsVolume, SpaceOf;
    OneCounts(v);
    OneCounts(space);
    ConversionTrades(mid, c, [v], [space]);
    WholeIff(mid, v);
    if Has(mid, [v]) {
      var out := AddAll(SubtractAll(mid, c.consumed), c.converted);
      WholeIff(out, v);
      VolumeAtoms(v, Whole(v));
      SpaceApart(space, v, v, Whole(v));
      assert Held(out, Whole(v)) == Merge(Whole(v), Held(mid, Whole(v)) - Listed([v], Whole(v)), Listed([space], Whole(v)));
    }
  }

  lemma DestroyAtom(es: seq<Entry>, mid: seq<Entry>, volumes: seq<Resource>, spaces: seq<Resource>, n: nat, a: Atom)
    requires AreSpaces(spaces, volumes) && n < |volumes| && AllVolumes(volumes)
    requires Exchanges(es, volumes[..n], spaces[..n], mid)
    ensures Merge(a, Held(mid, a) - Listed([volumes[n]], a), Listed([spaces[n]], a))
         == Merge(a, Held(es, a) - Listed(volumes[..n + 1], a), Listed(spaces[..n + 1], a))
  {
    hide IsVolume, SpaceOf, Listed, Combined;
    ListedNext(spaces, n, a);
    ListedNext(volumes, n, a);
    SpacesApart(spaces, volumes, n, spaces[n], volumes[n], a);
    SpaceApart(spaces[n], volumes[n], volumes[n], a);
    assert Held(mid, a) == Merge(a, Held(es, a) - Listed(volumes[..n], a), Listed(spaces[..n], a));
  }

  lemma DestroyNext(es: seq<Entry>, mid: seq<Entry>, volumes: seq<Resource>, spaces: seq<Resource>, n: nat)
    requires AreSpaces(spaces, volumes) && n < |volumes| && AllVolumes(volumes)
    requires Exchanges(es, volumes[..n], spaces[..n], mid) && OnceEach(es, volumes[..n])
    ensures Held(mid, Whole(volumes[n])) == 1 <==> OnceEach(es, volumes[..n + 1])
  {
    hide IsVolume, SpaceOf, Listed, Combined;
    var v := volumes[n];
    var a := Whole(v);
    ListedOnce(volumes[..n], v);
    SpacesApart(spaces, volumes, n, spaces[n], volumes[n], a);
    VolumeAtoms(v, a);
    assert Held(mid, a) == Merge(a, Held(es, a) - Listed(volumes[..n], a), Listed(spaces[..n], a));
    assert volumes[..n + 1] == volumes[..n] + [v];
    if v in volumes[..n] {
      var i :| 0 <= i < n && volumes[..n][i] == v;
      assert volumes[..n + 1][i] == volumes[..n + 1][n];
    }
  }

  lemma DestroyBoth(es: seq<Entry>, mid: seq<Entry>, volumes: seq<Resource>, spaces: seq<Resource>, n: nat, out: seq<Entry>)
    requires AreSpaces(spaces, volumes) && n < |volumes| && AllVolumes(volumes)
    requires Exchanges(es, volumes[..n], spaces[..n], mid) && Exchanges(mid, [volumes[n]], [spaces[n]], out)
    ensures Exchanges(es, volumes[..n + 1], spaces[..n + 1], out)
  {
    hide Listed, Combined, SpaceOf, IsVolume;
    forall a ensures Held(out, a) == Merge(a, Held(es, a) - Listed(volumes[..n + 1], a), Listed(spaces[..n + 1], a)) {
      DestroyAtom(es, mid, volumes, spaces, n, a);
    }
  }

  lemma {:induction false} DestroySteps(es: seq<Entry>, volumes: seq<Resource>, spaces: seq<Resource>, n: nat)
    requires Combined(es) && AreSpaces(spaces, volumes) && AllVolumes(volumes) && n <= |volumes|
    ensures var result := ApplySteps(es, DestroyVolumes(volumes), n);
      && (result.Some? <==> OnceEach(es, volumes[..n]))
      && (result.Some? ==> Exchanges(es, volumes[..n], spaces[..n], result.value))
    decreases n
  {
    var op := DestroyVolumes(volumes);
    FirstSteps(es, op);
    if n == 0 {
      Nothing(es, volumes[..0], spaces[..0]);
    } else {
      hide Listed, Combined, ApplySteps, ApplyConversion, Exchanges, OnceEach, FromList, Strip, SpaceOf, IsVolume;
      DestroySteps(es, volumes, spaces, n - 1);
      NextStep(es, op, n - 1);
      var before := ApplySteps(es, op, n - 1);
      if before.None? {
        if OnceEach(es, volumes[..n]) {
          OnceFront(es, volumes, n - 1);
        }
      } else {
        ExchangedCombined(es, volumes[..n - 1], spaces[..n - 1], before.value);
        SpaceIsStrip(spaces[n - 1], volumes[n - 1]);
        DestroyOne(before.value, volumes[n - 1], spaces[n - 1], ConversionOf(op, n - 1));
        DestroyNext(es, before.value, volumes, spaces, n - 1);
        if ApplySteps(es, op, n).Some? {
          DestroyBoth(es, before.value, volumes, spaces, n - 1, ApplySteps(es, op, n).value);
        }
      }
    }
  }

  lemma OnceFront(es: seq<Entry>, volumes: seq<Resource>, n: nat)
    requires n < |volumes| && OnceEach(es, volumes[..n + 1])
    ensures OnceEach(es, volumes[..n])
  {
    var front, longer := volumes[..n], volumes[..n + 1];
    forall i, j | 0 <= i < j < n ensures front[i] != front[j] { assert longer[i] != longer[j]; }
    forall i | 0 <= i < n ensures Held(es, Whole(front[i])) == 1 { assert Held(es, Whole(longer[i])) == 1; }
  }

  // ----- UNRESERVE

  /** What is held after the first of the resources have lost a reservation, one after the other. */
  function Unstacked(es: seq<Entry>, rs: seq<Resource>, n: nat, a: Atom): int
    requires n <= |rs|
  {
    if n == 0 then Held(es, a)
    else Merge(a, Unstacked(es, rs, n - 1, a) - Listed([rs[n - 1]], a), Listed([WithoutLast(rs[n - 1])], a))
  }

  ghost predicate HasNext(es: seq<Entry>, rs: seq<Resource>, n: nat)
    requires n < |rs|
  {
    forall a :: Listed([rs[n]], a) <= Unstacked(es, rs, n, a)
  }

  /** Each resource is there when it is its turn. */
  ghost predicate InTurn(es: seq<Entry>, rs: seq<Resource>, n: nat)
    requires n <= |rs|
  {
    forall i :: 0 <= i < n ==> HasNext(es, rs, i)
  }

  ghost predicate AreUnstacked(es: seq<Entry>, rs: seq<Resource>, n: nat, out: seq<Entry>)
    requires n <= |rs|
  {
    Combined(out) && forall a :: Held(out, a) == Unstacked(es, rs, n, a)
  }

  lemma UnreserveOne(mid: seq<Entry>, rs: seq<Resource>, n: nat)
    requires Combined(mid) && n < |rs|
    ensures Trades(mid, [rs[n]], [WithoutLast(rs[n])], ApplyConversion(mid, ConversionOf(Operation.Unreserve(rs), n)))
  {
    hide Listed, Combined, ApplyConversion, Contains, FromList, Restack, Trades;
    var r := rs[n];
    OneCounts(r);
    PoppedListHolds([r]);
    assert WithoutLasts([r]) == [WithoutLast(r)];
    ConversionTrades(mid, ConversionOf(Operation.Unreserve(rs), n), [r], [WithoutLast(r)]);
  }

  lemma UnstackedNext(es: seq<Entry>, rs: seq<Resource>, n: nat, mid: seq<Entry>, result: Option<seq<Entry>>)
    requires n < |rs| && AreUnstacked(es, rs, n, mid) && Trades(mid, [rs[n]], [WithoutLast(rs[n])], result)
    ensures result.Some? <==> HasNext(es, rs, n)
    ensures result.Some? ==> AreUnstacked(es, rs, n + 1, result.value)
  {
    hide Listed, Combined;
    if HasNext(es, rs, n) {
      forall a ensures Listed([rs[n]], a) <= Held(mid, a) {
        assert Listed([rs[n]], a) <= Unstacked(es, rs, n, a);
      }
    }
  }

  lemma TurnNext(es: seq<Entry>, rs: seq<Resource>, n: nat)
    requires n < |rs|
    ensures InTurn(es, rs, n + 1) <==> InTurn(es, rs, n) && HasNext(es, rs, n)
  {
    hide HasNext;
  }

  lemma UnstackedCombined(es: seq<Entry>, rs: seq<Resource>, n: nat, out: seq<Entry>)
    requires n <= |rs| && AreUnstacked(es, rs, n, out)
    ensures Combined(out)
  {
  }

  lemma NoneUnstacked(es: seq<Entry>, rs: seq<Resource>)
    requires Combined(es)
    ensures InTurn(es, rs, 0) && AreUnstacked(es, rs, 0, es)
  {
    hide Combined;
  }

  lemma {:induction false} UnreserveSteps(es: seq<Entry>, rs: seq<Resource>, n: nat)
    requires Combined(es) && n <= |rs|
    ensures var result := ApplySteps(es, Operation.Unreserve(rs), n);
      && (result.Some? <==> InTurn(es, rs, n))
      && (result.Some? ==> AreUnstacked(es, rs, n, result.value))
    decreases n
  {
    hide Combined, ApplySteps, ApplyConversion, ConversionOf, HasNext, InTurn, Trades, Unstacked, AreUnstacked, WithoutLast;
    var op := Operation.Unreserve(rs);
    if n == 0 {
      FirstSteps(es, op);
      NoneUnstacked(es, rs);
    } else {
      UnreserveSteps(es, rs, n - 1);
      NextStep(es, op, n - 1);
      TurnNext(es, rs, n - 1);
      var before := ApplySteps(es, op, n - 1);
      if before.Some? {
        UnstackedCombined(es, rs, n - 1, before.value);
        UnreserveOne(before.value, rs, n - 1);
        UnstackedNext(es, rs, n - 1, before.value, ApplySteps(es, op, n));
      }
    }
  }

  // ----- the others, in one step

  lemma ReserveTrades(es: seq<Entry>, resources: seq<Resource>, source: seq<Resource>)
    requires Combined(es) && Validated(Reserve(resources, source))
    ensures Trades(es, if source != [] then source else WithoutLasts(resources), resources, ApplySteps(es, Reserve(resources, source), 1))
  {
    hide Combined, ApplyConversion, Trades;
    var op := Reserve(resources, source);
    FirstSteps(es, op);
    ListHolds(resources);
    if source != [] {
      ListHolds(source);
      ConversionTrades(es, ConversionOf(op, 0), source, resources);
    } else {
      PoppedListHolds(resources);
      ConversionTrades(es, ConversionOf(op, 0), WithoutLasts(resources), resources);
    }
  }

  lemma GrowCounts(volume: Resource, addition: Resource)
    requires Validated(GrowVolume(volume, addition))
    ensures Countable(FromList([volume, addition]))
  {
    forall a | Uncounted(a) ensures Held(FromList([volume, addition]), a) <= 1 {
      FromListHolds([volume, addition], a);
      assert [volume, addition][..1] == [volume];
      ListedOne(volume, a);
    }
  }

  lemma GrowTrades(es: seq<Entry>, volume: Resource, addition: Resource)
    requires Combined(es) && WellTyped(GrowVolume(volume, addition)) && Validated(GrowVolume(volume, addition))
    ensures Trades(es, [volume, addition], [WithAmount(volume, volume.value.amount + addition.value.amount)], ApplySteps(es, GrowVolume(volume, addition), 1))
  {
    hide Combined, ApplySteps, ApplyConversion, Trades, Validated, Listed, FromList, Countable, Holds;
    var op := GrowVolume(volume, addition);
    GrowCounts(volume, addition);
    FirstSteps(es, op);
    ListHolds([volume, addition]);
    ListHolds([WithAmount(volume, volume.value.amount + addition.value.amount)]);
    ConversionTrades(es, ConversionOf(op, 0), [volume, addition], [WithAmount(volume, volume.value.amount + addition.value.amount)]);
  }

  lemma ShrinkConversion(volume: Resource, subtract: int, space: Resource)
    requires volume.value.Scalar? && SpaceOf(space, volume)
    ensures ConversionOf(ShrinkVolume(volume, subtract), 0) ==
      Conversion(FromList([volume]), FromList([WithAmount(volume, volume.value.amount - subtract), WithAmount(space, subtract)]), None)
  {
    hide FromList;
    assert Strip(WithAmount(volume, subtract)) == WithAmount(space, subtract) by {
      SpaceIsStrip(space, volume);
    }
  }

  lemma ShrinkTrades(es: seq<Entry>, volume: Resource, subtract: int, space: Resource)
    requires Combined(es) && volume.value.Scalar? && SpaceOf(space, volume)
    ensures Trades(es, [volume], [WithAmount(volume, volume.value.amount - subtract), WithAmount(space, subtract)], ApplySteps(es, ShrinkVolume(volume, subtract), 1))
  {
    hide Combined, ApplySteps, ApplyConversion, ConversionOf, Trades, Listed, FromList, SpaceOf, Countable, Holds, WithAmount;
    var op, given := ShrinkVolume(volume, subtract), [WithAmount(volume, volume.value.amount - subtract), WithAmount(space, subtract)];
    FirstSteps(es, op);
    ShrinkConversion(volume, subtract, space);
    OneCounts(volume);
    ListHolds(given);
    ConversionTrades(es, ConversionOf(op, 0), [volume], given);
  }

  // ----- whole operations

  /** When the operation succeeds, and what is held then. */
  ghost predicate Effect(es: seq<Entry>, op: Operation, result: Option<seq<Entry>>)
    requires WellTyped(op)
  {
    match op
    case Reserve(resources, source) =>
      Trades(es, if source != [] then source else WithoutLasts(resources), resources, result)
    case Unreserve(resources) =>
      && (result.Some? <==> InTurn(es, resources, |resources|))
      && (result.Some? ==> AreUnstacked(es, resources, |resources|, result.value))
    case CreateVolumes(volumes) =>
      forall spaces :: AreSpaces(spaces, volumes) ==> Trades(es, spaces, volumes, result)
    case DestroyVolumes(volumes) =>
      forall spaces :: AreSpaces(spaces, volumes) ==>
        && (result.Some? <==> OnceEach(es, volumes))
        && (result.Some? ==> Exchanges(es, volumes, spaces, result.value))
    case GrowVolume(volume, addition) =>
      Trades(es, [volume, addition], [WithAmount(volume, volume.value.amount + addition.value.amount)], result)
    case ShrinkVolume(volume, subtract) =>
      forall space :: SpaceOf(space, volume) ==>
        Trades(es, [volume], [WithAmount(volume, volume.value.amount - subtract), WithAmount(space, subtract)], result)
  }

  lemma {:induction false} OperationEffect(es: seq<Entry>, op: Operation)
    requires WellTyped(op) && Combined(es) && Validated(op)
    ensures Effect(es, op, ApplySteps(es, op, Steps(op)))
  {
    hide ApplySteps, Trades, Exchanges, OnceEach, InTurn, AreUnstacked, Combined, SpaceOf;
    match op
    case Reserve(resources, source) => ReserveTrades(es, resources, source);
    case Unreserve(resources) => UnreserveSteps(es, resources, |resources|);
    case CreateVolumes(volumes) =>
      forall spaces | AreSpaces(spaces, volumes) ensures Trades(es, spaces, volumes, ApplySteps(es, op, Steps(op))) {
        CreateSteps(es, volumes, spaces, |volumes|);
        assert spaces[..|volumes|] == spaces && volumes[..|volumes|] == volumes;
      }
    case DestroyVolumes(volumes) =>
      var result := ApplySteps(es, op, Steps(op));
      forall spaces | AreSpaces(spaces, volumes)
        ensures (result.Some? <==> OnceEach(es, volumes)) && (result.Some? ==> Exchanges(es, volumes, spaces, result.value))
      {
        DestroySteps(es, volumes, spaces, |volumes|);
        assert spaces[..|volumes|] == spaces && volumes[..|volumes|] == volumes;
      }
    case GrowVolume(volume, addition) => GrowTrades(es, volume, addition);
    case ShrinkVolume(volume, subtract) =>
      forall space | SpaceOf(space, volume)
        ensures Trades(es, [volume], [WithAmount(volume, volume.value.amount - subtract), WithAmount(space, subtract)], ApplySteps(es, op, Steps(op)))
      {
        ShrinkTrades(es, volume, subtract, space);
      }
  }

  /** One volume more or less, as much space less or more, and nothing else changes. */
  ghost predicate VolumeFor(es: seq<Entry>, v: Resource, space: Resource, out: seq<Entry>, more: int)
    requires v.value.Scalar?
  {
    && Held(out, Whole(v)) == Held(es, Whole(v)) + more
    && (if UsedWhole(space.meta.disk) then Held(out, UnitsOf(space)) == Held(es, UnitsOf(space)) - more
        else Held(out, AmountOf(space.meta)) == Held(es, AmountOf(space.meta)) - more * v.value.amount)
    && forall a :: a != Whole(v) && a != UnitsOf(space) && a != AmountOf(space.meta) ==> Held(out, a) == Held(es, a)
  }

  lemma OneVolume(es: seq<Entry>, v: Resource, space: Resource, out: seq<Entry>)
    requires Combined(es) && IsVolume(v) && SpaceOf(space, v)
    ensures Exchanges(es, [space], [v], out) ==> VolumeFor(es, v, space, out, 1)
    ensures Exchanges(es, [v], [space], out) ==> VolumeFor(es, v, space, out, -1)
  {
    UsedWholeIff(space.meta);
    forall a ensures Listed([v], a) == (if a == Whole(v) then 1 else 0) && Held(es, a) >= 0 {
      VolumeAtoms(v, a);
      HeldByCombined(es, a);
    }
    forall a ensures Listed([space], a) ==
      if UsedWhole(space.meta.disk) then (if a == UnitsOf(space) then 1 else 0)
      else if a == AmountOf(space.meta) then v.value.amount else 0
    {
      SpaceAtoms(space, v, a);
    }
    hide Listed, Held, Combined;
    assert UnitsOf(space) != Whole(v) && AmountOf(space.meta) != Whole(v) && UnitsOf(space) != AmountOf(space.meta);
  }

  /** Every volume has its space. */
  lemma SpacesExist(volumes: seq<Resource>) returns (spaces: seq<Resource>)
    ensures AreSpaces(spaces, volumes)
  {
    spaces := seq(|volumes|, i requires 0 <= i < |volumes| => Strip(volumes[i]));
    forall i | 0 <= i < |volumes| ensures SpaceOf(spaces[i], volumes[i]) {
      SpaceIsStrip(spaces[i], volumes[i]);
    }
  }

  /**
  Applies the conversions one after the other; the checks of the totals at the end cannot fail. All
  conversions are known before the first is applied, so a missing reservation aborts without effect.
  */
  method ApplyOperation(es: seq<Entry>, op: Operation) returns (aborted: bool, result: Option<seq<Entry>>)
    requires WellTyped(op)
    ensures aborted <==> LacksReservation(op)
    ensures result == if !aborted && Supported(op) then ApplySteps(es, op, Steps(op)) else None
    ensures Validated(op) ==> !aborted
    ensures ResizesProvided(op) ==> result.None?
    ensures Combined(es) && Validated(op) && !ResizesProvided(op) ==> Effect(es, op, result)
    ensures result.Some? && Combined(es) && Validated(op) && (op.CreateVolumes? ==> NewVolumes(es, op.volumes, 0)) ==>
      Combined(result.value) && SameTotals(result.value, es)
  {
    hide ConversionOf, ApplyConversion, Combined, SameTotals, Validated, NewVolumes, Effect;
    ValidatedPoppable(op);
    PoppableIff(op);
    if !Poppable(op) {
      return true, None;
    }
    if !Supported(op) {
      return false, None;
    }
    if Combined(es) && Validated(op) {
      OperationEffect(es, op);
    }
    var current := es;
    for i := 0 to Steps(op)
      invariant ApplySteps(es, op, i) == Some(current)
    {
      var converted := ApplyConversion(current, ConversionOf(op, i));
      if converted.None? {
        StepsFail(es, op, i + 1, Steps(op));
        return false, None;
      }
      current := converted.value;
    }
    if Combined(es) && Validated(op) && (op.CreateVolumes? ==> NewVolumes(es, op.volumes, 0)) {
      OperationConserves(es, op, Steps(op));
    }
    return false, Some(current);
  }

  /** A volume of a resource provider is to grow or shrink. */
  predicate ResizesProvided(op: Operation) {
    (op.GrowVolume? || op.ShrinkVolume?) && op.volume.meta.provider.Some?
  }

  /** A resource that is to lose a reservation has none. */
  predicate LacksReservation(op: Operation) {
    (op.Unreserve? || (op.Reserve? && op.source == [])) &&
    exists i :: 0 <= i < |op.resources| && Counts(op.resources[i]) && op.resources[i].meta.reservations == []
  }

  lemma ReservedFirst(e: Entry, rest: seq<Entry>)
    ensures AllReserved([e] + rest) <==> e.r.meta.reservations != [] && AllReserved(rest)
  {
    var es := [e] + rest;
    assert es[0] == e && forall k :: 0 <= k < |rest| ==> es[k + 1] == rest[k];
  }

  lemma {:induction false} AddToReserved(es: seq<Entry>, e: Entry)
    ensures AllReserved(AddTo(es, e)) <==> AllReserved(es) && e.r.meta.reservations != []
  {
    if es == [] {
      ReservedFirst(e, []);
      assert [e] + [] == [e];
    } else {
      AddToReserved(es[1..], e);
      assert es == [es[0]] + es[1..];
      ReservedFirst(es[0], es[1..]);
      ReservedFirst(es[0], AddTo(es[1..], e));
      if Addable(es[0].r, e.r) {
        ReservedFirst(EntryAdd(es[0], e), es[1..]);
      }
    }
  }

  lemma {:induction false} ListReserved(rs: seq<Resource>)
    ensures AllReserved(FromList(rs)) <==> forall i :: 0 <= i < |rs| && Counts(rs[i]) ==> rs[i].meta.reservations != []
  {
    if rs != [] {
      var n := |rs| - 1;
      ListReserved(rs[..n]);
      AddToReserved(FromList(rs[..n]), Single(rs[n]));
      assert forall i :: 0 <= i < n ==> rs[..n][i] == rs[i];
    }
  }

  lemma PoppableIff(op: Operation)
    ensures Poppable(op) <==> !LacksReservation(op)
  {
    hide FromList, AllReserved, Counts;
    match op
    case Reserve(resources, _) => ListReserved(resources);
    case Unreserve(resources) =>
      forall i | 0 <= i < |resources|
        ensures AllReserved(FromList([resources[i]])) <==> (Counts(resources[i]) ==> resources[i].meta.reservations != [])
      {
        ListReserved([resources[i]]);
        assert [resources[i]][0] == resources[i];
      }
    case _ =>
  }

  lemma ValidatedPoppable(op: Operation)
    ensures Validated(op) ==> Poppable(op)
  {
  }

  lemma {:induction false} StepsFail(es: seq<Entry>, op: Operation, m: nat, n: nat)
    requires m <= n <= Steps(op) && WellTyped(op) && ApplySteps(es, op, m).None?
    ensures ApplySteps(es, op, n).None?
    decreases n
  {
    hide ConversionOf, ApplyConversion;
    if m < n {
      StepsFail(es, op, m, n - 1);
    }
  }
}
