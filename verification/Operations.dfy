/**
The offer operations RESERVE, UNRESERVE, CREATE, DESTROY, GROW_VOLUME and SHRINK_VOLUME: each turns
into conversions, and none changes a total.
*/
module Operations {
  import opened Options
  import opened ResourceModel
  import opened ResourceLaws
  import opened Conversions

  /** `vanished` must no longer be contained in the result. */
  datatype Conversion = Conversion(consumed: seq<Entry>, converted: seq<Entry>, vanished: Option<Resource>)

  function ApplyConversion(es: seq<Entry>, c: Conversion): Option<seq<Entry>> {
    if !Contains(es, c.consumed) then None
    else
      var result := AddAll(SubtractAll(es, c.consumed), c.converted);
      if c.vanished.Some? && ContainsEntry(result, Single(c.vanished.value)) then None else Some(result)
  }

  // ----- what each operation converts

  /** Invalid resources are silently ignored. */
  function FromList(rs: seq<Resource>): seq<Entry> {
    if rs == [] then []
    else
      var es, r := FromList(rs[..|rs| - 1]), rs[|rs| - 1];
      if Valid(r) then Add(es, Single(r)) else es
  }

  lemma {:induction false} FromListCombined(rs: seq<Resource>)
    ensures Combined(FromList(rs))
  {
    if rs != [] {
      var n := |rs| - 1;
      FromListCombined(rs[..n]);
      if Valid(rs[n]) {
        AddRefines(FromList(rs[..n]), Single(rs[n]));
      }
    }
  }

  /** The disk space under a persistent volume. */
  function Strip(volume: Resource): Resource {
    var disk := volume.meta.disk;
    var stripped := if disk.Some? && disk.value.source.Some? then Some(disk.value.(persistence := None)) else None;
    volume.(shared := false, meta := volume.meta.(disk := stripped))
  }

  datatype Operation =
    | Reserve(resources: seq<Resource>, source: seq<Resource>)
    | Unreserve(resources: seq<Resource>)
    | CreateVolumes(volumes: seq<Resource>)
    | DestroyVolumes(volumes: seq<Resource>)
    | GrowVolume(volume: Resource, addition: Resource)
    | ShrinkVolume(volume: Resource, subtract: int)

  function WithAmount(r: Resource, amount: int): Resource {
    r.(value := Scalar(amount))
  }

  function ConversionOf(op: Operation, i: nat): Conversion
    requires i < Steps(op)
    requires op.GrowVolume? ==> op.volume.value.Scalar? && op.addition.value.Scalar?
    requires op.ShrinkVolume? ==> op.volume.value.Scalar?
  {
    match op
    case Reserve(resources, source) =>
      var reserved := FromList(resources);
      Conversion(if source != [] then FromList(source) else Restack(reserved, Pop), reserved, None)
    case Unreserve(resources) =>
      var reserved := FromList([resources[i]]);
      Conversion(reserved, Restack(reserved, Pop), None)
    case CreateVolumes(volumes) =>
      Conversion(FromList([Strip(volumes[i])]), FromList([volumes[i]]), None)
    case DestroyVolumes(volumes) =>
      Conversion(FromList([volumes[i]]), FromList([Strip(volumes[i])]), Some(volumes[i]))
    case GrowVolume(volume, addition) =>
      var grown := WithAmount(volume, volume.value.amount + addition.value.amount);
      Conversion(FromList([volume, addition]), FromList([grown]), None)
    case ShrinkVolume(volume, subtract) =>
      var shrunk := WithAmount(volume, volume.value.amount - subtract);
      Conversion(FromList([volume]), FromList([shrunk, Strip(WithAmount(volume, subtract))]), None)
  }

  function Steps(op: Operation): nat {
    match op
    case Unreserve(resources) => |resources|
    case CreateVolumes(volumes) => |volumes|
    case DestroyVolumes(volumes) => |volumes|
    case _ => 1
  }

  // ----- conversions that conserve

  ghost predicate Balanced(c: Conversion) {
    && Combined(c.consumed) && Combined(c.converted)
    && NoneShared(c.consumed) && NoneShared(c.converted)
    && Countable(c.consumed) && SameTotals(c.consumed, c.converted)
  }

  predicate IsVolume(v: Resource) {
    Valid(v) && IsPersistent(v.meta) && v.value.amount > 0
  }

  /** A shared volume `v` takes the place of as much unshared disk space `s`. */
  ghost predicate SharesVolume(c: Conversion, s: Resource, v: Resource) {
    && v.shared && IsVolume(v) && Valid(s) && !s.shared && s.value == v.value && s.meta.name == v.meta.name
    && c.consumed == [Single(s)] && c.converted == [Single(v)] && c.vanished.None?
  }

  ghost predicate UnsharesVolume(c: Conversion, v: Resource) {
    v.shared && IsVolume(v) && c.consumed == [Single(v)] && c.converted == [Single(Strip(v))] && c.vanished == Some(v)
  }

  lemma BalancedConserves(es: seq<Entry>, c: Conversion)
    requires Combined(es) && Balanced(c) && ApplyConversion(es, c).Some?
    ensures Combined(ApplyConversion(es, c).value) && SameTotals(ApplyConversion(es, c).value, es)
  {
    SubtractThenAdd(es, c.consumed);
    ConversionConserves(es, c.consumed, c.converted);
  }

  /** Subtracting one by one, each entry is there, or is an exclusive disk of which none is left. */
  lemma FoundOrGone(es: seq<Entry>, fs: seq<Entry>, e: Entry, name: string)
    requires Combined(es) && Combined(fs) && ValidEntry(e) && !e.r.shared && Combined(fs + [e]) && Covers(es, fs + [e])
    ensures var rest := SubtractAll(es, fs); var gone := Minus(Held(es, UnitsOf(e.r)), Held(fs, UnitsOf(e.r))) == 0;
      ScalarTotal(Subtract(rest, e), name) == ScalarTotal(rest, name) -
        if Uncounted(UnitsOf(e.r)) && Indivisible(e.r.meta) && gone then 0 else AmountNamed(e.r, name)
  {
    var rest := SubtractAll(es, fs);
    SubtractAllRefines(es, fs);
    var u := UnitsOf(e.r);
    if Uncounted(u) && Indivisible(e.r.meta) && Minus(Held(es, u), Held(fs, u)) == 0 {
      var i := Find(rest, e.r);
      if i < |rest| {
        HeldAtLeast(rest, i, u);
      }
    } else {
      forall a ensures Weight(e, a) <= Held(rest, a) {
        HeldConcat(fs, [e], a);
        assert [e][1..] == [];
        HeldNonNegative(es, a);
        HeldNonNegative(fs, a);
        assert Demand(a, Held(fs + [e], a)) <= Held(es, a);
      }
      ContainsEntryIff(rest, e);
      TotalSubtract(rest, e, name);
    }
  }

  /** Never more is taken away than asked for, and less when a disk is asked for more often than held. */
  lemma {:induction false} SubtractedAtMost(es: seq<Entry>, fs: seq<Entry>, name: string)
    requires Combined(es) && Combined(fs) && NoneShared(fs) && Covers(es, fs)
    ensures ScalarTotal(SubtractAll(es, fs), name) >= ScalarTotal(es, name) - ScalarTotal(fs, name)
    ensures forall r :: Uncounted(UnitsOf(r)) && r.meta.name == name && Held(fs, UnitsOf(r)) > Held(es, UnitsOf(r)) ==>
      ScalarTotal(SubtractAll(es, fs), name) > ScalarTotal(es, name) - ScalarTotal(fs, name)
    decreases |fs|
  {
    if fs == [] {
      forall r ensures Held(es, UnitsOf(r)) >= 0 { HeldNonNegative(es, UnitsOf(r)); }
    } else {
      var n := |fs| - 1;
      var front, e := fs[..n], fs[n];
      assert fs == front + [e];
      CombinedFront(fs);
      forall a ensures Held(fs, a) == Held(front, a) + Weight(e, a) && Demand(a, Held(front, a)) <= Held(es, a) {
        HeldConcat(front, [e], a);
        assert [e][1..] == [];
        HeldNonNegative(front, a);
        assert Demand(a, Held(fs, a)) <= Held(es, a);
      }
      SubtractedAtMost(es, front, name);
      FoundOrGone(es, front, e, name);
      TotalConcat(front, [e], name);
      assert ScalarTotal([e], name) == AmountNamed(e.r, name) by { assert [e][1..] == []; }
    }
  }

  /**
  A conversion that replaces resources by as many others conserves exactly when it holds them all,
  counting equal exclusive disks, which the containment test does not.
  */
  lemma ConservesIff(es: seq<Entry>, c: Conversion)
    requires Combined(es) && Combined(c.consumed) && Combined(c.converted)
    requires NoneShared(c.consumed) && NoneShared(c.converted) && SameTotals(c.consumed, c.converted)
    requires ApplyConversion(es, c).Some?
    ensures Combined(ApplyConversion(es, c).value)
    ensures SameTotals(ApplyConversion(es, c).value, es) <==> Within(c.consumed, es)
  {
    ContainsIff(es, c.consumed);
    var rest := SubtractAll(es, c.consumed);
    SubtractAllRefines(es, c.consumed);
    AddAllRefines(rest, c.converted);
    if Within(c.consumed, es) {
      ConversionConserves(es, c.consumed, c.converted);
    } else {
      var a :| Held(c.consumed, a) > Held(es, a);
      assert Demand(a, Held(c.consumed, a)) <= Held(es, a);
      var name := a.unit.meta.name;
      SubtractedAtMost(es, c.consumed, name);
      TotalAddAll(rest, c.converted, name);
    }
  }

  lemma SingletonFacts(r: Resource)
    requires Valid(r) && !IsEmptyValue(r.value)
    ensures Combined([Single(r)]) && Countable([Single(r)]) && FromList([r]) == [Single(r)]
    ensures forall name :: ScalarTotal([Single(r)], name) == AmountNamed(r, name)
    ensures forall a :: Held([Single(r)], a) == Weight(Single(r), a)
  {
    var e := Single(r);
    assert [e][1..] == [];
    assert [r][..0] == [];
    assert FromList([r]) == Add([], e) == [e];
  }

  lemma SingletonMembers(r: Resource, name: string, kind: MemberType, x: Member)
    requires Valid(r) && !IsEmptyValue(r.value)
    ensures HasMember([Single(r)], name, kind, x) <==> EntryHas(Single(r), name, kind, x)
  {
    HasMemberAdd([], Single(r), name, kind, x);
    assert [] + [Single(r)] == [Single(r)];
    assert !HasMember([], name, kind, x);
  }

  lemma SingletonTotals(r: Resource, s: Resource)
    requires Valid(r) && Valid(s) && !IsEmptyValue(r.value) && r.meta.name == s.meta.name && r.value == s.value
    ensures SameTotals([Single(r)], [Single(s)])
  {
    SingletonFacts(r);
    SingletonFacts(s);
    hide HasMember, ScalarTotal, Held, Combined, Valid;
    forall name, kind, x
      ensures HasMember([Single(r)], name, kind, x) <==> HasMember([Single(s)], name, kind, x)
    {
      SingletonMembers(r, name, kind, x);
      SingletonMembers(s, name, kind, x);
    }
  }

  lemma StripFacts(v: Resource)
    requires IsVolume(v)
    ensures Valid(Strip(v)) && !Strip(v).shared && Strip(v).value == v.value && !IsEmptyValue(v.value)
    ensures Strip(v).meta.name == v.meta.name && SameTotals([Single(Strip(v))], [Single(v)])
  {
    SingletonTotals(Strip(v), v);
  }

  lemma HoldsCopies(es: seq<Entry>, v: Resource)
    requires Combined(es) && v.shared
    ensures (exists i :: 0 <= i < |es| && es[i].r == v) <==> Held(es, CopiesOf(v)) > 0
  {
    if i :| 0 <= i < |es| && es[i].r == v {
      HeldOnce(es, i, CopiesOf(v));
    }
    if Held(es, CopiesOf(v)) > 0 {
      var i := HeldSome(es, CopiesOf(v));
    }
  }

  lemma OneStep(es: seq<Entry>, e: Entry, f: Entry)
    ensures SubtractAll(es, [e]) == Subtract(es, e) && AddAll(es, [f]) == Add(es, f)
  {
    assert [e][..0] == [] && [f][..0] == [];
  }

  /** No total grows, and one shrinks. */
  ghost predicate LosesTotal(es: seq<Entry>, fs: seq<Entry>) {
    && (forall name :: ScalarTotal(es, name) <= ScalarTotal(fs, name))
    && exists name :: ScalarTotal(es, name) < ScalarTotal(fs, name)
  }

  /** The total after a shared volume has taken the place of its space. */
  lemma SharedTotal(es: seq<Entry>, s: Resource, v: Resource, name: string)
    requires Combined(es) && Valid(s) && !s.shared && !IsEmptyValue(s.value) && v.shared && IsVolume(v) && Within([Single(s)], es)
    ensures Combined(AddAll(SubtractAll(es, [Single(s)]), [Single(v)]))
    ensures ScalarTotal(AddAll(SubtractAll(es, [Single(s)]), [Single(v)]), name) == ScalarTotal(es, name) - AmountNamed(s, name) +
      if Held(es, CopiesOf(v)) > 0 then 0 else AmountNamed(v, name)
  {
    SingletonFacts(s);
    SingletonFacts(v);
    hide Combined;
    var rest, a := SubtractAll(es, [Single(s)]), CopiesOf(v);
    SubtractAllRefines(es, [Single(s)]);
    AddAllRefines(rest, [Single(v)]);
    OneStep(rest, Single(s), Single(v));
    HoldsCopies(rest, v);
    HeldByCombined(es, a);
    assert Held(rest, a) == Minus(Held(es, a), Weight(Single(s), a));
    TotalSubtractAll(es, [Single(s)], name);
    TotalAddTo(rest, Single(v), name);
  }

  /** Creating a shared volume conserves exactly when no copy of it is held yet. */
  lemma ShareConservesIff(es: seq<Entry>, c: Conversion, s: Resource, v: Resource)
    requires Combined(es) && SharesVolume(c, s, v) && ApplyConversion(es, c).Some?
    ensures Combined(ApplyConversion(es, c).value)
    ensures SameTotals(ApplyConversion(es, c).value, es) <==> Held(es, CopiesOf(v)) == 0
    ensures Held(es, CopiesOf(v)) > 0 ==> LosesTotal(ApplyConversion(es, c).value, es)
  {
    SingletonTotals(s, v);
    SingletonFacts(s);
    SingletonFacts(v);
    SubtractThenAdd(es, c.consumed);
    HeldByCombined(es, CopiesOf(v));
    hide Combined, Held, HasMember, ScalarTotal, Contains, AddAll, SubtractAll;
    var out := AddAll(SubtractAll(es, c.consumed), c.converted);
    forall name ensures ScalarTotal(out, name) == ScalarTotal(es, name) - AmountNamed(s, name) +
      if Held(es, CopiesOf(v)) > 0 then 0 else AmountNamed(v, name)
    {
      SharedTotal(es, s, v, name);
    }
    forall name, kind, x ensures HasMember(out, name, kind, x) <==> HasMember(es, name, kind, x) {
      MembersConverted(es, c.consumed, c.converted, name, kind, x);
    }
    SharedTotal(es, s, v, v.meta.name);
    if Held(es, CopiesOf(v)) > 0 {
      assert ScalarTotal(out, v.meta.name) < ScalarTotal(es, v.meta.name);
    }
  }

  /** Destroying a shared volume conserves, because it fails while other copies are held. */
  lemma UnshareConserves(es: seq<Entry>, c: Conversion, v: Resource)
    requires Combined(es) && UnsharesVolume(c, v) && ApplyConversion(es, c).Some?
    ensures Combined(ApplyConversion(es, c).value) && SameTotals(ApplyConversion(es, c).value, es)
  {
    hide Combined;
    var s := Strip(v);
    StripFacts(v);
    SingletonFacts(s);
    SingletonFacts(v);
    SubtractThenAdd(es, c.consumed);
    SubtractAllRefines(es, c.consumed);
    var rest := SubtractAll(es, c.consumed);
    AddAllRefines(rest, c.converted);
    var result := AddAll(rest, c.converted);
    OneStep(es, Single(v), Single(s));
    OneStep(rest, Single(v), Single(s));
    var a := CopiesOf(v);
    HoldsCopies(result, v);
    HeldByCombined(es, a);
    assert Held(result, a) == 0 by { NotContained(result, v); }
    assert Held(rest, a) == 0;
    ContainsEntryIff(es, Single(v));
    forall b ensures Weight(Single(v), b) <= Held(es, b) {
      WithinAt(c.consumed, es, b);
    }
    forall name ensures ScalarTotal(result, name) == ScalarTotal(es, name) {
      TotalSubtract(es, Single(v), name);
      TotalAddTo(rest, Single(s), name);
    }
    forall name, kind, x ensures HasMember(result, name, kind, x) <==> HasMember(es, name, kind, x) {
      MembersConverted(es, c.consumed, c.converted, name, kind, x);
    }
  }

  lemma NotContained(es: seq<Entry>, v: Resource)
    requires Combined(es) && v.shared && !ContainsEntry(es, Single(v))
    ensures Held(es, CopiesOf(v)) == 0
  {
    HeldNonNegative(es, CopiesOf(v));
    if Held(es, CopiesOf(v)) > 0 {
      var i := HeldSome(es, CopiesOf(v));
      assert EntryContains(es[i], Single(v));
    }
  }

  // ----- each operation

  lemma NoMembers(es: seq<Entry>, name: string, kind: MemberType, x: Member)
    requires forall i :: 0 <= i < |es| ==> es[i].r.value.Scalar?
    ensures !HasMember(es, name, kind, x)
  {
    forall m: Meta ensures Held(es, MemberOf(m, kind, x)) == 0 {
      HeldNone(es, MemberOf(m, kind, x));
    }
  }

  lemma ScalarsSameTotals(es: seq<Entry>, fs: seq<Entry>)
    requires forall i :: 0 <= i < |es| ==> es[i].r.value.Scalar?
    requires forall i :: 0 <= i < |fs| ==> fs[i].r.value.Scalar?
    requires forall name :: ScalarTotal(es, name) == ScalarTotal(fs, name)
    ensures SameTotals(es, fs)
  {
    forall name, kind, x ensures HasMember(es, name, kind, x) <==> HasMember(fs, name, kind, x) {
      NoMembers(es, name, kind, x);
      NoMembers(fs, name, kind, x);
    }
  }

  lemma TwoEntries(r: Resource, s: Resource)
    requires Valid(r) && Valid(s) && !IsEmptyValue(r.value) && !IsEmptyValue(s.value) && !Addable(r, s)
    ensures FromList([r, s]) == [Single(r), Single(s)] && Combined([Single(r), Single(s)])
    ensures forall name :: ScalarTotal([Single(r), Single(s)], name) == AmountNamed(r, name) + AmountNamed(s, name)
    ensures forall a :: Held([Single(r), Single(s)], a) == Weight(Single(r), a) + Weight(Single(s), a)
  {
    FromListCombined([r, s]);
    SingletonFacts(r);
    assert [r, s][..1] == [r];
    var e, f := Single(r), Single(s);
    assert AddTo([e], f) == [e] + AddTo([e][1..], f) == [e, f];
    assert [e, f][1..] == [f] && [f][1..] == [];
  }

  lemma ReserveBalanced(resources: seq<Resource>)
    requires NoneShared(FromList(resources)) && Countable(Restack(FromList(resources), Pop))
    ensures Balanced(ConversionOf(Reserve(resources, []), 0))
  {
    FromListCombined(resources);
    RestackCombined(FromList(resources), Pop);
    RestackTotals(FromList(resources), Pop);
  }

  /** Explicit sources: they match the target when both are the same without reservations. */
  lemma ReserveFromBalanced(resources: seq<Resource>, source: seq<Resource>)
    requires source != [] && NoneShared(FromList(resources)) && NoneShared(FromList(source)) && Countable(FromList(source))
    requires var target, from := Restack(FromList(resources), Clear), Restack(FromList(source), Clear);
      Countable(target) && Countable(from) && Equal(from, target)
    ensures Balanced(ConversionOf(Reserve(resources, source), 0))
  {
    var target, from := Restack(FromList(resources), Clear), Restack(FromList(source), Clear);
    FromListCombined(resources);
    FromListCombined(source);
    RestackCombined(FromList(resources), Clear);
    RestackCombined(FromList(source), Clear);
    RestackTotals(FromList(resources), Clear);
    RestackTotals(FromList(source), Clear);
    EqualIff(from, target);
    SameHasSameTotals(from, target);
  }

  lemma SameHasSameTotals(es: seq<Entry>, fs: seq<Entry>)
    requires Combined(es) && Combined(fs) && Same(es, fs)
    ensures SameTotals(es, fs)
  {
    SameIffPermuted(es, fs);
    forall name ensures ScalarTotal(es, name) == ScalarTotal(fs, name) { PermutedTotal(es, fs, name); }
  }

  lemma UnreserveBalanced(resources: seq<Resource>, i: nat)
    requires i < |resources| && !resources[i].shared
    ensures Balanced(ConversionOf(Unreserve(resources), i))
  {
    var r := resources[i];
    FromListCombined([r]);
    if Valid(r) && !IsEmptyValue(r.value) {
      SingletonFacts(r);
    } else {
      assert [r][..0] == [] && FromList([r]) == [];
    }
    RestackCombined(FromList([r]), Pop);
    RestackTotals(FromList([r]), Pop);
  }

  lemma VolumeBalanced(v: Resource)
    requires IsVolume(v) && !v.shared
    ensures Balanced(ConversionOf(CreateVolumes([v]), 0)) && Balanced(ConversionOf(DestroyVolumes([v]), 0))
  {
    StripFacts(v);
    SingletonFacts(v);
    SingletonFacts(Strip(v));
  }

  lemma GrowBalanced(volume: Resource, addition: Resource)
    requires IsVolume(volume) && !volume.shared
    requires Valid(addition) && Addable(Strip(volume), addition) && addition.value.amount > 0
    ensures Balanced(ConversionOf(GrowVolume(volume, addition), 0))
  {
    var grown := WithAmount(volume, volume.value.amount + addition.value.amount);
    SingletonFacts(grown);
    TwoEntries(volume, addition);
    var c := ConversionOf(GrowVolume(volume, addition), 0);
    assert c.consumed == [Single(volume), Single(addition)] && c.converted == [Single(grown)];
    ScalarsSameTotals(c.consumed, c.converted);
  }

  lemma ShrinkConverted(volume: Resource, subtract: nat)
    requires IsVolume(volume) && !volume.shared
    ensures var c := ConversionOf(ShrinkVolume(volume, subtract), 0);
      && c.consumed == [Single(volume)] && Combined(c.converted) && NoneShared(c.converted)
      && (forall i :: 0 <= i < |c.converted| ==> c.converted[i].r.value.Scalar?)
      && forall name :: ScalarTotal(c.converted, name) ==
           if name != volume.meta.name then 0 else if subtract <= volume.value.amount then volume.value.amount else subtract
  {
    var amount := volume.value.amount;
    var shrunk, freed := WithAmount(volume, amount - subtract), Strip(WithAmount(volume, subtract));
    SingletonFacts(volume);
    FromListCombined([shrunk, freed]);
    assert [shrunk, freed][..1] == [shrunk] && [shrunk][..0] == [];
    if 0 < subtract < amount {
      TwoEntries(shrunk, freed);
    } else if subtract == 0 {
      SingletonFacts(shrunk);
    } else {
      SingletonFacts(freed);
      assert FromList([shrunk]) == [];
      assert FromList([shrunk, freed]) == Add([], Single(freed)) == [Single(freed)];
    }
  }

  /** Shrinking conserves exactly when no more is freed than the volume has. */
  lemma ShrinkConservesIff(es: seq<Entry>, volume: Resource, subtract: nat)
    requires Combined(es) && IsVolume(volume) && !volume.shared
    requires ApplyConversion(es, ConversionOf(ShrinkVolume(volume, subtract), 0)).Some?
    ensures var c := ConversionOf(ShrinkVolume(volume, subtract), 0);
      && Combined(ApplyConversion(es, c).value)
      && (SameTotals(ApplyConversion(es, c).value, es) <==> subtract <= volume.value.amount)
  {
    var c := ConversionOf(ShrinkVolume(volume, subtract), 0);
    ShrinkConverted(volume, subtract);
    SingletonFacts(volume);
    SubtractThenAdd(es, c.consumed);
    if subtract <= volume.value.amount {
      ScalarsSameTotals(c.consumed, c.converted);
      BalancedConserves(es, c);
    } else {
      var rest := SubtractAll(es, c.consumed);
      SubtractAllRefines(es, c.consumed);
      AddAllRefines(rest, c.converted);
      TotalSubtractAll(es, c.consumed, volume.meta.name);
      TotalAddAll(rest, c.converted, volume.meta.name);
    }
  }

  // ----- whole operations

  predicate WellTyped(op: Operation) {
    && (op.GrowVolume? ==> op.volume.value.Scalar? && op.addition.value.Scalar?)
    && (op.ShrinkVolume? ==> op.volume.value.Scalar?)
  }

  function ApplySteps(es: seq<Entry>, op: Operation, n: nat): Option<seq<Entry>>
    requires n <= Steps(op) && WellTyped(op)
  {
    if n == 0 then Some(es)
    else
      var done := ApplySteps(es, op, n - 1);
      if done.None? then None else ApplyConversion(done.value, ConversionOf(op, n - 1))
  }

  /** Volumes of a resource provider cannot be resized. */
  predicate Supported(op: Operation) {
    op.GrowVolume? || op.ShrinkVolume? ==> op.volume.meta.provider.None?
  }

  predicate AllReserved(es: seq<Entry>) {
    forall i :: 0 <= i < |es| ==> es[i].r.meta.reservations != []
  }

  /** Every resource has the reservation that is to be taken off; this is asserted, not returned as an error. */
  predicate Poppable(op: Operation) {
    match op
    case Reserve(resources, source) => source == [] ==> AllReserved(FromList(resources))
    case Unreserve(resources) => forall i :: 0 <= i < |resources| ==> AllReserved(FromList([resources[i]]))
    case _ => true
  }

  /** What the validation of operations guarantees. */
  ghost predicate Validated(op: Operation) {
    match op
    case Reserve(resources, source) =>
      && NoneShared(FromList(resources))
      && (source == [] ==> AllReserved(FromList(resources)) && Countable(Restack(FromList(resources), Pop)))
      && (source != [] ==>
            var target, from := Restack(FromList(resources), Clear), Restack(FromList(source), Clear);
            && NoneShared(FromList(source)) && Countable(FromList(source))
            && Countable(target) && Countable(from) && Equal(from, target))
    case Unreserve(resources) => forall i :: 0 <= i < |resources| ==> !resources[i].shared && AllReserved(FromList([resources[i]]))
    case CreateVolumes(volumes) => forall i :: 0 <= i < |volumes| ==> IsVolume(volumes[i])
    case DestroyVolumes(volumes) => forall i :: 0 <= i < |volumes| ==> IsVolume(volumes[i])
    case GrowVolume(volume, addition) =>
      && IsVolume(volume) && !volume.shared
      && Valid(addition) && Addable(Strip(volume), addition) && addition.value.amount > 0
    case ShrinkVolume(volume, subtract) => IsVolume(volume) && !volume.shared && 0 <= subtract <= volume.value.amount
  }

  /** The volumes from `i` on are distinct where shared, and no copy of them is held. */
  ghost predicate NewVolumes(es: seq<Entry>, volumes: seq<Resource>, i: nat) {
    && (forall j :: i <= j < |volumes| && volumes[j].shared ==> Held(es, CopiesOf(volumes[j])) == 0)
    && (forall j, k :: i <= j < k < |volumes| && volumes[j].shared ==> volumes[j] != volumes[k])
  }

  lemma StepConserves(es: seq<Entry>, op: Operation, i: nat)
    requires Combined(es) && WellTyped(op) && i < Steps(op) && Validated(op)
    requires op.CreateVolumes? ==> NewVolumes(es, op.volumes, i)
    requires ApplyConversion(es, ConversionOf(op, i)).Some?
    ensures var result := ApplyConversion(es, ConversionOf(op, i)).value;
      Combined(result) && SameTotals(result, es) && (op.CreateVolumes? ==> NewVolumes(result, op.volumes, i + 1))
  {
    var c := ConversionOf(op, i);
    match op
    case Reserve(resources, source) =>
      if source == [] { ReserveBalanced(resources); } else { ReserveFromBalanced(resources, source); }
      BalancedConserves(es, c);
    case Unreserve(resources) =>
      UnreserveBalanced(resources, i);
      BalancedConserves(es, c);
    case CreateVolumes(volumes) =>
      CreateConserves(es, volumes, i);
    case DestroyVolumes(volumes) =>
      DestroyConserves(es, volumes, i);
    case GrowVolume(volume, addition) =>
      GrowBalanced(volume, addition);
      BalancedConserves(es, c);
    case ShrinkVolume(volume, subtract) =>
      ShrinkConservesIff(es, volume, subtract);
  }

  lemma CreateConserves(es: seq<Entry>, volumes: seq<Resource>, i: nat)
    requires Combined(es) && i < |volumes| && IsVolume(volumes[i]) && NewVolumes(es, volumes, i)
    requires ApplyConversion(es, ConversionOf(CreateVolumes(volumes), i)).Some?
    ensures var result := ApplyConversion(es, ConversionOf(CreateVolumes(volumes), i)).value;
      Combined(result) && SameTotals(result, es) && NewVolumes(result, volumes, i + 1)
  {
    hide SameTotals;
    var v, c := volumes[i], ConversionOf(CreateVolumes(volumes), i);
    StripFacts(v);
    SingletonFacts(v);
    SingletonFacts(Strip(v));
    if v.shared {
      ShareConservesIff(es, c, Strip(v), v);
    } else {
      VolumeBalanced(v);
      BalancedConserves(es, c);
    }
    SubtractAllRefines(es, c.consumed);
    AddAllRefines(SubtractAll(es, c.consumed), c.converted);
  }

  lemma DestroyConserves(es: seq<Entry>, volumes: seq<Resource>, i: nat)
    requires Combined(es) && i < |volumes| && IsVolume(volumes[i])
    requires ApplyConversion(es, ConversionOf(DestroyVolumes(volumes), i)).Some?
    ensures var result := ApplyConversion(es, ConversionOf(DestroyVolumes(volumes), i)).value;
      Combined(result) && SameTotals(result, es)
  {
    var v, c := volumes[i], ConversionOf(DestroyVolumes(volumes), i);
    StripFacts(v);
    SingletonFacts(v);
    SingletonFacts(Strip(v));
    if v.shared {
      UnshareConserves(es, c, v);
    } else {
      VolumeBalanced(v);
      BalancedConserves(es, c);
    }
  }

  lemma SameTotalsRefl(es: seq<Entry>)
    ensures SameTotals(es, es)
  {
  }

  lemma SameTotalsTrans(es: seq<Entry>, fs: seq<Entry>, gs: seq<Entry>)
    requires SameTotals(es, fs) && SameTotals(fs, gs)
    ensures SameTotals(es, gs)
  {
  }

  /** No validated operation changes the total of any resource name. */
  lemma {:induction false} OperationConserves(es: seq<Entry>, op: Operation, n: nat)
    requires Combined(es) && WellTyped(op) && n <= Steps(op) && Validated(op) && ApplySteps(es, op, n).Some?
    requires op.CreateVolumes? ==> NewVolumes(es, op.volumes, 0)
    ensures var result := ApplySteps(es, op, n).value;
      Combined(result) && SameTotals(result, es) && (op.CreateVolumes? ==> NewVolumes(result, op.volumes, n))
  {
    hide Validated, SameTotals, ConversionOf, ApplyConversion, Combined, NewVolumes;
    if n == 0 {
      SameTotalsRefl(es);
    } else {
      var before := ApplySteps(es, op, n - 1).value;
      OperationConserves(es, op, n - 1);
      StepConserves(before, op, n - 1);
      SameTotalsTrans(ApplySteps(es, op, n).value, before, es);
    }
  }
}
