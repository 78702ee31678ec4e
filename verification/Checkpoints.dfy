/**
The replay of checkpointed resources onto those that an agent is given.
*/
module Checkpoints {
  import opened Options
  import opened ResourceModel
  import opened ResourceLaws
  import opened Conversions
  import opened Operations
  import opened Reservations

  predicate NeedsCheckpointing(m: Meta) {
    m.provider.None? && (DynamicallyReserved(m) || IsPersistent(m))
  }

  predicate DynamicallyReserved(m: Meta) {
    m.reservations != [] && m.reservations[|m.reservations| - 1].kind.Dynamic?
  }

  /** What the agent must have been given for the resource to be made of: no dynamic reservation, no volume. */
  function Base(r: Resource): Resource {
    var rs := r.meta.reservations;
    var rs' := if !DynamicallyReserved(r.meta) then rs else if rs[0].kind.Static? then [rs[0]] else [];
    var disk := if IsPersistent(r.meta) then Strip(r).meta.disk else r.meta.disk;
    r.(shared := false, meta := r.meta.(reservations := rs', disk := disk))
  }

  /** No copy is held yet of the first `i` shared volumes. */
  ghost predicate NoneHeld(agent: seq<Entry>, checkpointed: seq<Entry>, i: nat) {
    i <= |checkpointed| &&
    forall j :: 0 <= j < i && checkpointed[j].r.shared ==> Held(agent, CopiesOf(checkpointed[j].r)) == 0
  }

  function Bases(es: seq<Entry>): seq<Entry> {
    seq(|es|, i requires 0 <= i < |es| => Single(Base(es[i].r)))
  }

  /** The first `i` checkpointed resources are held on top of the agent's, and what they are made of is gone. */
  ghost predicate Replayed(agent: seq<Entry>, total: seq<Entry>, checkpointed: seq<Entry>, i: nat) {
    && i <= |checkpointed| && Combined(total)
    && forall a :: Held(total, a) ==
         if NeedsCheckpointing(MetaOf(a)) then Merge(a, Held(agent, a), Held(Plain(checkpointed)[..i], a))
         else Held(agent, a) - Held(Bases(checkpointed)[..i], a)
  }

  /** What a resource is made of needs no checkpoint, so the two never overlap. */
  lemma BaseFacts(r: Resource)
    ensures !NeedsCheckpointing(Base(r).meta)
  {
  }

  lemma ReplayBegin(agent: seq<Entry>, checkpointed: seq<Entry>)
    requires Combined(agent)
    ensures Replayed(agent, agent, checkpointed, 0) && Kept(agent, agent, checkpointed, 0)
  {
    forall a ensures Held(agent, a) >= 0 { HeldNonNegative(agent, a); }
  }

  lemma ReplayNext(agent: seq<Entry>, total: seq<Entry>, checkpointed: seq<Entry>, i: nat)
    requires Replayed(agent, total, checkpointed, i) && Combined(checkpointed) && i < |checkpointed|
    requires var r := checkpointed[i].r;
      NeedsCheckpointing(r.meta) && Valid(Base(r)) && ContainsEntry(total, Single(Base(r)))
    ensures var r := checkpointed[i].r;
      Replayed(agent, Add(Subtract(total, Single(Base(r))), Single(r)), checkpointed, i + 1)
  {
    var r := checkpointed[i].r;
    var e, f := Single(Base(r)), Single(r);
    assert ValidEntry(e) && ValidEntry(f);
    hide Base, Subtract, Add, NeedsCheckpointing, Weight;
    SubtractRefines(total, e);
    AddRefines(Subtract(total, e), f);
    ContainsEntryIff(total, e);
    forall a ensures Held(Add(Subtract(total, e), f), a) ==
      if NeedsCheckpointing(MetaOf(a)) then Merge(a, Held(agent, a), Held(Plain(checkpointed)[..i + 1], a))
      else Held(agent, a) - Held(Bases(checkpointed)[..i + 1], a)
    {
      assert Weight(e, a) <= Held(total, a);
      ReplayedWeights(r, a);
      HeldNext(Plain(checkpointed), i, a);
      HeldNext(Bases(checkpointed), i, a);
      MemberOnce(checkpointed, i, a);
    }
  }

  /** An atom belongs to what is replayed or to what that is made of, never to both. */
  lemma ReplayedWeights(r: Resource, a: Atom)
    requires NeedsCheckpointing(r.meta)
    ensures if NeedsCheckpointing(MetaOf(a)) then Weight(Single(Base(r)), a) == 0 else Weight(Single(r), a) == 0
  {
    BaseFacts(r);
  }

  lemma HeldNext(es: seq<Entry>, i: nat, a: Atom)
    requires i < |es|
    ensures Held(es[..i + 1], a) == Held(es[..i], a) + Weight(es[i], a)
  {
    assert es[..i + 1] == es[..i] + [es[i]];
    HeldConcat(es[..i], [es[i]], a);
    assert [es[i]][1..] == [];
  }

  /** A member is in one of the checkpointed resources at most. */
  lemma MemberOnce(es: seq<Entry>, i: nat, a: Atom)
    requires Combined(es) && i < |es|
    ensures 0 <= Held(Plain(es)[..i], a)
    ensures a.MemberOf? ==> Held(Plain(es)[..i], a) + Weight(Plain(es)[i], a) <= 1
  {
    var ps := Plain(es);
    PlainCombined(es);
    HeldNonNegative(ps[..i], a);
    HeldNonNegative(ps[i + 1..], a);
    HeldSplit(ps, i, a);
    if a.MemberOf? {
      MemberHeldOnce(ps, a);
    }
  }

  /**
  Replays the checkpoint onto the agent's resources; fails only where a resource cannot be made. No
  total changes exactly when no copy of a checkpointed shared volume is held already.
  */
  method ApplyCheckpointed(agent: seq<Entry>, checkpointed: seq<Entry>) returns (result: Option<seq<Entry>>)
    requires Combined(agent) && Combined(checkpointed)
    ensures result.Some? ==> Replayed(agent, result.value, checkpointed, |checkpointed|)
    ensures result.Some? ==> (SameTotals(result.value, agent) <==> NoneHeld(agent, checkpointed, |checkpointed|))
    ensures result.Some? ==> forall i :: 0 <= i < |checkpointed| ==> NeedsCheckpointing(checkpointed[i].r.meta)
    ensures result.None? ==> exists i, total :: Stuck(agent, total, checkpointed, i)
    ensures WellReserved(checkpointed) ==> forall made :: AreMadeOf(made, checkpointed) ==>
      && (result.Some? <==> AllRecorded(checkpointed) && Within(made, agent))
      && (result.Some? ==> Replaced(agent, made, checkpointed, result.value))
  {
    hide SameTotals, NoneHeld, LosesTotal, Combined, Replayed, WellReserved, AreMadeOf, AllRecorded, Replaced, Stuck;
    var total := agent;
    ReplayBegin(agent, checkpointed);
    for i := 0 to |checkpointed|
      invariant Replayed(agent, total, checkpointed, i) && Kept(agent, total, checkpointed, i)
      invariant forall j :: 0 <= j < i ==> NeedsCheckpointing(checkpointed[j].r.meta)
    {
      var r := checkpointed[i].r;
      if !NeedsCheckpointing(r.meta) {
        IsStuck(agent, total, checkpointed, i);
        StuckFails(agent, total, checkpointed, i);
        return None;
      }
      var stripped := Base(r);
      if !Valid(stripped) || !ContainsEntry(total, Single(stripped)) {
        IsStuck(agent, total, checkpointed, i);
        StuckFails(agent, total, checkpointed, i);
        return None;
      }
      ReplayNext(agent, total, checkpointed, i);
      KeptNext(agent, total, checkpointed, i);
      total := Subtract(total, Single(stripped));
      total := Add(total, Single(r));
    }
    LostIsNotSame(total, agent);
    ReplaySucceeds(agent, total, checkpointed);
    return Some(total);
  }

  /** Totals after some of the replay. */
  ghost predicate Kept(agent: seq<Entry>, total: seq<Entry>, checkpointed: seq<Entry>, i: nat) {
    if NoneHeld(agent, checkpointed, i) then SameTotals(total, agent) else LosesTotal(total, agent)
  }

  lemma LostIsNotSame(es: seq<Entry>, fs: seq<Entry>)
    ensures !(SameTotals(es, fs) && LosesTotal(es, fs))
  {
  }

  lemma LostTrans(es: seq<Entry>, fs: seq<Entry>, gs: seq<Entry>)
    requires SameTotals(es, fs) || LosesTotal(es, fs)
    requires SameTotals(fs, gs) || LosesTotal(fs, gs)
    ensures if SameTotals(es, fs) && SameTotals(fs, gs) then SameTotals(es, gs) else LosesTotal(es, gs)
  {
    if LosesTotal(es, fs) {
      var name :| ScalarTotal(es, name) < ScalarTotal(fs, name);
      assert ScalarTotal(es, name) < ScalarTotal(gs, name);
    } else if LosesTotal(fs, gs) {
      var name :| ScalarTotal(fs, name) < ScalarTotal(gs, name);
      assert ScalarTotal(es, name) < ScalarTotal(gs, name);
    }
  }

  /** The copies of a volume that has not been replayed are those of the agent. */
  lemma NotYetReplayed(agent: seq<Entry>, total: seq<Entry>, checkpointed: seq<Entry>, i: nat)
    requires Replayed(agent, total, checkpointed, i) && Combined(checkpointed) && i < |checkpointed|
    requires checkpointed[i].r.shared && NeedsCheckpointing(checkpointed[i].r.meta)
    ensures Held(total, CopiesOf(checkpointed[i].r)) == Held(agent, CopiesOf(checkpointed[i].r))
  {
    var a := CopiesOf(checkpointed[i].r);
    var ps := Plain(checkpointed)[..i];
    forall k | 0 <= k < |ps| ensures !Touches(ps[k].r, a) {
      assert !Addable(checkpointed[k].r, checkpointed[i].r);
    }
    HeldNone(ps, a);
    assert NeedsCheckpointing(MetaOf(a));
  }

  lemma KeptNext(agent: seq<Entry>, total: seq<Entry>, checkpointed: seq<Entry>, i: nat)
    requires Replayed(agent, total, checkpointed, i) && Kept(agent, total, checkpointed, i)
    requires Combined(checkpointed) && Combined(agent) && i < |checkpointed|
    requires var r := checkpointed[i].r;
      NeedsCheckpointing(r.meta) && Valid(Base(r)) && ContainsEntry(total, Single(Base(r)))
    ensures var r := checkpointed[i].r;
      Kept(agent, Add(Subtract(total, Single(Base(r))), Single(r)), checkpointed, i + 1)
  {
    hide SameTotals, LosesTotal, Combined, Replayed;
    var r := checkpointed[i].r;
    ReplayedCombined(agent, total, checkpointed, i);
    ReplayStep(total, checkpointed, i);
    var next := Add(Subtract(total, Single(Base(r))), Single(r));
    LostTrans(next, total, agent);
    LostIsNotSame(next, total);
    LostIsNotSame(total, agent);
    HeldByCombined(agent, CopiesOf(r));
    if r.shared {
      NotYetReplayed(agent, total, checkpointed, i);
    }
    assert NoneHeld(agent, checkpointed, i + 1) <==>
      NoneHeld(agent, checkpointed, i) && (r.shared ==> Held(agent, CopiesOf(r)) == 0);
  }

  /** The replay of what comes before reaches a resource that is no checkpoint or cannot be made. */
  ghost predicate Stuck(agent: seq<Entry>, total: seq<Entry>, checkpointed: seq<Entry>, i: nat) {
    && i < |checkpointed| && Replayed(agent, total, checkpointed, i)
    && var r := checkpointed[i].r;
       !NeedsCheckpointing(r.meta) || !Valid(Base(r)) || !ContainsEntry(total, Single(Base(r)))
  }

  lemma ReplayedCombined(agent: seq<Entry>, total: seq<Entry>, checkpointed: seq<Entry>, i: nat)
    requires Replayed(agent, total, checkpointed, i)
    ensures Combined(total)
  {
  }

  lemma ReplayStep(total: seq<Entry>, checkpointed: seq<Entry>, i: nat)
    requires Combined(total) && Combined(checkpointed) && i < |checkpointed|
    requires Valid(Base(checkpointed[i].r)) && ContainsEntry(total, Single(Base(checkpointed[i].r)))
    ensures var r := checkpointed[i].r; var result := Add(Subtract(total, Single(Base(r))), Single(r));
      && (SameTotals(result, total) <==> !(r.shared && Held(total, CopiesOf(r)) > 0))
      && (r.shared && Held(total, CopiesOf(r)) > 0 ==> LosesTotal(result, total))
  {
    hide SameTotals, LosesTotal;
    var r := checkpointed[i].r;
    var s := Base(r);
    SingletonFacts(r);
    SingletonFacts(s);
    SingletonTotals(s, r);
    var c := Conversion([Single(s)], [Single(r)], None);
    OneStep(total, Single(s), Single(r));
    OneStep(Subtract(total, Single(s)), Single(s), Single(r));
    ContainsOne(total, Single(s));
    HeldByCombined(total, CopiesOf(r));
    if r.shared {
      ShareConservesIff(total, c, s, r);
    } else {
      BalancedConserves(total, c);
    }
  }

  /** A shared volume, reserved dynamically. */
  function SharedVolume(): Resource {
    Resource(Meta("disk", None, [Reservation(Dynamic, "a", None, None)], Some(Disk(None, Some("volume"))), false, None), true, Scalar(1000))
  }

  /** An agent that has a copy of the volume already, and the disk to make another: half of the disk is lost. */
  lemma ReplayLoses()
    ensures var v := SharedVolume();
      var agent := [Single(Base(v)), Single(v)];
      && Combined(agent) && Combined([Single(v)]) && NeedsCheckpointing(v.meta)
      && LosesTotal(Add(Subtract(agent, Single(Base(v))), Single(v)), agent)
  {
    var v := SharedVolume();
    var agent := [Single(Base(v)), Single(v)];
    assert Combined(agent) && Combined([Single(v)]);
    assert EntryContains(agent[0], Single(Base(v)));
    HeldOnce(agent, 1, CopiesOf(v));
    ReplayStep(agent, [Single(v)], 0);
  }

  lemma ContainsOne(es: seq<Entry>, e: Entry)
    ensures Contains(es, [e]) <==> ContainsEntry(es, e)
  {
    assert [e][1..] == [];
  }

  // ----- what a checkpointed resource is made of, and when the replay succeeds

  ghost predicate WellReserved(es: seq<Entry>) {
    forall i :: 0 <= i < |es| ==> Refined(es[i].r.meta.reservations)
  }

  /** A dynamic reservation or a volume, not of a resource provider. */
  ghost predicate Recorded(m: Meta) {
    && m.provider.None?
    && ((exists k :: 0 <= k < |m.reservations| && m.reservations[k].kind.Dynamic?)
        || (m.disk.Some? && m.disk.value.persistence.Some?))
  }

  ghost predicate AllRecorded(es: seq<Entry>) {
    forall i :: 0 <= i < |es| ==> Recorded(es[i].r.meta)
  }

  /** The reservations below the first dynamic one. */
  ghost predicate StaticPart(part: seq<Reservation>, rs: seq<Reservation>) {
    && part <= rs && (forall k :: 0 <= k < |part| ==> part[k].kind.Static?)
    && (|part| < |rs| ==> rs[|part|].kind.Dynamic?)
  }

  /** The disk under a volume: its source, or none of its own; a disk without a volume stays. */
  ghost predicate DiskUnder(part: Option<Disk>, disk: Option<Disk>) {
    match disk
    case Some(Disk(Some(source), Some(_))) => part == Some(Disk(Some(source), None))
    case Some(Disk(None, Some(_))) => part == None
    case _ => part == disk
  }

  /** What the agent must have been given: the same but for dynamic reservations, the volume and sharing. */
  ghost predicate MadeOf(b: Resource, r: Resource) {
    && b == r.(shared := false, meta := r.meta.(reservations := b.meta.reservations, disk := b.meta.disk))
    && StaticPart(b.meta.reservations, r.meta.reservations)
    && DiskUnder(b.meta.disk, r.meta.disk)
  }

  ghost predicate AreMadeOf(made: seq<Entry>, checkpointed: seq<Entry>) {
    && |made| == |checkpointed|
    && forall i :: 0 <= i < |made| ==> made[i].count == 1 && MadeOf(made[i].r, checkpointed[i].r)
  }

  /** The checkpointed resources have taken the place of what they are made of. */
  ghost predicate Replaced(agent: seq<Entry>, made: seq<Entry>, checkpointed: seq<Entry>, total: seq<Entry>) {
    Combined(total) && forall a :: Held(total, a) == Merge(a, Held(agent, a) - Held(made, a), Held(Plain(checkpointed), a))
  }

  lemma StaticPartIff(part: seq<Reservation>, rs: seq<Reservation>)
    requires Refined(rs)
    ensures StaticPart(part, rs) <==>
      part == if rs == [] || rs[|rs| - 1].kind.Static? then rs else if rs[0].kind.Static? then [rs[0]] else []
  {
    hide Roles.Valid, Roles.IsStrictSubroleOf;
    assert |rs| > 1 ==> rs[|rs| - 1].kind.Dynamic? && rs[1].kind.Dynamic?;
    assert rs != [] ==> rs == [rs[0]] + rs[1..];
    if StaticPart(part, rs) {
      assert part == rs[..|part|];
      assert |part| <= 1;
      assert |part| == 1 ==> part == [rs[0]];
    }
  }

  lemma MadeOfIff(b: Resource, r: Resource)
    requires Refined(r.meta.reservations)
    ensures MadeOf(b, r) <==> b == Base(r)
  {
    hide Refined, StaticPart;
    StaticPartIff(b.meta.reservations, r.meta.reservations);
  }

  lemma RecordedIff(m: Meta)
    requires Refined(m.reservations)
    ensures Recorded(m) <==> NeedsCheckpointing(m)
  {
    hide Roles.Valid, Roles.IsStrictSubroleOf;
  }

  lemma AreBases(made: seq<Entry>, checkpointed: seq<Entry>)
    requires WellReserved(checkpointed)
    ensures AreMadeOf(made, checkpointed) <==> made == Bases(checkpointed)
  {
    hide MadeOf, Base, Refined;
    if |made| == |checkpointed| {
      forall i | 0 <= i < |made| ensures MadeOf(made[i].r, checkpointed[i].r) <==> made[i].r == Base(checkpointed[i].r) {
        MadeOfIff(made[i].r, checkpointed[i].r);
      }
      forall i | 0 <= i < |made| ensures made[i].count == 1 && made[i].r == Base(checkpointed[i].r) <==> made[i] == Bases(checkpointed)[i] {
      }
    }
  }

  lemma BaseEntry(checkpointed: seq<Entry>, i: nat)
    requires Combined(checkpointed) && i < |checkpointed|
    ensures Valid(Base(checkpointed[i].r)) && ValidEntry(Bases(checkpointed)[i])
  {
  }

  lemma BasesFacts(checkpointed: seq<Entry>, i: nat, a: Atom)
    requires Combined(checkpointed) && i <= |checkpointed|
    ensures 0 <= Held(Bases(checkpointed)[..i], a) <= Held(Bases(checkpointed), a)
    ensures NeedsCheckpointing(MetaOf(a)) ==> Held(Bases(checkpointed), a) == 0
  {
    var bs := Bases(checkpointed);
    forall k | 0 <= k < |bs| ensures ValidEntry(bs[k]) && (NeedsCheckpointing(MetaOf(a)) ==> !Touches(bs[k].r, a)) {
      BaseEntry(checkpointed, k);
      BaseFacts(checkpointed[k].r);
    }
    HeldNonNegative(bs[..i], a);
    HeldNonNegative(bs[i..], a);
    HeldConcat(bs[..i], bs[i..], a);
    assert bs == bs[..i] + bs[i..];
    if NeedsCheckpointing(MetaOf(a)) {
      HeldNone(bs, a);
    }
  }

  lemma {:induction false} PlainFacts(checkpointed: seq<Entry>, a: Atom)
    requires Combined(checkpointed) && forall i :: 0 <= i < |checkpointed| ==> NeedsCheckpointing(checkpointed[i].r.meta)
    ensures Held(Plain(checkpointed), a) >= 0 && (!NeedsCheckpointing(MetaOf(a)) ==> Held(Plain(checkpointed), a) == 0)
  {
    PlainCombined(checkpointed);
    HeldByCombined(Plain(checkpointed), a);
    if !NeedsCheckpointing(MetaOf(a)) {
      HeldNone(Plain(checkpointed), a);
    }
  }

  lemma IsStuck(agent: seq<Entry>, total: seq<Entry>, checkpointed: seq<Entry>, i: nat)
    requires i < |checkpointed| && Replayed(agent, total, checkpointed, i)
    requires var r := checkpointed[i].r;
      !NeedsCheckpointing(r.meta) || !Valid(Base(r)) || !ContainsEntry(total, Single(Base(r)))
    ensures Stuck(agent, total, checkpointed, i)
  {
  }

  /** Where the replay ends, the agent has too little of something. */
  lemma StuckLacks(agent: seq<Entry>, total: seq<Entry>, checkpointed: seq<Entry>, i: nat)
    requires Combined(agent) && Combined(checkpointed) && Stuck(agent, total, checkpointed, i) && NeedsCheckpointing(checkpointed[i].r.meta)
    ensures !Within(Bases(checkpointed), agent)
  {
    hide Base, NeedsCheckpointing;
    var b := Bases(checkpointed)[i];
    BaseEntry(checkpointed, i);
    ContainsEntryIff(total, b);
    var a :| Weight(b, a) > Held(total, a);
    HeldByCombined(total, a);
    BaseFacts(checkpointed[i].r);
    assert Touches(b.r, a) && b.r.meta == MetaOf(a);
    HeldNext(Bases(checkpointed), i, a);
    BasesFacts(checkpointed, i + 1, a);
    assert Held(total, a) == Held(agent, a) - Held(Bases(checkpointed)[..i], a);
  }

  lemma StuckFails(agent: seq<Entry>, total: seq<Entry>, checkpointed: seq<Entry>, i: nat)
    requires Combined(agent) && Combined(checkpointed) && Stuck(agent, total, checkpointed, i)
    ensures WellReserved(checkpointed) ==> forall made :: AreMadeOf(made, checkpointed) ==> !(AllRecorded(checkpointed) && Within(made, agent))
  {
    hide NeedsCheckpointing, Base, Refined, Recorded, Replayed, Combined;
    if WellReserved(checkpointed) {
      forall made | AreMadeOf(made, checkpointed) ensures !(AllRecorded(checkpointed) && Within(made, agent)) {
        AreBases(made, checkpointed);
        RecordedIff(checkpointed[i].r.meta);
        if NeedsCheckpointing(checkpointed[i].r.meta) {
          StuckLacks(agent, total, checkpointed, i);
        }
      }
    }
  }

  lemma ReplaySucceeds(agent: seq<Entry>, total: seq<Entry>, checkpointed: seq<Entry>)
    requires Combined(agent) && Combined(checkpointed) && Replayed(agent, total, checkpointed, |checkpointed|)
    requires forall i :: 0 <= i < |checkpointed| ==> NeedsCheckpointing(checkpointed[i].r.meta)
    ensures WellReserved(checkpointed) ==> forall made :: AreMadeOf(made, checkpointed) ==>
      AllRecorded(checkpointed) && Within(made, agent) && Replaced(agent, made, checkpointed, total)
  {
    hide NeedsCheckpointing, Base, Refined, Recorded, Combined, AreMadeOf;
    var n := |checkpointed|;
    assert Bases(checkpointed)[..n] == Bases(checkpointed) && Plain(checkpointed)[..n] == Plain(checkpointed);
    forall a ensures Held(Bases(checkpointed), a) <= Held(agent, a)
      ensures Held(total, a) == Merge(a, Held(agent, a) - Held(Bases(checkpointed), a), Held(Plain(checkpointed), a))
    {
      BasesFacts(checkpointed, n, a);
      PlainFacts(checkpointed, a);
      HeldByCombined(agent, a);
      HeldByCombined(total, a);
    }
    if WellReserved(checkpointed) {
      forall i | 0 <= i < n ensures Recorded(checkpointed[i].r.meta) {
        RecordedIff(checkpointed[i].r.meta);
      }
      forall made | AreMadeOf(made, checkpointed)
        ensures AllRecorded(checkpointed) && Within(made, agent) && Replaced(agent, made, checkpointed, total)
      {
        AreBases(made, checkpointed);
      }
    }
  }
}
