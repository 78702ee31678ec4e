/**
Offer operations as resource conversions: some resources are consumed, others take their place,
and the total amount of every resource name stays the same.
*/
module Conversions {
  import opened ResourceModel
  import opened ResourceLaws

  // ----- totals

  function AmountNamed(r: Resource, name: string): int {
    if r.meta.name == name && r.value.Scalar? then r.value.amount else 0
  }

  /** What `cpus()`, `mem()`, `disk()` add up: a shared volume counts once, whatever its copies. */
  function ScalarTotal(es: seq<Entry>, name: string): int {
    if es == [] then 0 else AmountNamed(es[0].r, name) + ScalarTotal(es[1..], name)
  }

  /** What `ports()` collects. */
  ghost predicate HasMember(es: seq<Entry>, name: string, kind: MemberType, x: Member) {
    exists m: Meta :: m.name == name && Held(es, MemberOf(m, kind, x)) > 0
  }

  ghost predicate SameTotals(es: seq<Entry>, fs: seq<Entry>) {
    && (forall name :: ScalarTotal(es, name) == ScalarTotal(fs, name))
    && (forall name, kind, x :: HasMember(es, name, kind, x) <==> HasMember(fs, name, kind, x))
  }

  lemma {:induction false} TotalConcat(es: seq<Entry>, fs: seq<Entry>, name: string)
    ensures ScalarTotal(es + fs, name) == ScalarTotal(es, name) + ScalarTotal(fs, name)
  {
    if es == [] {
      assert es + fs == fs;
    } else {
      assert (es + fs)[1..] == es[1..] + fs;
      TotalConcat(es[1..], fs, name);
    }
  }

  lemma TotalSplit(es: seq<Entry>, i: nat, name: string)
    requires i < |es|
    ensures ScalarTotal(es, name) == ScalarTotal(es[..i], name) + AmountNamed(es[i].r, name) + ScalarTotal(es[i + 1..], name)
  {
    assert es == es[..i] + es[i..];
    TotalConcat(es[..i], es[i..], name);
    assert es[i..][1..] == es[i + 1..];
  }

  lemma TotalUpdate(es: seq<Entry>, i: nat, e: Entry, name: string)
    requires i < |es|
    ensures ScalarTotal(es[i := e], name) == ScalarTotal(es, name) - AmountNamed(es[i].r, name) + AmountNamed(e.r, name)
  {
    TotalSplit(es, i, name);
    TotalSplit(es[i := e], i, name);
    assert es[i := e][..i] == es[..i] && es[i := e][i + 1..] == es[i + 1..];
  }

  lemma TotalRemove(es: seq<Entry>, i: nat, name: string)
    requires i < |es|
    ensures ScalarTotal(RemoveAt(es, i), name) == ScalarTotal(es, name) - AmountNamed(es[i].r, name)
  {
    var n := |es| - 1;
    var moved := es[i := es[n]];
    TotalUpdate(es, i, es[n], name);
    TotalSplit(moved, n, name);
    assert moved[n] == es[n] && moved[n + 1..] == [];
  }

  /** The order of the entries does not matter. */
  lemma {:induction false} PermutedTotal(es: seq<Entry>, fs: seq<Entry>, name: string)
    requires multiset(es) == multiset(fs)
    ensures ScalarTotal(es, name) == ScalarTotal(fs, name)
    decreases |es|
  {
    if es == [] {
      assert |multiset(fs)| == 0;
    } else {
      assert es[0] in multiset(fs);
      var j :| 0 <= j < |fs| && fs[j] == es[0];
      WithoutOne(es, fs, j);
      PermutedTotal(es[1..], RemoveAt(fs, j), name);
      TotalRemove(fs, j, name);
    }
  }

  /** Adding a resource that is not shared adds its amount; a shared one counts when it is new. */
  lemma {:induction false} TotalAddTo(es: seq<Entry>, e: Entry, name: string)
    requires ValidEntry(e)
    ensures ScalarTotal(AddTo(es, e), name) == ScalarTotal(es, name) +
      if e.r.shared && (exists i :: 0 <= i < |es| && es[i].r == e.r) then 0 else AmountNamed(e.r, name)
  {
    if es == [] {
      assert [e][1..] == [];
    } else if Addable(es[0].r, e.r) {
      assert ([EntryAdd(es[0], e)] + es[1..])[1..] == es[1..];
    } else {
      TotalAddTo(es[1..], e, name);
      assert ([es[0]] + AddTo(es[1..], e))[1..] == AddTo(es[1..], e);
      if i :| 0 <= i < |es| && es[i].r == e.r && e.r.shared {
        assert es[1..][i - 1].r == e.r;
      }
    }
  }

  /** Subtracting a resource that is contained takes its amount away, unless copies of it remain. */
  lemma TotalSubtract(es: seq<Entry>, e: Entry, name: string)
    requires Combined(es) && ValidEntry(e) && ContainsEntry(es, e)
    ensures ScalarTotal(Subtract(es, e), name) == ScalarTotal(es, name) -
      if e.r.shared && Held(es, CopiesOf(e.r)) > e.count then 0 else AmountNamed(e.r, name)
  {
    var i := Find(es, e.r);
    var k :| 0 <= k < |es| && EntryContains(es[k], e);
    assert Subtractable(es[k].r, e.r);
    SameFound(es, i, k, e);
    var left := EntrySubtract(es[i], e);
    TotalUpdate(es, i, left, name);
    TotalRemove(es, i, name);
    if e.r.shared {
      HeldOnce(es, i, CopiesOf(e.r));
    }
  }

  /** In a combined collection the first entry to subtract from contains what any entry contains. */
  lemma SameFound(es: seq<Entry>, i: nat, k: nat, e: Entry)
    requires Combined(es) && i == Find(es, e.r) && k < |es| && EntryContains(es[k], e) && ValidEntry(e)
    ensures i <= k && EntryContains(es[i], e)
  {
    if i < k {
      assert !Addable(es[i].r, es[k].r);
    }
  }

  ghost predicate NoneShared(es: seq<Entry>) {
    forall i :: 0 <= i < |es| ==> !es[i].r.shared
  }

  lemma {:induction false} TotalAddAll(es: seq<Entry>, fs: seq<Entry>, name: string)
    requires Combined(es) && Combined(fs) && NoneShared(fs)
    ensures ScalarTotal(AddAll(es, fs), name) == ScalarTotal(es, name) + ScalarTotal(fs, name)
    decreases |fs|
  {
    if fs != [] {
      var n := |fs| - 1;
      CombinedFront(fs);
      TotalAddAll(es, fs[..n], name);
      TotalAddTo(AddAll(es, fs[..n]), fs[n], name);
      TotalSplit(fs, n, name);
      assert fs[n + 1..] == [];
    }
  }

  lemma {:induction false} TotalSubtractAll(es: seq<Entry>, fs: seq<Entry>, name: string)
    requires Combined(es) && Combined(fs) && NoneShared(fs) && Within(fs, es)
    ensures ScalarTotal(SubtractAll(es, fs), name) == ScalarTotal(es, name) - ScalarTotal(fs, name)
    decreases |fs|
  {
    hide Subtract, ContainsEntry, AmountNamed;
    if fs != [] {
      var n := |fs| - 1;
      var front, e := fs[..n], fs[n];
      CombinedFront(fs);
      SubtractAllRefines(es, front);
      var rest := SubtractAll(es, front);
      forall a ensures Held(front, a) <= Held(es, a) && Weight(e, a) <= Held(rest, a) {
        HeldSplit(fs, n, a);
        assert fs[n + 1..] == [];
        HeldNonNegative(front, a);
        assert Held(fs, a) <= Held(es, a);
      }
      TotalSubtractAll(es, front, name);
      ContainsEntryIff(rest, e);
      TotalSubtract(rest, e, name);
      TotalSplit(fs, n, name);
      assert fs[n + 1..] == [];
    }
  }

  /** A member is held after a conversion when it was left over or is new. */
  lemma MemberConverted(es: seq<Entry>, consumed: seq<Entry>, converted: seq<Entry>, a: Atom)
    requires Combined(es) && Combined(consumed) && Combined(converted) && a.MemberOf?
    ensures Held(AddAll(SubtractAll(es, consumed), converted), a) > 0 <==>
      (Held(es, a) > 0 && Held(consumed, a) == 0) || Held(converted, a) > 0
    ensures Held(consumed, a) >= 0
  {
    var rest := SubtractAll(es, consumed);
    SubtractAllRefines(es, consumed);
    AddAllRefines(rest, converted);
    MemberHeldOnce(es, a);
    MemberHeldOnce(consumed, a);
    MemberHeldOnce(converted, a);
  }

  /** Members of the same name in what is consumed and converted make no difference to the rest. */
  lemma MembersConverted(es: seq<Entry>, consumed: seq<Entry>, converted: seq<Entry>, name: string, kind: MemberType, x: Member)
    requires Combined(es) && Combined(consumed) && Combined(converted) && Within(consumed, es)
    requires HasMember(consumed, name, kind, x) <==> HasMember(converted, name, kind, x)
    ensures var result := AddAll(SubtractAll(es, consumed), converted);
      HasMember(result, name, kind, x) <==> HasMember(es, name, kind, x)
  {
    hide Combined, Held, AddAll, SubtractAll, Within;
    var result := AddAll(SubtractAll(es, consumed), converted);
    forall m: Meta ensures var a := MemberOf(m, kind, x);
      && 0 <= Held(consumed, a) <= Held(es, a)
      && (Held(result, a) > 0 <==> (Held(es, a) > 0 && Held(consumed, a) == 0) || Held(converted, a) > 0)
    {
      MemberConverted(es, consumed, converted, MemberOf(m, kind, x));
      WithinAt(consumed, es, MemberOf(m, kind, x));
    }
  }

  lemma WithinAt(fs: seq<Entry>, es: seq<Entry>, a: Atom)
    requires Within(fs, es)
    ensures Held(fs, a) <= Held(es, a)
  {
  }

  /** The heart of conservation: what is consumed is held, and what replaces it is as much. */
  lemma ConversionConserves(es: seq<Entry>, consumed: seq<Entry>, converted: seq<Entry>)
    requires Combined(es) && Combined(consumed) && Combined(converted)
    requires NoneShared(consumed) && NoneShared(converted)
    requires Within(consumed, es) && SameTotals(consumed, converted)
    ensures var result := AddAll(SubtractAll(es, consumed), converted); Combined(result) && SameTotals(result, es)
  {
    var rest := SubtractAll(es, consumed);
    SubtractAllRefines(es, consumed);
    AddAllRefines(rest, converted);
    forall name ensures ScalarTotal(AddAll(rest, converted), name) == ScalarTotal(es, name) {
      TotalSubtractAll(es, consumed, name);
      TotalAddAll(rest, converted, name);
    }
    forall name, kind, x
      ensures HasMember(AddAll(rest, converted), name, kind, x) <==> HasMember(es, name, kind, x)
    {
      MembersConverted(es, consumed, converted, name, kind, x);
    }
  }

  // ----- stacks of reservations

  datatype StackOp = Push(reservation: Reservation) | Pop | Clear

  function Restacked(e: Entry, op: StackOp): Entry {
    var rs := e.r.meta.reservations;
    var rs' := match op
               case Push(reservation) => rs + [reservation]
               case Pop => if rs == [] then rs else rs[..|rs| - 1]
               case Clear => [];
    e.(r := e.r.(meta := e.r.meta.(reservations := rs')))
  }

  /** `pushReservation`, `popReservation` and `toUnreserved`: every entry is changed and added anew. */
  function Restack(es: seq<Entry>, op: StackOp): seq<Entry> {
    if es == [] then [] else Add(Restack(es[..|es| - 1], op), Restacked(es[|es| - 1], op))
  }

  lemma {:induction false} RestackCombined(es: seq<Entry>, op: StackOp)
    requires Combined(es)
    ensures Combined(Restack(es, op))
  {
    if es != [] {
      var n := |es| - 1;
      CombinedFront(es);
      RestackCombined(es[..n], op);
      AddRefines(Restack(es[..n], op), Restacked(es[n], op));
    }
  }

  predicate EntryHas(e: Entry, name: string, kind: MemberType, x: Member) {
    e.r.meta.name == name && e.r.value.Members? && e.r.value.kind == kind && x in e.r.value.members
  }

  lemma HasMemberAdd(es: seq<Entry>, e: Entry, name: string, kind: MemberType, x: Member)
    requires Combined(es) && ValidEntry(e)
    ensures HasMember(Add(es, e), name, kind, x) <==> HasMember(es, name, kind, x) || EntryHas(e, name, kind, x)
    ensures HasMember(es + [e], name, kind, x) <==> HasMember(es, name, kind, x) || EntryHas(e, name, kind, x)
  {
    AddRefines(es, e);
    forall m: Meta
      ensures var a := MemberOf(m, kind, x);
        && (Held(Add(es, e), a) > 0 <==> Held(es, a) > 0 || Weight(e, a) > 0)
        && (Held(es + [e], a) > 0 <==> Held(es, a) > 0 || Weight(e, a) > 0)
    {
      var a := MemberOf(m, kind, x);
      HeldNonNegative(es, a);
      HeldConcat(es, [e], a);
      assert [e][1..] == [];
    }
    if EntryHas(e, name, kind, x) {
      assert Weight(e, MemberOf(e.r.meta, kind, x)) > 0;
    }
  }

  /** Moving reservations moves no amounts. */
  lemma {:induction false} RestackTotals(es: seq<Entry>, op: StackOp)
    requires Combined(es) && NoneShared(es)
    ensures SameTotals(Restack(es, op), es) && NoneShared(Restack(es, op))
  {
    if es != [] {
      var n := |es| - 1;
      var front, e := es[..n], Restacked(es[n], op);
      assert es == front + [es[n]];
      CombinedFront(es);
      RestackCombined(front, op);
      RestackTotals(front, op);
      forall name ensures ScalarTotal(Restack(es, op), name) == ScalarTotal(es, name) {
        TotalAddTo(Restack(front, op), e, name);
        TotalSplit(es, n, name);
        assert es[n + 1..] == [];
      }
      forall name, kind, x ensures HasMember(Restack(es, op), name, kind, x) <==> HasMember(es, name, kind, x) {
        HasMemberAdd(Restack(front, op), e, name, kind, x);
        HasMemberAdd(front, es[n], name, kind, x);
      }
      AddNoneShared(Restack(front, op), e);
    }
  }

  lemma {:induction false} AddNoneShared(es: seq<Entry>, e: Entry)
    requires NoneShared(es) && !e.r.shared
    ensures NoneShared(AddTo(es, e))
  {
    if es != [] && !Addable(es[0].r, e.r) {
      AddNoneShared(es[1..], e);
    }
  }
}
