/**
The laws of resource arithmetic.

A collection is a vector of entries in no particular order. What it holds is told by one number
per `Atom`: the amount of a scalar class, whether a class has a member, the number of equal
indivisible disks, the number of copies of a shared volume. Addition and subtraction of
collections are proved to be addition and truncated subtraction of these numbers.
*/
module ResourceLaws {
  import opened ResourceModel

  datatype Atom =
    | AmountOf(meta: Meta)
    | MemberOf(meta: Meta, kind: MemberType, member: Member)
    | UnitsOf(unit: Resource)
    | CopiesOf(volume: Resource)

  /** Whether the atom belongs to the class of the resource, whatever its value. */
  predicate Touches(r: Resource, a: Atom) {
    match a
    case AmountOf(m) => !r.shared && !Indivisible(r.meta) && r.meta == m && r.value.Scalar?
    case MemberOf(m, k, _) => !r.shared && !Indivisible(r.meta) && r.meta == m && r.value.Members? && r.value.kind == k
    case UnitsOf(u) => !r.shared && Indivisible(r.meta) && r == u
    case CopiesOf(v) => r.shared && r == v
  }

  function MetaOf(a: Atom): Meta {
    match a
    case AmountOf(m) => m
    case MemberOf(m, _, _) => m
    case UnitsOf(u) => u.meta
    case CopiesOf(v) => v.meta
  }

  function Weight(e: Entry, a: Atom): int {
    if !Touches(e.r, a) then 0 else
    match a
    case AmountOf(_) => e.r.value.amount
    case MemberOf(_, _, x) => if x in e.r.value.members then 1 else 0
    case UnitsOf(_) => 1
    case CopiesOf(_) => e.count
  }

  /** How much of the atom the collection holds. */
  function Held(es: seq<Entry>, a: Atom): int {
    if es == [] then 0 else Weight(es[0], a) + Held(es[1..], a)
  }

  /** Members are merged as sets, everything else adds up. */
  function Merge(a: Atom, x: int, y: int): int {
    if a.MemberOf? then (if x < y then y else x) else x + y
  }

  /** Subtraction truncated at zero. */
  function Minus(x: int, y: int): int {
    if x < y then 0 else x - y
  }

  // ----- facts about `Held`

  lemma {:induction false} HeldConcat(es: seq<Entry>, fs: seq<Entry>, a: Atom)
    ensures Held(es + fs, a) == Held(es, a) + Held(fs, a)
  {
    if es == [] {
      assert es + fs == fs;
    } else {
      assert (es + fs)[1..] == es[1..] + fs;
      HeldConcat(es[1..], fs, a);
    }
  }

  lemma HeldSplit(es: seq<Entry>, i: nat, a: Atom)
    requires i < |es|
    ensures Held(es, a) == Held(es[..i], a) + Weight(es[i], a) + Held(es[i + 1..], a)
  {
    assert es == es[..i] + es[i..];
    HeldConcat(es[..i], es[i..], a);
    assert es[i..][1..] == es[i + 1..];
  }

  lemma HeldUpdate(es: seq<Entry>, i: nat, e: Entry, a: Atom)
    requires i < |es|
    ensures Held(es[i := e], a) == Held(es, a) - Weight(es[i], a) + Weight(e, a)
  {
    HeldSplit(es, i, a);
    HeldSplit(es[i := e], i, a);
    assert es[i := e][..i] == es[..i] && es[i := e][i + 1..] == es[i + 1..];
  }

  lemma HeldRemove(es: seq<Entry>, i: nat, a: Atom)
    requires i < |es|
    ensures Held(RemoveAt(es, i), a) == Held(es, a) - Weight(es[i], a)
  {
    var n := |es| - 1;
    var moved := es[i := es[n]];
    HeldUpdate(es, i, es[n], a);
    HeldSplit(moved, n, a);
    assert moved[n] == es[n] && moved[n + 1..] == [];
  }

  lemma {:induction false} HeldNone(es: seq<Entry>, a: Atom)
    requires forall i :: 0 <= i < |es| ==> !Touches(es[i].r, a)
    ensures Held(es, a) == 0
  {
    if es != [] {
      HeldNone(es[1..], a);
    }
  }

  lemma {:induction false} HeldNonNegative(es: seq<Entry>, a: Atom)
    requires forall i :: 0 <= i < |es| ==> ValidEntry(es[i])
    ensures Held(es, a) >= 0
  {
    if es != [] {
      HeldNonNegative(es[1..], a);
    }
  }

  lemma HeldByCombined(es: seq<Entry>, a: Atom)
    requires Combined(es)
    ensures Held(es, a) >= 0
  {
    HeldNonNegative(es, a);
  }

  /** A combined collection has at most one entry in a divisible or shared class. */
  lemma HeldOnce(es: seq<Entry>, i: nat, a: Atom)
    requires Combined(es) && i < |es| && Touches(es[i].r, a) && !a.UnitsOf?
    ensures Held(es, a) == Weight(es[i], a)
  {
    HeldSplit(es, i, a);
    forall j | 0 <= j < |es| && j != i ensures !Touches(es[j].r, a) {
      assert j < i ==> !Addable(es[j].r, es[i].r);
      assert i < j ==> !Addable(es[i].r, es[j].r);
    }
    HeldNone(es[..i], a);
    HeldNone(es[i + 1..], a);
  }

  // ----- addition

  lemma CombinedTail(es: seq<Entry>)
    requires Combined(es) && es != []
    ensures Combined(es[1..])
  {
  }

  lemma {:induction false} AddToRefines(es: seq<Entry>, e: Entry, a: Atom)
    requires Combined(es) && ValidEntry(e)
    ensures Held(AddTo(es, e), a) == Merge(a, Held(es, a), Weight(e, a))
  {
    HeldNonNegative(es, a);
    if es == [] {
      assert [e][1..] == [];
    } else if Addable(es[0].r, e.r) {
      var sum := [EntryAdd(es[0], e)] + es[1..];
      assert sum[1..] == es[1..];
      if Touches(e.r, a) {
        HeldOnce(es, 0, a);
      }
    } else {
      CombinedTail(es);
      HeldNonNegative(es[1..], a);
      AddToRefines(es[1..], e, a);
      assert ([es[0]] + AddTo(es[1..], e))[1..] == AddTo(es[1..], e);
    }
  }

  lemma {:induction false} AddToCombined(es: seq<Entry>, e: Entry)
    requires Combined(es) && ValidEntry(e)
    ensures Combined(AddTo(es, e))
    ensures forall r :: (forall i :: 0 <= i < |es| ==> !Addable(r, es[i].r)) && !Addable(r, e.r) ==>
              forall i :: 0 <= i < |AddTo(es, e)| ==> !Addable(r, AddTo(es, e)[i].r)
  {
    if es == [] {
    } else if Addable(es[0].r, e.r) {
      var sum := [EntryAdd(es[0], e)] + es[1..];
      forall i, j | 0 <= i < j < |sum| ensures !Addable(sum[i].r, sum[j].r) {
        assert !Addable(es[i].r, es[j].r);
      }
    } else {
      CombinedTail(es);
      AddToCombined(es[1..], e);
      var rest := AddTo(es[1..], e);
      forall i | 0 <= i < |es[1..]| ensures !Addable(es[0].r, es[1..][i].r) {
        assert !Addable(es[0].r, es[i + 1].r);
      }
      assert forall i :: 0 <= i < |rest| ==> !Addable(es[0].r, rest[i].r);
      var out := [es[0]] + rest;
      forall i, j | 0 <= i < j < |out| ensures !Addable(out[i].r, out[j].r) {
      }
    }
  }

  /** Adding a resource adds its numbers and keeps the collection combined. */
  lemma AddRefines(es: seq<Entry>, e: Entry)
    requires Combined(es) && (IsEmpty(e) || ValidEntry(e))
    ensures Combined(Add(es, e))
    ensures !IsEmpty(e) ==> forall a :: Held(Add(es, e), a) == Merge(a, Held(es, a), Weight(e, a))
  {
    if !IsEmpty(e) {
      AddToCombined(es, e);
      forall a ensures Held(Add(es, e), a) == Merge(a, Held(es, a), Weight(e, a)) {
        AddToRefines(es, e, a);
      }
    }
  }

  // ----- subtraction

  /** The numbers after the entry found has been reduced or removed. */
  lemma SubtractAt(es: seq<Entry>, i: nat, e: Entry, a: Atom)
    requires Combined(es) && ValidEntry(e) && i < |es| && Subtractable(es[i].r, e.r)
    ensures var left := EntrySubtract(es[i], e);
      var rest := if IsNegative(left) || IsEmpty(left) then 0 else Weight(left, a);
      Held(es, a) - Weight(es[i], a) + rest == Minus(Held(es, a), Weight(e, a))
  {
    HeldNonNegative(es, a);
    if Touches(es[i].r, a) && !a.UnitsOf? {
      HeldOnce(es, i, a);
      if a.MemberOf? {
        var x, v, w := a.member, es[i].r.value.members, e.r.value.members;
        assert x in v - w <==> x in v && x !in w;
      }
    } else if Touches(es[i].r, a) {
      HeldSplit(es, i, a);
      HeldNonNegative(es[..i], a);
      HeldNonNegative(es[i + 1..], a);
    }
  }

  lemma SubtractRefinesAt(es: seq<Entry>, e: Entry, a: Atom)
    requires Combined(es) && ValidEntry(e)
    ensures Held(Subtract(es, e), a) == Minus(Held(es, a), Weight(e, a))
  {
    var i := Find(es, e.r);
    if i < |es| {
      SubtractAt(es, i, e, a);
      HeldRemove(es, i, a);
      HeldUpdate(es, i, EntrySubtract(es[i], e), a);
    } else {
      HeldNonNegative(es, a);
      if Touches(e.r, a) {
        forall j | 0 <= j < |es| ensures !Touches(es[j].r, a) {
          assert !Subtractable(es[j].r, e.r);
        }
        HeldNone(es, a);
      }
    }
  }

  lemma RemoveCombined(es: seq<Entry>, i: nat)
    requires Combined(es) && i < |es|
    ensures Combined(RemoveAt(es, i))
  {
    var n := |es| - 1;
    var out := RemoveAt(es, i);
    forall j, k | 0 <= j < k < |out| ensures !Addable(out[j].r, out[k].r) {
      assert j != i && k != i ==> !Addable(es[j].r, es[k].r);
      assert j == i ==> !Addable(es[k].r, es[n].r);
      assert k == i ==> !Addable(es[j].r, es[n].r);
    }
  }

  lemma SubtractCombined(es: seq<Entry>, e: Entry)
    requires Combined(es) && ValidEntry(e)
    ensures Combined(Subtract(es, e))
  {
    var i := Find(es, e.r);
    if i < |es| {
      var left := EntrySubtract(es[i], e);
      if IsNegative(left) || IsEmpty(left) {
        RemoveCombined(es, i);
      } else {
        var out := es[i := left];
        forall j, k | 0 <= j < k < |out| ensures !Addable(out[j].r, out[k].r) {
          assert !Addable(es[j].r, es[k].r);
        }
      }
    }
  }

  /** Subtracting a resource subtracts its numbers, down to zero, and keeps the collection combined. */
  lemma SubtractRefines(es: seq<Entry>, e: Entry)
    requires Combined(es) && (IsEmpty(e) || ValidEntry(e))
    ensures Combined(Subtract(es, e))
    ensures !IsEmpty(e) ==> forall a :: Held(Subtract(es, e), a) == Minus(Held(es, a), Weight(e, a))
  {
    if !IsEmpty(e) {
      SubtractCombined(es, e);
      forall a ensures Held(Subtract(es, e), a) == Minus(Held(es, a), Weight(e, a)) {
        SubtractRefinesAt(es, e, a);
      }
    }
  }

  // ----- whole collections

  lemma CombinedFront(es: seq<Entry>)
    requires Combined(es) && es != []
    ensures Combined(es[..|es| - 1]) && ValidEntry(es[|es| - 1])
  {
  }

  lemma {:induction false} AddAllRefines(es: seq<Entry>, fs: seq<Entry>)
    requires Combined(es) && Combined(fs)
    ensures Combined(AddAll(es, fs))
    ensures forall a :: Held(AddAll(es, fs), a) == Merge(a, Held(es, a), Held(fs, a))
    decreases |fs|
  {
    var n := |fs| - 1;
    if fs != [] {
      CombinedFront(fs);
      AddAllRefines(es, fs[..n]);
      AddRefines(AddAll(es, fs[..n]), fs[n]);
    }
    forall a ensures Held(AddAll(es, fs), a) == Merge(a, Held(es, a), Held(fs, a)) {
      HeldNonNegative(es, a);
      if fs != [] {
        HeldSplit(fs, n, a);
        assert fs[n + 1..] == [];
        HeldNonNegative(fs[..n], a);
        if a.MemberOf? && Touches(fs[n].r, a) {
          HeldOnce(fs, n, a);
        }
      }
    }
  }

  lemma {:induction false} SubtractAllRefines(es: seq<Entry>, fs: seq<Entry>)
    requires Combined(es) && Combined(fs)
    ensures Combined(SubtractAll(es, fs))
    ensures forall a :: Held(SubtractAll(es, fs), a) == Minus(Held(es, a), Held(fs, a))
    decreases |fs|
  {
    var n := |fs| - 1;
    if fs != [] {
      CombinedFront(fs);
      SubtractAllRefines(es, fs[..n]);
      SubtractRefines(SubtractAll(es, fs[..n]), fs[n]);
    }
    forall a ensures Held(SubtractAll(es, fs), a) == Minus(Held(es, a), Held(fs, a)) {
      HeldNonNegative(es, a);
      if fs != [] {
        HeldSplit(fs, n, a);
        assert fs[n + 1..] == [];
        HeldNonNegative(fs[..n], a);
      }
    }
  }

  // ----- containment and equality

  /** A unit that is not a persistent volume: `Contains` asks for its presence, not for its number. */
  predicate Uncounted(a: Atom) {
    a.UnitsOf? && !IsPersistent(a.unit.meta)
  }

  function Demand(a: Atom, n: int): int {
    if Uncounted(a) && n > 1 then 1 else n
  }

  ghost predicate Covers(es: seq<Entry>, fs: seq<Entry>) {
    forall a :: Demand(a, Held(fs, a)) <= Held(es, a)
  }

  lemma ContainsEntryIff(es: seq<Entry>, e: Entry)
    requires Combined(es) && ValidEntry(e)
    ensures ContainsEntry(es, e) <==> forall a :: Weight(e, a) <= Held(es, a)
  {
    if i :| 0 <= i < |es| && EntryContains(es[i], e) {
      forall a ensures Weight(e, a) <= Held(es, a) {
        HeldNonNegative(es, a);
        if Touches(es[i].r, a) {
          HeldAtLeast(es, i, a);
        }
      }
    }
    if forall a :: Weight(e, a) <= Held(es, a) {
      var a := Witness(e);
      var i := HeldSome(es, a);
      EntryFits(es, i, e);
    }
  }

  lemma HeldAtLeast(es: seq<Entry>, i: nat, a: Atom)
    requires Combined(es) && i < |es|
    ensures Weight(es[i], a) <= Held(es, a)
  {
    HeldSplit(es, i, a);
    HeldNonNegative(es[..i], a);
    HeldNonNegative(es[i + 1..], a);
  }

  /** An atom of which the entry has some. */
  ghost function Witness(e: Entry): (a: Atom)
    requires ValidEntry(e)
    ensures Weight(e, a) > 0
  {
    if e.r.shared then CopiesOf(e.r)
    else if Indivisible(e.r.meta) then UnitsOf(e.r)
    else if e.r.value.Scalar? then AmountOf(e.r.meta)
    else
      assert exists x :: x in e.r.value.members;
      MemberOf(e.r.meta, e.r.value.kind, SomeMember(e.r.value.members))
  }

  ghost function SomeMember(s: set<Member>): (x: Member)
    requires s != {}
    ensures x in s
  {
    var x :| x in s; x
  }

  lemma {:induction false} HeldSome(es: seq<Entry>, a: Atom) returns (i: nat)
    requires Held(es, a) > 0
    ensures i < |es| && Touches(es[i].r, a)
  {
    if Touches(es[0].r, a) {
      i := 0;
    } else {
      i := HeldSome(es[1..], a);
      i := i + 1;
    }
  }

  lemma EntryFits(es: seq<Entry>, i: nat, e: Entry)
    requires Combined(es) && ValidEntry(e) && i < |es| && Touches(es[i].r, Witness(e))
    requires forall a :: Weight(e, a) <= Held(es, a)
    ensures EntryContains(es[i], e)
  {
    if e.r.shared {
      HeldOnce(es, i, CopiesOf(e.r));
      assert Weight(e, CopiesOf(e.r)) <= Held(es, CopiesOf(e.r));
    } else if !Indivisible(e.r.meta) {
      if e.r.value.Scalar? {
        var a := AmountOf(e.r.meta);
        HeldOnce(es, i, a);
        assert Weight(e, a) <= Held(es, a);
      } else {
        forall x | x in e.r.value.members ensures x in es[i].r.value.members {
          var a := MemberOf(e.r.meta, e.r.value.kind, x);
          HeldOnce(es, i, a);
          assert Weight(e, a) <= Held(es, a);
        }
      }
    }
  }

  /** What `Contains` decides, exactly. */
  lemma {:induction false} ContainsIff(es: seq<Entry>, fs: seq<Entry>)
    requires Combined(es) && Combined(fs)
    ensures Contains(es, fs) <==> Covers(es, fs)
    decreases |fs|
  {
    if fs == [] {
      forall a ensures Demand(a, Held(fs, a)) <= Held(es, a) { HeldNonNegative(es, a); }
    } else {
      var f, rest := fs[0], fs[1..];
      var es' := if IsPersistent(f.r.meta) then Subtract(es, f) else es;
      CombinedTail(fs);
      SubtractRefines(es, f);
      ContainsEntryIff(es, f);
      ContainsIff(es', rest);
      if (forall a :: Weight(f, a) <= Held(es, a)) && Covers(es', rest) {
        forall a ensures Demand(a, Held(fs, a)) <= Held(es, a) { CoversCons(es, fs, a); }
      }
      if Covers(es, fs) {
        forall a ensures Weight(f, a) <= Held(es, a) && Demand(a, Held(rest, a)) <= Held(es', a) {
          CoversCons(es, fs, a);
          assert Demand(a, Held(fs, a)) <= Held(es, a);
        }
      }
    }
  }

  /** The demand of a collection, split into that of its first entry and that of the others. */
  lemma CoversCons(es: seq<Entry>, fs: seq<Entry>, a: Atom)
    requires Combined(es) && Combined(fs) && fs != []
    ensures var w, n, h := Weight(fs[0], a), Held(fs[1..], a), Held(es, a);
      var h' := if IsPersistent(fs[0].r.meta) then Minus(h, w) else h;
      Demand(a, Held(fs, a)) <= h <==> w <= h && Demand(a, n) <= h'
  {
    HeldNonNegative(es, a);
    HeldNonNegative(fs[1..], a);
    if Touches(fs[0].r, a) && !a.UnitsOf? {
      HeldOnce(fs, 0, a);
    }
  }

  ghost predicate Same(es: seq<Entry>, fs: seq<Entry>) {
    forall a :: Held(es, a) == Held(fs, a)
  }

  /** No two equal exclusive disks that are not persistent volumes. */
  ghost predicate Countable(es: seq<Entry>) {
    forall a :: Uncounted(a) ==> Held(es, a) <= 1
  }

  /** Equality of collections is equality of all that they hold, when equal disks do not repeat. */
  lemma EqualIff(es: seq<Entry>, fs: seq<Entry>)
    requires Combined(es) && Combined(fs)
    ensures Same(es, fs) ==> Equal(es, fs)
    ensures Countable(es) && Countable(fs) ==> (Equal(es, fs) <==> Same(es, fs))
  {
    ContainsIff(es, fs);
    ContainsIff(fs, es);
    forall a ensures Held(es, a) >= 0 && Held(fs, a) >= 0 { HeldNonNegative(es, a); HeldNonNegative(fs, a); }
    if Countable(es) && Countable(fs) && Equal(es, fs) {
      forall a ensures Held(es, a) == Held(fs, a) {
        assert Demand(a, Held(fs, a)) <= Held(es, a);
        assert Demand(a, Held(es, a)) <= Held(fs, a);
      }
    }
  }

  // ----- laws

  /** No member of a class is in both. */
  ghost predicate MembersApart(es: seq<Entry>, fs: seq<Entry>) {
    forall a: Atom :: a.MemberOf? ==> Held(es, a) == 0 || Held(fs, a) == 0
  }

  /** Adding and taking away again restores the collection exactly when no members overlap. */
  lemma AddThenSubtract(es: seq<Entry>, fs: seq<Entry>)
    requires Combined(es) && Combined(fs)
    ensures Same(SubtractAll(AddAll(es, fs), fs), es) <==> MembersApart(es, fs)
  {
    var sum := AddAll(es, fs);
    AddAllRefines(es, fs);
    SubtractAllRefines(sum, fs);
    forall a: Atom
      ensures Held(SubtractAll(sum, fs), a) == Held(es, a) <==> (a.MemberOf? ==> Held(es, a) == 0 || Held(fs, a) == 0)
    {
      HeldNonNegative(es, a);
      HeldNonNegative(fs, a);
      if a.MemberOf? {
        MemberHeldOnce(es, a);
        MemberHeldOnce(fs, a);
      }
    }
  }

  lemma MemberHeldOnce(es: seq<Entry>, a: Atom)
    requires Combined(es) && a.MemberOf?
    ensures 0 <= Held(es, a) <= 1
  {
    HeldNonNegative(es, a);
    if Held(es, a) > 0 {
      var i := HeldSome(es, a);
      HeldOnce(es, i, a);
    }
  }

  ghost predicate Within(fs: seq<Entry>, es: seq<Entry>) {
    forall a :: Held(fs, a) <= Held(es, a)
  }

  /** Taking away and putting back restores the collection exactly when it held all of it. */
  lemma SubtractThenAdd(es: seq<Entry>, fs: seq<Entry>)
    requires Combined(es) && Combined(fs)
    ensures Same(AddAll(SubtractAll(es, fs), fs), es) <==> Within(fs, es)
    ensures Countable(fs) ==> (Contains(es, fs) <==> Within(fs, es))
  {
    var diff := SubtractAll(es, fs);
    SubtractAllRefines(es, fs);
    AddAllRefines(diff, fs);
    ContainsIff(es, fs);
    forall a ensures Held(AddAll(diff, fs), a) == Held(es, a) <==> Held(fs, a) <= Held(es, a) {
      HeldNonNegative(es, a);
      HeldNonNegative(fs, a);
      if a.MemberOf? {
        MemberHeldOnce(es, a);
        MemberHeldOnce(fs, a);
      }
    }
    if Countable(fs) {
      forall a ensures Demand(a, Held(fs, a)) == Held(fs, a) {
      }
    }
  }

  lemma AddCommutes(es: seq<Entry>, fs: seq<Entry>)
    requires Combined(es) && Combined(fs)
    ensures Same(AddAll(es, fs), AddAll(fs, es))
  {
    AddAllRefines(es, fs);
    AddAllRefines(fs, es);
  }

  lemma AddAssociates(es: seq<Entry>, fs: seq<Entry>, gs: seq<Entry>)
    requires Combined(es) && Combined(fs) && Combined(gs)
    ensures Same(AddAll(AddAll(es, fs), gs), AddAll(es, AddAll(fs, gs)))
  {
    AddAllRefines(es, fs);
    AddAllRefines(AddAll(es, fs), gs);
    AddAllRefines(fs, gs);
    AddAllRefines(es, AddAll(fs, gs));
  }

  // ----- what is held determines the entries

  /** The entry of another collection that holds the same. */
  lemma SameEntry(es: seq<Entry>, fs: seq<Entry>) returns (j: nat)
    requires Combined(es) && Combined(fs) && Same(es, fs) && es != []
    ensures j < |fs| && fs[j] == es[0]
  {
    var e := es[0];
    var a := Witness(e);
    HeldAtLeast(es, 0, a);
    assert Held(fs, a) > 0;
    j := HeldSome(fs, a);
    if !a.UnitsOf? {
      HeldOnce(es, 0, a);
      HeldOnce(fs, j, a);
      if a.MemberOf? {
        forall x ensures x in e.r.value.members <==> x in fs[j].r.value.members {
          var b := MemberOf(e.r.meta, e.r.value.kind, x);
          HeldOnce(es, 0, b);
          HeldOnce(fs, j, b);
          assert Held(es, b) == Held(fs, b);
        }
        assert e.r.value.members == fs[j].r.value.members;
      }
    }
  }

  lemma {:induction false} SamePermuted(es: seq<Entry>, fs: seq<Entry>)
    requires Combined(es) && Combined(fs) && Same(es, fs)
    ensures multiset(es) == multiset(fs)
    decreases |es|
  {
    if es == [] {
      if fs != [] {
        HeldAtLeast(fs, 0, Witness(fs[0]));
        assert false;
      }
    } else {
      var j := SameEntry(es, fs);
      var rest := RemoveAt(fs, j);
      WithoutOne(es, fs, j);
      RemoveCombined(fs, j);
      CombinedTail(es);
      forall a ensures Held(es[1..], a) == Held(rest, a) {
        HeldRemove(fs, j, a);
        assert Held(es, a) == Held(fs, a);
      }
      SamePermuted(es[1..], rest);
      assert multiset(es) == multiset(rest) + multiset{es[0]} == multiset(fs);
    }
  }

  lemma {:induction false} PermutedSame(es: seq<Entry>, fs: seq<Entry>, a: Atom)
    requires multiset(es) == multiset(fs)
    ensures Held(es, a) == Held(fs, a)
    decreases |es|
  {
    if es == [] {
      assert |multiset(fs)| == 0;
    } else {
      assert es[0] in multiset(fs);
      var j :| 0 <= j < |fs| && fs[j] == es[0];
      WithoutOne(es, fs, j);
      PermutedSame(es[1..], RemoveAt(fs, j), a);
      HeldRemove(fs, j, a);
    }
  }

  /** Two combined collections hold the same exactly when they have the same entries, in any order. */
  lemma SameIffPermuted(es: seq<Entry>, fs: seq<Entry>)
    requires Combined(es) && Combined(fs)
    ensures Same(es, fs) <==> multiset(es) == multiset(fs)
  {
    if Same(es, fs) {
      SamePermuted(es, fs);
    } else if multiset(es) == multiset(fs) {
      forall a ensures Held(es, a) == Held(fs, a) { PermutedSame(es, fs, a); }
    }
  }

  lemma WithoutOne(es: seq<Entry>, fs: seq<Entry>, j: nat)
    requires es != [] && j < |fs| && fs[j] == es[0]
    ensures multiset(es[1..]) == multiset(es) - multiset{es[0]}
    ensures multiset(RemoveAt(fs, j)) == multiset(fs) - multiset{es[0]}
    ensures es[0] in multiset(es) && es[0] in multiset(fs)
  {
    assert es == [es[0]] + es[1..];
    var n := |fs| - 1;
    assert fs == fs[..n] + [fs[n]];
    if j < n {
      assert RemoveAt(fs, j) == fs[..n][j := fs[n]];
    } else {
      assert RemoveAt(fs, j) == fs[..n];
    }
  }

  /** `Contains` can be satisfied with fewer disks than asked for when they are equal. */
  lemma RepeatedDiskIsFound(r: Resource)
    requires Valid(r) && !r.shared && Indivisible(r.meta) && !IsPersistent(r.meta) && !IsEmptyValue(r.value)
    ensures var one, two := [Single(r)], [Single(r), Single(r)];
      Combined(one) && Combined(two) && Contains(one, two) && !Within(two, one)
  {
    var one, two := [Single(r)], [Single(r), Single(r)];
    assert two[1..] == one && one[1..] == [];
    assert EntryContains(one[0], two[0]);
    var a := UnitsOf(r);
    assert Held([], a) == 0;
    assert Held(one, a) == Weight(Single(r), a) + Held([], a) == 1;
    assert Held(two, a) == Weight(Single(r), a) + Held(one, a) == 2;
  }

  /** The resources of a collection as plain objects: the copies of a shared volume become one. */
  function Plain(es: seq<Entry>): seq<Entry> {
    seq(|es|, i requires 0 <= i < |es| => Single(es[i].r))
  }

  lemma PlainCombined(es: seq<Entry>)
    requires Combined(es)
    ensures Combined(Plain(es))
  {
    var ps := Plain(es);
    forall i, j | 0 <= i < j < |ps| ensures !Addable(ps[i].r, ps[j].r) {
      assert !Addable(es[i].r, es[j].r);
    }
  }
}
