/**
Shrinking resources to target quantities or limits: resources are visited in a shuffled order, each
is kept whole, chopped down to what is left of its target, or dropped.
*/
module Shrinking {
  import opened Options
  import opened ResourceModel
  import opened ResourceLaws
  import opened Conversions
  import opened Disks
  import Quantities

  // ----- one resource

  /** Chops a scalar resource down to the target if it can be divided. */
  method Shrink(r: Resource, target: int) returns (ok: bool, out: Resource)
    requires Valid(r) && r.value.Scalar? && target >= 0
    ensures ok <==> r.value.amount <= target || !UsedWhole(r.meta.disk)
    ensures ok ==> out == r.(value := Scalar(Min(r.value.amount, target))) && ContainsResource(r, out)
    ensures !ok ==> out == r
  {
    UsedWholeIff(r.meta);
    if r.value.amount <= target {
      return true, r;
    }
    if r.meta.disk.Some? {
      var smaller := r.(value := Scalar(target));
      if ContainsResource(r, smaller) {
        return true, smaller;
      }
      return false, r;
    }
    return true, r.(value := Scalar(target));
  }

  function Min(x: int, y: int): int {
    if x <= y then x else y
  }

  // ----- what is left of a target

  /** What is left of the target of each name; none where there is no limit. */
  type Room = string -> Option<int>

  function NameOf(a: Atom): string {
    MetaOf(a).name
  }

  ghost predicate Divisible(es: seq<Entry>, name: string) {
    forall i :: 0 <= i < |es| && es[i].r.meta.name == name ==> !Indivisible(es[i].r.meta)
  }

  /** Whole disks and volumes. */
  ghost predicate IsWhole(a: Atom) {
    a.UnitsOf? || a.CopiesOf?
  }

  function WholeAmount(a: Atom): int {
    var v := if a.UnitsOf? then a.unit.value else if a.CopiesOf? then a.volume.value else Scalar(0);
    if v.Scalar? then v.amount else 0
  }

  /** Every kept resource is part of what has been visited; the target is used up by what is kept. */
  ghost predicate Accounted(seen: seq<Entry>, kept: seq<Entry>, start: Room, room: Room) {
    && (forall a :: Held(kept, a) <= Held(seen, a))
    && (forall n :: room(n).Some? == start(n).Some?)
    && (forall n :: room(n).Some? ==> room(n).value >= 0 && ScalarTotal(kept, n) + room(n).value == start(n).value)
  }

  /** As much as possible is kept of what can be divided. */
  ghost predicate Exact(seen: seq<Entry>, kept: seq<Entry>, start: Room) {
    forall n :: start(n).Some? && Divisible(seen, n) ==> ScalarTotal(kept, n) == Min(ScalarTotal(seen, n), start(n).value)
  }

  /** A whole disk or volume is dropped only when it is larger than what is left. */
  ghost predicate Greedy(seen: seq<Entry>, kept: seq<Entry>, room: Room) {
    forall a :: IsWhole(a) && room(NameOf(a)).Some? && Held(kept, a) < Held(seen, a) ==> room(NameOf(a)).value < WholeAmount(a)
  }

  /** Names without a limit are kept, names with none left from the start are dropped. */
  ghost predicate Edges(seen: seq<Entry>, kept: seq<Entry>, start: Room) {
    && (forall a :: start(NameOf(a)) == None ==> Held(kept, a) == Held(seen, a))
    && (forall a :: start(NameOf(a)) == Some(0) ==> Held(kept, a) == 0)
  }

  ghost predicate Progress(seen: seq<Entry>, kept: seq<Entry>, start: Room, room: Room) {
    && Combined(kept)
    && Accounted(seen, kept, start, room)
    && Exact(seen, kept, start)
    && Greedy(seen, kept, room)
    && Edges(seen, kept, start)
  }

  // ----- one more resource

  /** Nothing but whole disks and divisible amounts occurs twice among the visited. */
  ghost predicate Once(es: seq<Entry>) {
    forall a: Atom :: a.MemberOf? || a.CopiesOf? ==> Held(es, a) <= 1
  }

  lemma SeenMore(seen: seq<Entry>, e: Entry)
    ensures forall a :: Held(seen + [e], a) == Held(seen, a) + Weight(e, a)
    ensures forall n :: ScalarTotal(seen + [e], n) == ScalarTotal(seen, n) + AmountNamed(e.r, n)
    ensures forall n :: Divisible(seen + [e], n) ==> Divisible(seen, n) && (e.r.meta.name == n ==> !Indivisible(e.r.meta))
  {
    assert [e][1..] == [];
    forall a ensures Held(seen + [e], a) == Held(seen, a) + Weight(e, a) { HeldConcat(seen, [e], a); }
    forall n ensures ScalarTotal(seen + [e], n) == ScalarTotal(seen, n) + AmountNamed(e.r, n) { TotalConcat(seen, [e], n); }
    forall n | Divisible(seen + [e], n)
      ensures Divisible(seen, n) && (e.r.meta.name == n ==> !Indivisible(e.r.meta))
    {
      forall i | 0 <= i < |seen| && seen[i].r.meta.name == n ensures !Indivisible(seen[i].r.meta) {
        assert (seen + [e])[i] == seen[i];
      }
      assert (seen + [e])[|seen|] == e;
    }
  }

  lemma WeightName(e: Entry, a: Atom)
    ensures Weight(e, a) != 0 ==> NameOf(a) == e.r.meta.name
    ensures ValidEntry(e) ==> Weight(e, a) >= 0
    ensures ValidEntry(e) && IsWhole(a) && Weight(e, a) != 0 ==> WholeAmount(a) == AmountNamed(e.r, e.r.meta.name)
  {
  }

  lemma {:induction false} TotalNonNegative(es: seq<Entry>, n: string)
    requires forall i :: 0 <= i < |es| ==> ValidEntry(es[i])
    ensures ScalarTotal(es, n) >= 0
  {
    if es != [] {
      TotalNonNegative(es[1..], n);
    }
  }

  /** A resource is dropped: nothing is left for it, or it is whole and too large. */
  lemma Drop(seen: seq<Entry>, kept: seq<Entry>, start: Room, room: Room, e: Entry)
    requires Progress(seen, kept, start, room) && ValidEntry(e) && e.count == 1
    requires var left := room(e.r.meta.name);
      left.Some? && (left.value == 0 || (Indivisible(e.r.meta) && left.value < AmountNamed(e.r, e.r.meta.name)))
    ensures Progress(seen + [e], kept, start, room)
  {
    var more := seen + [e];
    SeenMore(seen, e);
    forall a ensures Held(seen, a) <= Held(more, a) && (NameOf(a) != e.r.meta.name ==> Held(seen, a) == Held(more, a)) {
      WeightName(e, a);
    }
    DropGreedy(seen, kept, room, e);
    DropExact(seen, kept, start, room, e);
  }

  lemma DropGreedy(seen: seq<Entry>, kept: seq<Entry>, room: Room, e: Entry)
    requires Greedy(seen, kept, room) && ValidEntry(e) && e.count == 1
    requires var left := room(e.r.meta.name);
      left.Some? && (left.value == 0 || (Indivisible(e.r.meta) && left.value < AmountNamed(e.r, e.r.meta.name)))
    ensures Greedy(seen + [e], kept, room)
  {
    SeenMore(seen, e);
    forall a | IsWhole(a) && room(NameOf(a)).Some? && Held(kept, a) < Held(seen + [e], a)
      ensures room(NameOf(a)).value < WholeAmount(a)
    {
      WeightName(e, a);
    }
  }

  lemma DropExact(seen: seq<Entry>, kept: seq<Entry>, start: Room, room: Room, e: Entry)
    requires Exact(seen, kept, start) && Accounted(seen, kept, start, room) && ValidEntry(e) && e.count == 1
    requires var left := room(e.r.meta.name);
      left.Some? && (left.value == 0 || Indivisible(e.r.meta))
    ensures Exact(seen + [e], kept, start)
  {
    SeenMore(seen, e);
    forall n | start(n).Some? && Divisible(seen + [e], n)
      ensures ScalarTotal(kept, n) == Min(ScalarTotal(seen + [e], n), start(n).value)
    {
      assert Divisible(seen, n);
      assert room(n).Some?;
    }
  }

  /** What is kept of a resource: all of it without a limit, and otherwise what fits. */
  ghost predicate Part(e: Entry, part: Entry, left: Option<int>) {
    if left.None? then part == e
    else
      && e.r.value.Scalar?
      && part == e.(r := e.r.(value := Scalar(Min(e.r.value.amount, left.value))))
      && (Indivisible(e.r.meta) ==> part == e)
  }

  function Used(part: Entry, left: Option<int>): Option<int> {
    if left.None? then None else Some(left.value - AmountNamed(part.r, part.r.meta.name))
  }

  /** What is left once the part has been taken. */
  ghost predicate Taken(room: Room, next: Room, part: Entry) {
    forall n :: next(n) == if n == part.r.meta.name then Used(part, room(n)) else room(n)
  }

  lemma PartWeight(e: Entry, part: Entry, left: Option<int>, a: Atom)
    requires ValidEntry(e) && ValidEntry(part) && Part(e, part, left)
    ensures 0 <= Weight(part, a) <= Weight(e, a)
    ensures left.None? || !a.AmountOf? ==> Weight(part, a) == Weight(e, a)
  {
    WeightName(part, a);
  }

  /** A shared volume is visited once, so it is not among the kept yet. */
  lemma NewVolume(seen: seq<Entry>, kept: seq<Entry>, e: Entry)
    requires Combined(kept) && ValidEntry(e) && e.r.shared && Once(seen + [e])
    requires forall a :: Held(kept, a) <= Held(seen, a)
    ensures !exists i :: 0 <= i < |kept| && kept[i].r == e.r
  {
    SeenMore(seen, e);
    assert Held(seen + [e], CopiesOf(e.r)) <= 1;
    if i :| 0 <= i < |kept| && kept[i].r == e.r {
      HeldAtLeast(kept, i, CopiesOf(e.r));
    }
  }

  lemma KeepAccounted(seen: seq<Entry>, kept: seq<Entry>, start: Room, room: Room, next: Room, e: Entry, part: Entry)
    requires Combined(kept) && Accounted(seen, kept, start, room) && ValidEntry(e) && ValidEntry(part)
    requires Once(seen + [e]) && Part(e, part, room(e.r.meta.name)) && Taken(room, next, part)
    ensures Accounted(seen + [e], Add(kept, part), start, next)
    ensures forall n :: ScalarTotal(Add(kept, part), n) == ScalarTotal(kept, n) + AmountNamed(part.r, n)
  {
    var more := Add(kept, part);
    SeenMore(seen, e);
    AddRefines(kept, part);
    forall a ensures Held(more, a) <= Held(seen + [e], a) {
      PartWeight(e, part, room(e.r.meta.name), a);
      HeldNonNegative(kept, a);
    }
    forall n ensures ScalarTotal(more, n) == ScalarTotal(kept, n) + AmountNamed(part.r, n) {
      TotalAddTo(kept, part, n);
      if e.r.shared {
        NewVolume(seen, kept, e);
      }
    }
  }

  lemma KeepExact(seen: seq<Entry>, kept: seq<Entry>, start: Room, room: Room, e: Entry, part: Entry)
    requires Accounted(seen, kept, start, room) && Exact(seen, kept, start) && ValidEntry(e) && ValidEntry(part)
    requires Part(e, part, room(e.r.meta.name))
    requires forall n :: ScalarTotal(Add(kept, part), n) == ScalarTotal(kept, n) + AmountNamed(part.r, n)
    ensures Exact(seen + [e], Add(kept, part), start)
  {
    SeenMore(seen, e);
    forall n | start(n).Some? && Divisible(seen + [e], n)
      ensures ScalarTotal(Add(kept, part), n) == Min(ScalarTotal(seen + [e], n), start(n).value)
    {
      assert Divisible(seen, n);
      assert room(n).Some? && ScalarTotal(kept, n) + room(n).value == start(n).value;
    }
  }

  lemma KeepGreedy(seen: seq<Entry>, kept: seq<Entry>, room: Room, next: Room, e: Entry, part: Entry)
    requires Combined(kept) && Greedy(seen, kept, room) && ValidEntry(e) && ValidEntry(part)
    requires Part(e, part, room(e.r.meta.name)) && Taken(room, next, part)
    ensures Greedy(seen + [e], Add(kept, part), next)
  {
    SeenMore(seen, e);
    AddRefines(kept, part);
    forall a | IsWhole(a) && next(NameOf(a)).Some? && Held(Add(kept, part), a) < Held(seen + [e], a)
      ensures next(NameOf(a)).value < WholeAmount(a)
    {
      PartWeight(e, part, room(e.r.meta.name), a);
      assert Held(kept, a) < Held(seen, a);
      assert next(NameOf(a)).value <= room(NameOf(a)).value;
    }
  }

  lemma KeepEdges(seen: seq<Entry>, kept: seq<Entry>, start: Room, room: Room, e: Entry, part: Entry)
    requires Combined(kept) && Accounted(seen, kept, start, room) && Edges(seen, kept, start)
    requires ValidEntry(e) && ValidEntry(part) && Once(seen + [e]) && Part(e, part, room(e.r.meta.name))
    ensures Edges(seen + [e], Add(kept, part), start)
  {
    var more := Add(kept, part);
    SeenMore(seen, e);
    AddRefines(kept, part);
    forall a | start(NameOf(a)) == None ensures Held(more, a) == Held(seen + [e], a) {
      HeldNonNegative(kept, a);
      WeightName(e, a);
      PartWeight(e, part, room(e.r.meta.name), a);
      assert room(NameOf(a)).Some? == start(NameOf(a)).Some?;
    }
    forall a | start(NameOf(a)) == Some(0) ensures Held(more, a) == 0 {
      var n := NameOf(a);
      assert ScalarTotal(kept, n) + room(n).value == start(n).value;
      TotalNonNegative(kept, n);
      WeightName(part, a);
    }
  }

  /** A resource is kept, whole or chopped down to what is left. */
  lemma Keep(seen: seq<Entry>, kept: seq<Entry>, start: Room, room: Room, next: Room, e: Entry, part: Entry)
    requires Progress(seen, kept, start, room) && ValidEntry(e) && ValidEntry(part) && Once(seen + [e])
    requires Part(e, part, room(e.r.meta.name)) && Taken(room, next, part)
    ensures Progress(seen + [e], Add(kept, part), start, next)
  {
    hide Accounted, Exact, Greedy, Edges, Part, Taken, Once;
    AddRefines(kept, part);
    KeepAccounted(seen, kept, start, room, next, e, part);
    KeepExact(seen, kept, start, room, e, part);
    KeepGreedy(seen, kept, room, next, e, part);
    KeepEdges(seen, kept, start, room, e, part);
  }

  // ----- the shuffled resources

  /** The resources of a collection in any order. */
  ghost predicate Shuffled(es: seq<Entry>, order: seq<Entry>) {
    multiset(order) == multiset(Plain(es))
  }

  lemma {:induction false} PlainHeldPlainly(es: seq<Entry>, a: Atom)
    requires !a.CopiesOf?
    ensures Held(Plain(es), a) == Held(es, a)
  {
    if es != [] {
      assert Plain(es)[1..] == Plain(es[1..]);
      PlainHeldPlainly(es[1..], a);
    }
  }

  /** Plain objects stand for the collection, except that a shared volume has one copy. */
  lemma PlainHeld(es: seq<Entry>, a: Atom)
    requires Combined(es)
    ensures Held(Plain(es), a) == if a.CopiesOf? then Min(1, Held(es, a)) else Held(es, a)
  {
    PlainCombined(es);
    if !a.CopiesOf? {
      PlainHeldPlainly(es, a);
    } else if i :| 0 <= i < |es| && Touches(es[i].r, a) {
      HeldOnce(es, i, a);
      HeldOnce(Plain(es), i, a);
    } else {
      HeldNone(es, a);
      HeldNone(Plain(es), a);
    }
  }

  lemma {:induction false} PlainTotal(es: seq<Entry>, n: string)
    ensures ScalarTotal(Plain(es), n) == ScalarTotal(es, n)
  {
    if es != [] {
      assert Plain(es)[1..] == Plain(es[1..]);
      PlainTotal(es[1..], n);
    }
  }

  lemma ShuffledEntry(es: seq<Entry>, order: seq<Entry>, k: nat) returns (i: nat)
    requires Shuffled(es, order) && k < |order|
    ensures i < |es| && order[k] == Single(es[i].r)
  {
    assert order[k] in multiset(order);
    assert order[k] in Plain(es);
    i :| 0 <= i < |Plain(es)| && Plain(es)[i] == order[k];
  }

  lemma ShuffledOnce(es: seq<Entry>, order: seq<Entry>, k: nat)
    requires Combined(es) && Shuffled(es, order) && k <= |order|
    ensures Once(order[..k])
    ensures forall j :: 0 <= j < |order| ==> ValidEntry(order[j]) && order[j].count == 1
  {
    forall j | 0 <= j < |order| ensures ValidEntry(order[j]) && order[j].count == 1 {
      var i := ShuffledEntry(es, order, j);
    }
    forall a: Atom | a.MemberOf? || a.CopiesOf? ensures Held(order[..k], a) <= 1 {
      PermutedSame(order, Plain(es), a);
      PlainHeld(es, a);
      if a.MemberOf? {
        MemberHeldOnce(es, a);
      }
      assert order == order[..k] + order[k..];
      HeldConcat(order[..k], order[k..], a);
      HeldNonNegative(order[k..], a);
    }
  }

  // ----- the outcome

  /** Resources of a shrunk collection, against the targets they were shrunk to. */
  ghost predicate Shrunk(es: seq<Entry>, result: seq<Entry>, start: Room) {
    && Combined(result) && Within(result, es) && Contains(es, result)
    && (forall n :: start(n).Some? ==> ScalarTotal(result, n) <= start(n).value)
    && (forall n :: start(n).Some? && Divisible(es, n) ==> ScalarTotal(result, n) == Min(ScalarTotal(es, n), start(n).value))
    && (forall a :: IsWhole(a) && start(NameOf(a)).Some? && Held(result, a) < Held(Plain(es), a) ==>
          start(NameOf(a)).value - ScalarTotal(result, NameOf(a)) < WholeAmount(a))
    && (forall a :: start(NameOf(a)) == None ==> Held(result, a) == Held(Plain(es), a))
    && (forall a :: start(NameOf(a)) == Some(0) ==> Held(result, a) == 0)
  }

  lemma Outcome(es: seq<Entry>, order: seq<Entry>, result: seq<Entry>, start: Room, room: Room)
    requires Combined(es) && Shuffled(es, order) && Progress(order, result, start, room)
    ensures Shrunk(es, result, start)
  {
    forall a ensures Held(order, a) == Held(Plain(es), a) <= Held(es, a) {
      PermutedSame(order, Plain(es), a);
      PlainHeld(es, a);
      HeldNonNegative(es, a);
    }
    forall a ensures Demand(a, Held(result, a)) <= Held(es, a) {
      assert Held(result, a) <= Held(order, a);
    }
    ContainsIff(es, result);
    OutcomeExact(es, order, result, start);
    forall n | start(n).Some? ensures ScalarTotal(result, n) <= start(n).value {
      assert room(n).Some?;
    }
    forall a | IsWhole(a) && start(NameOf(a)).Some? && Held(result, a) < Held(Plain(es), a)
      ensures start(NameOf(a)).value - ScalarTotal(result, NameOf(a)) < WholeAmount(a)
    {
      assert room(NameOf(a)).Some?;
      assert Held(result, a) < Held(order, a);
    }
  }

  lemma OutcomeExact(es: seq<Entry>, order: seq<Entry>, result: seq<Entry>, start: Room)
    requires Shuffled(es, order) && Exact(order, result, start)
    ensures forall n :: start(n).Some? && Divisible(es, n) ==> ScalarTotal(result, n) == Min(ScalarTotal(es, n), start(n).value)
  {
    forall n | start(n).Some? && Divisible(es, n) ensures ScalarTotal(result, n) == Min(ScalarTotal(es, n), start(n).value) {
      PermutedTotal(order, Plain(es), n);
      PlainTotal(es, n);
      forall k | 0 <= k < |order| && order[k].r.meta.name == n ensures !Indivisible(order[k].r.meta) {
        var i := ShuffledEntry(es, order, k);
      }
    }
  }

  // ----- the two loops

  ghost function QuantityRoom(ps: seq<Quantities.Pair>): Room {
    n => Some(Quantities.At(ps, n))
  }

  ghost function LimitRoom(ps: seq<Quantities.Pair>): Room {
    n => Quantities.Lookup(ps, n)
  }

  method FromScalarResource(r: Resource) returns (q: Quantities.ResourceQuantities)
    requires r.value.Scalar? && r.value.amount >= 0
    ensures fresh(q) && q.Valid()
    ensures forall n :: Quantities.Lookup(q.quantities, n) ==
              if n == r.meta.name && r.value.amount > 0 then Some(r.value.amount) else None
  {
    q := new Quantities.ResourceQuantities();
    q.Add(r.meta.name, r.value.amount);
    forall n ensures Quantities.Lookup(q.quantities, n) ==
                if n == r.meta.name && r.value.amount > 0 then Some(r.value.amount) else None
    {
      assert Quantities.At(q.quantities, n) == if n == r.meta.name then r.value.amount else 0;
      if Quantities.Lookup(q.quantities, n).Some? {
        var i := Quantities.LookupPresent(q.quantities, n);
      }
    }
  }

  lemma Begin(start: Room)
    requires forall n :: start(n).Some? ==> start(n).value >= 0
    ensures Progress([], [], start, start)
  {
  }

  /** The target only shrinks, so what has something left had a target. */
  lemma HadTarget(seen: seq<Entry>, kept: seq<Entry>, start: Room, room: Room, n: string)
    requires Progress(seen, kept, start, room)
    ensures room(n).Some? == start(n).Some?
    ensures room(n).Some? ==> 0 <= room(n).value <= start(n).value
  {
    TotalNonNegative(kept, n);
    assert room(n).Some? ==> ScalarTotal(kept, n) + room(n).value == start(n).value;
  }

  lemma SameRoom(seen: seq<Entry>, kept: seq<Entry>, start: Room, room: Room, next: Room)
    requires Progress(seen, kept, start, room) && forall n :: room(n) == next(n)
    ensures Progress(seen, kept, start, next)
  {
  }

  /** Absent targets are zero: such resources are dropped. */
  method ShrinkToQuantities(es: seq<Entry>, order: seq<Entry>, target: Quantities.ResourceQuantities)
    returns (result: seq<Entry>)
    requires Combined(es) && Shuffled(es, order) && target.Valid()
    requires forall i :: 0 <= i < |es| && Quantities.At(target.quantities, es[i].r.meta.name) != 0 ==> es[i].r.value.Scalar?
    ensures Shrunk(es, result, QuantityRoom(target.quantities))
  {
    hide Progress, Shrunk, Once, Part, Taken;
    var rest := new Quantities.ResourceQuantities.Copy(target);
    result := [];
    ghost var start := QuantityRoom(target.quantities);
    forall n ensures start(n).value >= 0 { Quantities.PositiveAt(target.quantities, n); }
    Begin(start);
    if |target.quantities| == 0 {
      NothingToKeep(es, start);
      return;
    }
    for k := 0 to |order|
      invariant rest.Valid()
      invariant Progress(order[..k], result, start, QuantityRoom(rest.quantities))
    {
      var e := order[k];
      ghost var i := ShuffledEntry(es, order, k);
      ghost var room := QuantityRoom(rest.quantities);
      ShuffledOnce(es, order, k + 1);
      assert order[..k + 1] == order[..k] + [e];
      HadTarget(order[..k], result, start, room, e.r.meta.name);
      var left := rest.Get(e.r.meta.name);
      if left == 0 {
        Drop(order[..k], result, start, room, e);
        continue;
      }
      var ok, out := Shrink(e.r, left);
      if ok {
        var used := FromScalarResource(out);
        ghost var before := rest.quantities;
        rest.SubtractAll(used);
        TakenQuantities(before, rest.quantities, used.quantities, out);
        IsPart(e, out, Some(left));
        Keep(order[..k], result, start, room, QuantityRoom(rest.quantities), e, Single(out));
        result := Add(result, Single(out));
      } else {
        Drop(order[..k], result, start, room, e);
      }
    }
    assert order[..|order|] == order;
    Outcome(es, order, result, start, QuantityRoom(rest.quantities));
  }

  /** Without any target everything is dropped. */
  lemma NothingToKeep(es: seq<Entry>, start: Room)
    requires Combined(es) && forall n :: start(n) == Some(0)
    ensures Shrunk(es, [], start)
  {
    forall a ensures 0 == Held([], a) <= Held(es, a) { HeldNonNegative(es, a); }
    ContainsIff(es, []);
    forall n ensures ScalarTotal(es, n) >= 0 { TotalNonNegative(es, n); }
    PlainCombined(es);
    forall a | IsWhole(a) && Held([], a) < Held(Plain(es), a) ensures 0 < WholeAmount(a) {
      var i := HeldSome(Plain(es), a);
      WeightName(Plain(es)[i], a);
    }
  }

  lemma IsPart(e: Entry, out: Resource, left: Option<int>)
    requires e == Single(e.r) && ValidEntry(e)
    requires if left.None? then out == e.r else
      && e.r.value.Scalar? && left.value > 0 && (e.r.value.amount <= left.value || !Indivisible(e.r.meta))
      && out == e.r.(value := Scalar(Min(e.r.value.amount, left.value)))
    ensures Part(e, Single(out), left) && ValidEntry(Single(out))
  {
  }

  ghost predicate UsesUp(used: seq<Quantities.Pair>, out: Resource) {
    && out.value.Scalar? && out.value.amount >= 0
    && forall n :: Quantities.Lookup(used, n) ==
         if n == out.meta.name && out.value.amount > 0 then Some(out.value.amount) else None
  }

  lemma TakenQuantities(before: seq<Quantities.Pair>, after: seq<Quantities.Pair>, used: seq<Quantities.Pair>, out: Resource)
    requires Quantities.Positive(before) && UsesUp(used, out)
    requires out.value.amount <= Quantities.At(before, out.meta.name)
    requires forall n :: Quantities.At(after, n) == Quantities.Minus(Quantities.At(before, n), Quantities.At(used, n))
    ensures Taken(QuantityRoom(before), QuantityRoom(after), Single(out))
  {
    forall n ensures Quantities.At(before, n) >= 0 { Quantities.PositiveAt(before, n); }
  }

  lemma TakenLimits(before: seq<Quantities.Pair>, after: seq<Quantities.Pair>, used: seq<Quantities.Pair>, out: Resource)
    requires UsesUp(used, out)
    requires Quantities.Lookup(before, out.meta.name).Some?
    requires out.value.amount <= Quantities.Lookup(before, out.meta.name).value
    requires forall n :: Quantities.Lookup(after, n) == Quantities.Reduced(Quantities.Lookup(before, n), Quantities.Lookup(used, n))
    ensures Taken(LimitRoom(before), LimitRoom(after), Single(out))
  {
  }

  /**
  Absent limits are infinite: such resources are kept. The copies of a shared volume are kept only
  when there is no limit at all.
  */
  method ShrinkToLimits(es: seq<Entry>, order: seq<Entry>, target: Quantities.ResourceLimits)
    returns (result: seq<Entry>)
    requires Combined(es) && Shuffled(es, order) && target.Valid()
    requires forall i :: 0 <= i < |target.limits| ==> target.limits[i].amount >= 0
    requires forall i :: 0 <= i < |es| && Quantities.Lookup(target.limits, es[i].r.meta.name).Some? ==> es[i].r.value.Scalar?
    ensures target.limits == [] ==> result == es
    ensures target.limits != [] ==> Shrunk(es, result, LimitRoom(target.limits))
  {
    hide Progress, Shrunk, Once, Part, Taken;
    if |target.limits| == 0 {
      return es;
    }
    var rest := new Quantities.ResourceLimits.Copy(target);
    result := [];
    ghost var start := LimitRoom(target.limits);
    forall n | start(n).Some? ensures start(n).value >= 0 { var i := Quantities.LookupPresent(target.limits, n); }
    Begin(start);
    for k := 0 to |order|
      invariant rest.Valid()
      invariant Progress(order[..k], result, start, LimitRoom(rest.limits))
    {
      var e := order[k];
      ghost var i := ShuffledEntry(es, order, k);
      ghost var room := LimitRoom(rest.limits);
      ShuffledOnce(es, order, k + 1);
      assert order[..k + 1] == order[..k] + [e];
      HadTarget(order[..k], result, start, room, e.r.meta.name);
      var limit := rest.Get(e.r.meta.name);
      if limit.None? {
        KeepUnlimited(order[..k], result, start, room, e);
        result := Add(result, e);
        continue;
      }
      var ok, out := Shrink(e.r, limit.value);
      if ok {
        var used := FromScalarResource(out);
        ghost var before := rest.limits;
        rest.SubtractAll(used);
        TakenLimits(before, rest.limits, used.quantities, out);
        KeepLimited(order[..k], result, start, before, rest.limits, e, out);
        result := Add(result, Single(out));
      } else {
        Drop(order[..k], result, start, room, e);
      }
    }
    assert order[..|order|] == order;
    Outcome(es, order, result, start, LimitRoom(rest.limits));
  }

  lemma KeepUnlimited(seen: seq<Entry>, kept: seq<Entry>, start: Room, room: Room, e: Entry)
    requires Progress(seen, kept, start, room) && ValidEntry(e) && Once(seen + [e]) && room(e.r.meta.name).None?
    ensures Progress(seen + [e], Add(kept, e), start, room)
  {
    assert Part(e, e, room(e.r.meta.name)) && Taken(room, room, e);
    Keep(seen, kept, start, room, room, e, e);
  }

  /** With a limit that is used up, what is kept of a resource is empty and not added. */
  lemma KeepLimited(seen: seq<Entry>, kept: seq<Entry>, start: Room, before: seq<Quantities.Pair>, after: seq<Quantities.Pair>,
                    e: Entry, out: Resource)
    requires Progress(seen, kept, start, LimitRoom(before)) && ValidEntry(e) && e == Single(e.r) && Once(seen + [e])
    requires Taken(LimitRoom(before), LimitRoom(after), Single(out))
    requires var limit := Quantities.Lookup(before, e.r.meta.name);
      && e.r.value.Scalar? && limit.Some? && limit.value >= 0
      && (e.r.value.amount <= limit.value || !Indivisible(e.r.meta))
      && out == e.r.(value := Scalar(Min(e.r.value.amount, limit.value)))
    ensures Progress(seen + [e], Add(kept, Single(out)), start, LimitRoom(after))
  {
    hide Progress, Once;
    var limit := Quantities.Lookup(before, e.r.meta.name);
    if limit.value == 0 {
      Drop(seen, kept, start, LimitRoom(before), e);
      SameRoom(seen + [e], kept, start, LimitRoom(before), LimitRoom(after));
    } else {
      IsPart(e, out, limit);
      Keep(seen, kept, start, LimitRoom(before), LimitRoom(after), e, Single(out));
    }
  }

  /**
  Resources without a limit come through unchanged exactly when no shared volume among them has
  more than one copy.
  */
  lemma UnlimitedIffSingle(es: seq<Entry>, result: seq<Entry>, start: Room)
    requires Combined(es) && Shrunk(es, result, start)
    ensures (forall a :: start(NameOf(a)) == None ==> Held(result, a) == Held(es, a))
       <==> (forall i :: 0 <= i < |es| && es[i].r.shared && start(es[i].r.meta.name) == None ==> es[i].count == 1)
  {
    forall a ensures Held(Plain(es), a) == (if a.CopiesOf? then Min(1, Held(es, a)) else Held(es, a)) { PlainHeld(es, a); }
    if i :| 0 <= i < |es| && es[i].r.shared && start(es[i].r.meta.name) == None && es[i].count != 1 {
      var a := CopiesOf(es[i].r);
      HeldOnce(es, i, a);
      assert start(NameOf(a)) == None && Held(result, a) != Held(es, a);
    } else {
      forall a | start(NameOf(a)) == None ensures Held(result, a) == Held(es, a) {
        HeldNonNegative(es, a);
        if a.CopiesOf? && Held(es, a) > 0 {
          var i := HeldSome(es, a);
          HeldOnce(es, i, a);
        }
      }
    }
  }

  /** Two copies of a volume, and a limit on something else: one copy is lost. */
  lemma CopyIsLost(result: seq<Entry>)
    requires Shrunk([TwoCopies()], result, LimitRoom([Quantities.Pair("cpus", 1000)]))
    ensures Combined([TwoCopies()])
    ensures Held([TwoCopies()], CopiesOf(TwoCopies().r)) == 2 && Held(result, CopiesOf(TwoCopies().r)) == 1
  {
    var es, a := [TwoCopies()], CopiesOf(TwoCopies().r);
    assert es[1..] == [];
    PlainHeld(es, a);
    assert [Quantities.Pair("cpus", 1000)][1..] == [];
    assert "disk"[0] != "cpus"[0];
    assert NameOf(a) == "disk";
  }

  function TwoCopies(): Entry {
    Entry(Resource(Meta("disk", None, [], Some(Disk(None, Some("volume"))), false, None), true, Scalar(1000)), 2)
  }
}
