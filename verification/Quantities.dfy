/**
Resource quantities and limits: vectors of named amounts, kept sorted by name, that are merged in
place. They stand for finite maps: an absent quantity is zero, an absent limit is infinite.
*/
module Quantities {

  import opened Options

  // ----- names in alphabetical order

  predicate Less(a: string, b: string) {
    b != "" && (a == "" || a[0] < b[0] || (a[0] == b[0] && Less(a[1..], b[1..])))
  }

  lemma {:induction false} LessTransitive(a: string, b: string, c: string)
    requires Less(a, b) && Less(b, c)
    ensures Less(a, c)
    decreases |a|
  {
    if a != "" && a[0] == b[0] && b[0] == c[0] {
      LessTransitive(a[1..], b[1..], c[1..]);
    }
  }

  lemma {:induction false} LessIrreflexive(a: string)
    ensures !Less(a, a)
  {
    if a != "" {
      LessIrreflexive(a[1..]);
    }
  }

  lemma {:induction false} LessTotal(a: string, b: string)
    ensures Less(a, b) || a == b || Less(b, a)
    decreases |a|
  {
    if a != "" && b != "" && a[0] == b[0] {
      LessTotal(a[1..], b[1..]);
      assert a == [a[0]] + a[1..] && b == [b[0]] + b[1..];
    }
  }

  // ----- sorted vectors as maps

  datatype Pair = Pair(name: string, amount: int)

  ghost predicate Sorted(ps: seq<Pair>) {
    forall i, j :: 0 <= i < j < |ps| ==> Less(ps[i].name, ps[j].name)
  }

  function Lookup(ps: seq<Pair>, name: string): Option<int> {
    if ps == [] then None else if ps[0].name == name then Some(ps[0].amount) else Lookup(ps[1..], name)
  }

  /** The amount of a name, zero where absent. */
  function At(ps: seq<Pair>, name: string): int {
    if Lookup(ps, name).Some? then Lookup(ps, name).value else 0
  }

  lemma {:induction false} LookupConcat(ps: seq<Pair>, qs: seq<Pair>, name: string)
    ensures Lookup(ps + qs, name) == if Lookup(ps, name).Some? then Lookup(ps, name) else Lookup(qs, name)
  {
    if ps == [] {
      assert ps + qs == qs;
    } else {
      assert (ps + qs)[1..] == ps[1..] + qs;
      LookupConcat(ps[1..], qs, name);
    }
  }

  lemma {:induction false} LookupAbsent(ps: seq<Pair>, name: string)
    requires forall i :: 0 <= i < |ps| ==> ps[i].name != name
    ensures Lookup(ps, name) == None
  {
    if ps != [] {
      LookupAbsent(ps[1..], name);
    }
  }

  lemma {:induction false} LookupPresent(ps: seq<Pair>, name: string) returns (i: nat)
    requires Lookup(ps, name).Some?
    ensures i < |ps| && ps[i] == Pair(name, Lookup(ps, name).value)
  {
    if ps[0].name == name {
      i := 0;
    } else {
      i := LookupPresent(ps[1..], name);
      i := i + 1;
    }
  }

  lemma Apart(ps: seq<Pair>, i: nat, j: nat)
    requires Sorted(ps) && i < |ps| && j < |ps| && i != j
    ensures ps[i].name != ps[j].name
  {
    LessIrreflexive(ps[i].name);
  }

  /** A sorted vector maps the name at each index to the amount there. */
  lemma LookupAt(ps: seq<Pair>, i: nat)
    requires Sorted(ps) && i < |ps|
    ensures Lookup(ps, ps[i].name) == Some(ps[i].amount)
  {
    hide Sorted, Less;
    forall k | 0 <= k < i ensures ps[k].name != ps[i].name { Apart(ps, k, i); }
    LookupAbsent(ps[..i], ps[i].name);
    LookupConcat(ps[..i], ps[i..], ps[i].name);
    assert ps == ps[..i] + ps[i..];
  }

  /** Names between two neighbours are absent. */
  ghost predicate Gap(ps: seq<Pair>, i: nat, name: string) {
    && i <= |ps|
    && (forall k :: 0 <= k < i ==> Less(ps[k].name, name))
    && (forall k :: i <= k < |ps| ==> Less(name, ps[k].name))
  }

  lemma GapIsAbsent(ps: seq<Pair>, i: nat, name: string)
    requires Gap(ps, i, name)
    ensures Lookup(ps, name) == None
  {
    LessIrreflexive(name);
    LookupAbsent(ps, name);
  }

  function Insert(ps: seq<Pair>, i: nat, p: Pair): seq<Pair>
    requires i <= |ps|
  {
    ps[..i] + [p] + ps[i..]
  }

  function Erase(ps: seq<Pair>, i: nat): seq<Pair>
    requires i < |ps|
  {
    ps[..i] + ps[i + 1..]
  }

  lemma InsertSorted(ps: seq<Pair>, i: nat, p: Pair)
    requires Sorted(ps) && Gap(ps, i, p.name)
    ensures Sorted(Insert(ps, i, p))
  {
    hide Less;
    var out := Insert(ps, i, p);
    forall a, b | 0 <= a < b < |out| ensures Less(out[a].name, out[b].name) {
      assert out[a] == if a < i then ps[a] else if a == i then p else ps[a - 1];
      assert out[b] == if b < i then ps[b] else if b == i then p else ps[b - 1];
    }
  }

  lemma InsertLookup(ps: seq<Pair>, i: nat, p: Pair, name: string)
    requires Sorted(ps) && Gap(ps, i, p.name)
    ensures Sorted(Insert(ps, i, p))
    ensures Lookup(Insert(ps, i, p), name) == if name == p.name then Some(p.amount) else Lookup(ps, name)
  {
    InsertSorted(ps, i, p);
    hide Less, Sorted;
    GapIsAbsent(ps, i, p.name);
    LookupConcat(ps[..i], [p] + ps[i..], name);
    LookupConcat([p], ps[i..], name);
    LookupConcat(ps[..i], ps[i..], name);
    assert ps == ps[..i] + ps[i..] && Insert(ps, i, p) == ps[..i] + ([p] + ps[i..]);
    assert [p][1..] == [];
  }

  lemma UpdateLookup(ps: seq<Pair>, i: nat, amount: int, name: string)
    requires Sorted(ps) && i < |ps|
    ensures Sorted(ps[i := Pair(ps[i].name, amount)])
    ensures Lookup(ps[i := Pair(ps[i].name, amount)], name) == if name == ps[i].name then Some(amount) else Lookup(ps, name)
  {
    var qs := ps[i := Pair(ps[i].name, amount)];
    LookupAt(qs, i);
    SplitLookup(ps, i, name);
    SplitLookup(qs, i, name);
    assert qs[..i] == ps[..i] && qs[i + 1..] == ps[i + 1..];
  }

  lemma SplitLookup(ps: seq<Pair>, i: nat, name: string)
    requires i < |ps|
    ensures name != ps[i].name ==> Lookup(ps, name) == Lookup(Erase(ps, i), name)
  {
    LookupConcat(ps[..i], [ps[i]] + ps[i + 1..], name);
    LookupConcat([ps[i]], ps[i + 1..], name);
    LookupConcat(ps[..i], ps[i + 1..], name);
    assert ps == ps[..i] + ([ps[i]] + ps[i + 1..]);
    assert [ps[i]][1..] == [];
  }

  lemma EraseLookup(ps: seq<Pair>, i: nat, name: string)
    requires Sorted(ps) && i < |ps|
    ensures Sorted(Erase(ps, i))
    ensures Lookup(Erase(ps, i), name) == if name == ps[i].name then None else Lookup(ps, name)
  {
    SplitLookup(ps, i, name);
    var qs := Erase(ps, i);
    if name == ps[i].name {
      forall k | 0 <= k < |qs| ensures qs[k].name != name {
        Apart(ps, i, if k < i then k else k + 1);
      }
      LookupAbsent(qs, name);
    }
  }

  // ----- two cursors

  /** Everything before the left cursor comes before everything from the right cursor on. */
  ghost predicate Behind(l: seq<Pair>, i: nat, r: seq<Pair>, j: nat) {
    i <= |l| && j <= |r| && forall k, m :: 0 <= k < i && j <= m < |r| ==> Less(l[k].name, r[m].name)
  }

  /** One more element of the right operand. */
  lemma TakeRight(r: seq<Pair>, j: nat, name: string)
    requires Sorted(r) && j < |r|
    ensures Lookup(r[..j + 1], name) == if name == r[j].name then Some(r[j].amount) else Lookup(r[..j], name)
    ensures Lookup(r[..j], r[j].name) == None
  {
    forall k | 0 <= k < j ensures r[k].name != r[j].name { Apart(r, k, j); }
    LookupAbsent(r[..j], r[j].name);
    assert r[..j + 1] == r[..j] + [r[j]];
    LookupConcat(r[..j], [r[j]], name);
    assert [r[j]][1..] == [];
  }

  lemma SkipLeft(l: seq<Pair>, i: nat, r: seq<Pair>, j: nat)
    requires Sorted(r) && Behind(l, i, r, j) && i < |l| && j < |r| && Less(l[i].name, r[j].name)
    ensures Behind(l, i + 1, r, j)
  {
    forall m | j <= m < |r| ensures Less(l[i].name, r[m].name) {
      if j < m {
        LessTransitive(l[i].name, r[j].name, r[m].name);
      }
    }
  }

  /** The next right name falls between the left names. */
  lemma RightInGap(l: seq<Pair>, i: nat, r: seq<Pair>, j: nat)
    requires Sorted(l) && Behind(l, i, r, j) && j < |r| && (i < |l| ==> Less(r[j].name, l[i].name))
    ensures Gap(l, i, r[j].name)
  {
    forall k | i <= k < |l| ensures Less(r[j].name, l[k].name) {
      if i < k {
        LessTransitive(r[j].name, l[i].name, l[k].name);
      }
    }
  }

  ghost predicate Positive(ps: seq<Pair>) {
    forall i :: 0 <= i < |ps| ==> ps[i].amount > 0
  }

  lemma PositiveAt(ps: seq<Pair>, name: string)
    requires Positive(ps)
    ensures At(ps, name) >= 0
  {
    if Lookup(ps, name).Some? {
      var i := LookupPresent(ps, name);
    }
  }

  // ----- addition

  ghost predicate Adding(l0: seq<Pair>, l: seq<Pair>, i: nat, r: seq<Pair>, j: nat) {
    && Sorted(l) && Positive(l) && Sorted(r) && Positive(r) && Behind(l, i, r, j)
    && forall name :: At(l, name) == At(l0, name) + At(r[..j], name)
  }

  lemma AddInsert(l0: seq<Pair>, l: seq<Pair>, i: nat, r: seq<Pair>, j: nat)
    requires Adding(l0, l, i, r, j) && j < |r| && (i < |l| ==> Less(r[j].name, l[i].name))
    ensures Adding(l0, Insert(l, i, r[j]), i + 1, r, j + 1)
  {
    RightInGap(l, i, r, j);
    var out := Insert(l, i, r[j]);
    GapIsAbsent(l, i, r[j].name);
    forall name ensures Sorted(out) && At(out, name) == At(l0, name) + At(r[..j + 1], name) {
      InsertLookup(l, i, r[j], name);
      TakeRight(r, j, name);
      assert At(l, name) == At(l0, name) + At(r[..j], name);
    }
  }

  lemma AddMerge(l0: seq<Pair>, l: seq<Pair>, i: nat, r: seq<Pair>, j: nat)
    requires Adding(l0, l, i, r, j) && i < |l| && j < |r| && l[i].name == r[j].name
    ensures Adding(l0, l[i := Pair(l[i].name, l[i].amount + r[j].amount)], i + 1, r, j + 1)
  {
    var out := l[i := Pair(l[i].name, l[i].amount + r[j].amount)];
    LookupAt(l, i);
    forall name ensures Sorted(out) && At(out, name) == At(l0, name) + At(r[..j + 1], name) {
      UpdateLookup(l, i, l[i].amount + r[j].amount, name);
      TakeRight(r, j, name);
      assert At(l, name) == At(l0, name) + At(r[..j], name);
    }
  }

  // ----- subtraction

  function Minus(x: int, y: int): int {
    if x < y then 0 else x - y
  }

  ghost predicate Subtracting(l0: seq<Pair>, l: seq<Pair>, i: nat, r: seq<Pair>, j: nat) {
    && Sorted(l) && Positive(l) && Sorted(r) && Positive(r) && Positive(l0) && Behind(l, i, r, j)
    && forall name :: At(l, name) == Minus(At(l0, name), At(r[..j], name))
  }

  lemma SubtractSkip(l0: seq<Pair>, l: seq<Pair>, i: nat, r: seq<Pair>, j: nat)
    requires Subtracting(l0, l, i, r, j) && j < |r| && (i < |l| ==> Less(r[j].name, l[i].name))
    ensures Subtracting(l0, l, i, r, j + 1)
  {
    RightInGap(l, i, r, j);
    GapIsAbsent(l, i, r[j].name);
    forall name ensures At(l, name) == Minus(At(l0, name), At(r[..j + 1], name)) {
      TakeRight(r, j, name);
      PositiveAt(l0, name);
      assert At(l, name) == Minus(At(l0, name), At(r[..j], name));
    }
  }

  lemma SubtractErase(l0: seq<Pair>, l: seq<Pair>, i: nat, r: seq<Pair>, j: nat)
    requires Subtracting(l0, l, i, r, j) && i < |l| && j < |r| && l[i].name == r[j].name && l[i].amount <= r[j].amount
    ensures Subtracting(l0, Erase(l, i), i, r, j + 1)
  {
    var out := Erase(l, i);
    LookupAt(l, i);
    forall name ensures Sorted(out) && At(out, name) == Minus(At(l0, name), At(r[..j + 1], name)) {
      EraseLookup(l, i, name);
      TakeRight(r, j, name);
      assert At(l, name) == Minus(At(l0, name), At(r[..j], name));
    }
  }

  lemma SubtractReduce(l0: seq<Pair>, l: seq<Pair>, i: nat, r: seq<Pair>, j: nat)
    requires Subtracting(l0, l, i, r, j) && i < |l| && j < |r| && l[i].name == r[j].name && l[i].amount > r[j].amount
    ensures Subtracting(l0, l[i := Pair(l[i].name, l[i].amount - r[j].amount)], i + 1, r, j + 1)
  {
    var out := l[i := Pair(l[i].name, l[i].amount - r[j].amount)];
    LookupAt(l, i);
    forall name ensures Sorted(out) && At(out, name) == Minus(At(l0, name), At(r[..j + 1], name)) {
      UpdateLookup(l, i, l[i].amount - r[j].amount, name);
      TakeRight(r, j, name);
      assert At(l, name) == Minus(At(l0, name), At(r[..j], name));
    }
  }

  /** When the left operand is exhausted, nothing more can be subtracted. */
  lemma SubtractRest(l0: seq<Pair>, l: seq<Pair>, r: seq<Pair>, j: nat)
    requires Subtracting(l0, l, |l|, r, j)
    ensures Subtracting(l0, l, |l|, r, |r|)
    decreases |r| - j
  {
    if j < |r| {
      SubtractSkip(l0, l, |l|, r, j);
      SubtractRest(l0, l, r, j + 1);
    }
  }

  // ----- an object subtracted from itself

  function EveryOther(ps: seq<Pair>): seq<Pair> {
    if ps == [] then [] else AndEveryOther(ps[1..])
  }

  function AndEveryOther(ps: seq<Pair>): seq<Pair> {
    if ps == [] then [] else [ps[0]] + EveryOther(ps[1..])
  }

  /** Subtracting an object from itself leaves nothing if and only if it has at most one entry. */
  lemma SelfDifferenceIff(ps: seq<Pair>)
    ensures EveryOther(ps) == [] <==> |ps| <= 1
  {
    if |ps| > 1 {
      assert EveryOther(ps) == [ps[1]] + EveryOther(ps[1..][1..]);
    }
  }

  ghost predicate Cancelling(l0: seq<Pair>, l: seq<Pair>, i: nat, j: nat) {
    && i <= |l|
    && ((j == i && EveryOther(l0) == l[..i] + EveryOther(l[i..]))
        || (j == i + 1 && EveryOther(l0) == l[..i] + AndEveryOther(l[i..])))
  }

  /** The left cursor is behind: it passes the entry that stays. */
  lemma CancelKeep(l0: seq<Pair>, l: seq<Pair>, i: nat, j: nat)
    requires Cancelling(l0, l, i, j) && i < |l| && j < |l| && Less(l[i].name, l[j].name)
    ensures Cancelling(l0, l, i + 1, j)
  {
    LessIrreflexive(l[i].name);
    assert l[i..][0] == l[i] && l[i..][1..] == l[i + 1..];
    assert l[..i] + ([l[i]] + EveryOther(l[i + 1..])) == l[..i + 1] + EveryOther(l[i + 1..]);
  }

  /** Both cursors are at the same entry, which goes. */
  lemma CancelErase(l0: seq<Pair>, l: seq<Pair>, i: nat, j: nat)
    requires Sorted(l) && Positive(l) && Cancelling(l0, l, i, j) && i < |l| && j < |l| && l[i].name == l[j].name
    ensures var out := Erase(l, i); Sorted(out) && Positive(out) && Cancelling(l0, out, i, j + 1)
  {
    if i != j {
      Apart(l, i, j);
    }
    var out := Erase(l, i);
    assert l[i..][1..] == l[i + 1..] == out[i..] && out[..i] == l[..i];
    forall a, b | 0 <= a < b < |out| ensures Less(out[a].name, out[b].name) {
      assert out[a] == l[if a < i then a else a + 1] && out[b] == l[if b < i then b else b + 1];
    }
  }

  lemma CancelEnd(l0: seq<Pair>, l: seq<Pair>, i: nat, j: nat)
    requires Cancelling(l0, l, i, j) && (i == |l| || j >= |l|)
    ensures l == EveryOther(l0)
  {
    assert l == l[..i] + l[i..];
    if j == i + 1 && i < |l| {
      assert l[i..] == [l[i]] && l[i..][1..] == [];
      assert AndEveryOther(l[i..]) == [l[i]] + EveryOther([]) == [l[i]];
    }
  }

  class ResourceQuantities {
    var quantities: seq<Pair>

    ghost predicate Valid()
      reads this
    {
      Sorted(quantities) && Positive(quantities)
    }

    constructor ()
      ensures Valid() && quantities == []
    {
      quantities := [];
    }

    constructor Copy(that: ResourceQuantities)
      requires that.Valid()
      ensures Valid() && quantities == that.quantities
    {
      quantities := that.quantities;
    }

    /** Zero when absent. */
    method Get(name: string) returns (amount: int)
      requires Valid()
      ensures amount == At(quantities, name)
    {
      for i := 0 to |quantities|
        invariant forall k :: 0 <= k < i ==> Less(quantities[k].name, name)
      {
        LessTotal(quantities[i].name, name);
        if quantities[i].name == name {
          LookupAt(quantities, i);
          return quantities[i].amount;
        } else if Less(name, quantities[i].name) {
          forall k | i <= k < |quantities| ensures Less(name, quantities[k].name) {
            if i < k {
              LessTransitive(name, quantities[i].name, quantities[k].name);
            }
          }
          GapIsAbsent(quantities, i, name);
          return 0;
        }
      }
      GapIsAbsent(quantities, |quantities|, name);
      return 0;
    }

    /** Adds an amount; zero is ignored. */
    method Add(name: string, amount: nat)
      requires Valid()
      modifies this
      ensures Valid()
      ensures forall n :: At(quantities, n) == At(old(quantities), n) + if n == name then amount else 0
    {
      if amount == 0 {
        return;
      }
      var i := 0;
      while i < |quantities| && Less(quantities[i].name, name)
        invariant i <= |quantities|
        invariant forall k :: 0 <= k < i ==> Less(quantities[k].name, name)
      {
        i := i + 1;
      }
      var l := quantities;
      var right := [Pair(name, amount)];
      assert Adding(l, l, i, right, 0);
      if i < |l| {
        LessTotal(l[i].name, name);
      }
      if i < |l| && l[i].name == name {
        AddMerge(l, l, i, right, 0);
        quantities := l[i := Pair(name, l[i].amount + amount)];
      } else {
        AddInsert(l, l, i, right, 0);
        quantities := Insert(l, i, Pair(name, amount));
      }
      assert right[..1] == right && [Pair(name, amount)][1..] == [];
    }

    /** `operator+=` is pointwise addition, also of an object to itself. */
    method AddAll(right: ResourceQuantities)
      requires Valid() && right.Valid()
      modifies this
      ensures Valid()
      ensures forall n :: At(quantities, n) == At(old(quantities), n) + At(old(right.quantities), n)
    {
      hide Adding;
      var i, j := 0, 0;
      ghost var l0, r := quantities, right.quantities;
      AddBegin(l0, r);
      while i < |quantities| && j < |right.quantities|
        invariant i <= |quantities| && j <= |r|
        invariant Adding(l0, quantities, i, r, j)
        invariant right != this ==> right.quantities == r
        invariant right == this ==> i == j && |quantities| == |r| && forall k :: j <= k < |r| ==> quantities[k] == r[k]
        decreases |quantities| - i + |r| - j, |r| - j
      {
        var q := right.quantities[j];
        LessTotal(quantities[i].name, q.name);
        LessIrreflexive(q.name);
        if Less(quantities[i].name, q.name) {
          AddSkip(l0, quantities, i, r, j);
          i := i + 1;
        } else if quantities[i].name != q.name {
          AddInsert(l0, quantities, i, r, j);
          quantities := Insert(quantities, i, q);
          i, j := i + 1, j + 1;
        } else {
          AddMerge(l0, quantities, i, r, j);
          quantities := quantities[i := Pair(q.name, quantities[i].amount + q.amount)];
          i, j := i + 1, j + 1;
        }
      }
      while j < |right.quantities|
        invariant j <= |r| && (j < |r| ==> i == |quantities|)
        invariant right != this ==> right.quantities == r
        invariant right == this ==> |quantities| == |r| == i == j
        invariant Adding(l0, quantities, i, r, j)
      {
        AddInsert(l0, quantities, i, r, j);
        assert Insert(quantities, i, r[j]) == quantities + [r[j]];
        quantities := quantities + [right.quantities[j]];
        i, j := i + 1, j + 1;
      }
      AddEnd(l0, quantities, i, r);
    }

    /**
    `operator-=` is pointwise subtraction truncated at zero. An object subtracted from itself keeps
    every other entry: an erased one moves the next under the cursor on the right.
    */
    method SubtractAll(right: ResourceQuantities)
      requires Valid() && right.Valid()
      modifies this
      ensures Valid()
      ensures right != this ==> forall n :: At(quantities, n) == Minus(At(old(quantities), n), At(right.quantities, n))
      ensures right == this ==> quantities == EveryOther(old(quantities))
    {
      hide Subtracting;
      var i, j := 0, 0;
      ghost var l0, r := quantities, right.quantities;
      SubtractBegin(l0, r);
      assert quantities[0..] == l0 && quantities[..0] + EveryOther(l0) == EveryOther(l0);
      while i < |quantities| && j < |right.quantities|
        invariant i <= |quantities| && (right != this ==> right.quantities == r && j <= |r|)
        invariant right != this ==> Subtracting(l0, quantities, i, r, j)
        invariant right == this ==> Valid() && Cancelling(l0, quantities, i, j)
        decreases |quantities| - i + |right.quantities| - j
      {
        var q := right.quantities[j];
        LessTotal(quantities[i].name, q.name);
        LessIrreflexive(q.name);
        if Less(quantities[i].name, q.name) {
          if right == this {
            CancelKeep(l0, quantities, i, j);
          } else {
            SubtractKeep(l0, quantities, i, r, j);
          }
          i := i + 1;
        } else if quantities[i].name != q.name {
          SubtractSkip(l0, quantities, i, r, j);
          j := j + 1;
        } else if quantities[i].amount <= q.amount {
          if right == this {
            CancelErase(l0, quantities, i, j);
          } else {
            SubtractErase(l0, quantities, i, r, j);
          }
          quantities := Erase(quantities, i);
          j := j + 1;
        } else {
          SubtractReduce(l0, quantities, i, r, j);
          quantities := quantities[i := Pair(q.name, quantities[i].amount - q.amount)];
          i, j := i + 1, j + 1;
        }
      }
      if right == this {
        CancelEnd(l0, quantities, i, j);
      } else {
        SubtractEnd(l0, quantities, i, r, j);
      }
    }

    /** Pointwise at least as much. */
    method Contains(right: ResourceQuantities) returns (b: bool)
      requires Valid() && right.Valid()
      ensures b <==> forall n :: At(right.quantities, n) <= At(quantities, n)
    {
      var i, j := 0, 0;
      var r := right.quantities;
      while i < |quantities| && j < |r|
        invariant Behind(quantities, i, r, j)
        invariant forall k :: 0 <= k < j ==> r[k].amount <= At(quantities, r[k].name)
        decreases |quantities| - i + |r| - j
      {
        LessTotal(quantities[i].name, r[j].name);
        if Less(quantities[i].name, r[j].name) {
          SkipLeft(quantities, i, r, j);
          i := i + 1;
        } else if quantities[i].name != r[j].name {
          RightInGap(quantities, i, r, j);
          GapIsAbsent(quantities, i, r[j].name);
          LookupAt(r, j);
          assert At(r, r[j].name) > At(quantities, r[j].name);
          return false;
        } else {
          LookupAt(quantities, i);
          LookupAt(r, j);
          if quantities[i].amount < r[j].amount {
            assert At(r, r[j].name) > At(quantities, r[j].name);
            return false;
          }
          forall m | j + 1 <= m < |r| ensures Less(quantities[i].name, r[m].name) {
          }
          i, j := i + 1, j + 1;
        }
      }
      if j < |r| {
        RightInGap(quantities, i, r, j);
        GapIsAbsent(quantities, i, r[j].name);
        LookupAt(r, j);
        assert At(r, r[j].name) > At(quantities, r[j].name);
        return false;
      }
      forall n ensures At(r, n) <= At(quantities, n) {
        PositiveAt(quantities, n);
        if Lookup(r, n).Some? {
          var k := LookupPresent(r, n);
        }
      }
      return true;
    }
  }

  lemma AddBegin(l: seq<Pair>, r: seq<Pair>)
    requires Sorted(l) && Positive(l) && Sorted(r) && Positive(r)
    ensures Adding(l, l, 0, r, 0)
  {
  }

  lemma AddSkip(l0: seq<Pair>, l: seq<Pair>, i: nat, r: seq<Pair>, j: nat)
    requires Adding(l0, l, i, r, j) && i < |l| && j < |r| && Less(l[i].name, r[j].name)
    ensures Adding(l0, l, i + 1, r, j)
  {
    SkipLeft(l, i, r, j);
  }

  lemma AddEnd(l0: seq<Pair>, l: seq<Pair>, i: nat, r: seq<Pair>)
    requires Adding(l0, l, i, r, |r|)
    ensures Sorted(l) && Positive(l) && forall n :: At(l, n) == At(l0, n) + At(r, n)
  {
    assert r[..|r|] == r;
  }

  lemma SubtractBegin(l: seq<Pair>, r: seq<Pair>)
    requires Sorted(l) && Positive(l) && Sorted(r) && Positive(r)
    ensures Subtracting(l, l, 0, r, 0)
  {
    forall name ensures At(l, name) == Minus(At(l, name), At(r[..0], name)) { PositiveAt(l, name); }
  }

  lemma SubtractKeep(l0: seq<Pair>, l: seq<Pair>, i: nat, r: seq<Pair>, j: nat)
    requires Subtracting(l0, l, i, r, j) && i < |l| && j < |r| && Less(l[i].name, r[j].name)
    ensures Subtracting(l0, l, i + 1, r, j)
  {
    SkipLeft(l, i, r, j);
  }

  lemma SubtractEnd(l0: seq<Pair>, l: seq<Pair>, i: nat, r: seq<Pair>, j: nat)
    requires Subtracting(l0, l, i, r, j) && (i == |l| || j == |r|)
    ensures Sorted(l) && Positive(l) && forall n :: At(l, n) == Minus(At(l0, n), At(r, n))
  {
    if i == |l| {
      SubtractRest(l0, l, r, j);
    }
    assert r[..|r|] == r;
  }

  /** Equal vectors and equal maps are the same thing, so `==` on vectors compares maps. */
  lemma {:induction false} SortedUnique(l: seq<Pair>, r: seq<Pair>)
    requires Sorted(l) && Sorted(r) && forall name :: Lookup(l, name) == Lookup(r, name)
    ensures l == r
  {
    if l == [] || r == [] {
      if l != [] {
        LookupAt(l, 0);
      }
      if r != [] {
        LookupAt(r, 0);
      }
    } else {
      FirstIsSmallest(l, r);
      FirstIsSmallest(r, l);
      LessNotBoth(l[0].name, r[0].name);
      LookupAt(l, 0);
      LookupAt(r, 0);
      forall name ensures Lookup(l[1..], name) == Lookup(r[1..], name) {
        if name == l[0].name {
          forall k | 1 <= k < |l| ensures l[k].name != name { Apart(l, 0, k); }
          forall k | 1 <= k < |r| ensures r[k].name != name { Apart(r, 0, k); }
          LookupAbsent(l[1..], name);
          LookupAbsent(r[1..], name);
        } else {
          assert Lookup(l, name) == Lookup(r, name);
        }
      }
      SortedUnique(l[1..], r[1..]);
      assert l == [l[0]] + l[1..] && r == [r[0]] + r[1..];
    }
  }

  lemma FirstIsSmallest(l: seq<Pair>, r: seq<Pair>)
    requires Sorted(r) && l != [] && r != [] && forall name :: Lookup(l, name) == Lookup(r, name)
    ensures r[0].name == l[0].name || Less(r[0].name, l[0].name)
  {
    assert Lookup(l, l[0].name).Some?;
    var k := LookupPresent(r, l[0].name);
  }

  lemma LessNotBoth(a: string, b: string)
    ensures !(Less(a, b) && Less(b, a))
  {
    if Less(a, b) && Less(b, a) {
      LessTransitive(a, b, a);
      LessIrreflexive(a);
    }
  }

  /** Positive vectors with the same amounts are the same vector. */
  lemma PositiveUnique(l: seq<Pair>, r: seq<Pair>)
    requires Sorted(l) && Positive(l) && Sorted(r) && Positive(r) && forall name :: At(l, name) == At(r, name)
    ensures l == r
  {
    forall name ensures Lookup(l, name) == Lookup(r, name) {
      assert At(l, name) == At(r, name);
      if Lookup(l, name).Some? {
        var i := LookupPresent(l, name);
      }
      if Lookup(r, name).Some? {
        var i := LookupPresent(r, name);
      }
    }
    SortedUnique(l, r);
  }

  /**
  Taking quantities away undoes adding them, and adding them undoes taking them away exactly when
  they were all there.
  */
  lemma SumAndDifference(a: seq<Pair>, b: seq<Pair>, sum: seq<Pair>, back: seq<Pair>, rest: seq<Pair>, again: seq<Pair>)
    requires forall ps :: ps in {a, b, sum, back, rest, again} ==> Sorted(ps) && Positive(ps)
    requires forall n :: At(sum, n) == At(a, n) + At(b, n)
    requires forall n :: At(back, n) == Minus(At(sum, n), At(b, n))
    requires forall n :: At(rest, n) == Minus(At(a, n), At(b, n))
    requires forall n :: At(again, n) == At(rest, n) + At(b, n)
    ensures back == a
    ensures again == a <==> forall n :: At(b, n) <= At(a, n)
  {
    forall n ensures At(back, n) == At(a, n) && (At(again, n) == At(a, n) <==> At(b, n) <= At(a, n)) {
      PositiveAt(a, n);
    }
    PositiveUnique(back, a);
    if forall n :: At(b, n) <= At(a, n) {
      PositiveUnique(again, a);
    }
  }

  // ----- limits

  /** A limit after some quantity is used: an infinite one stays infinite, a finite one stops at zero. */
  function Reduced(limit: Option<int>, used: Option<int>): Option<int> {
    if limit.None? || used.None? then limit
    else Some(if limit.value < used.value then 0 else limit.value - used.value)
  }

  ghost predicate Reducing(l0: seq<Pair>, l: seq<Pair>, i: nat, r: seq<Pair>, j: nat) {
    && Sorted(l) && Sorted(r) && Behind(l, i, r, j)
    && forall name :: Lookup(l, name) == Reduced(Lookup(l0, name), Lookup(r[..j], name))
  }

  lemma ReduceKeep(l0: seq<Pair>, l: seq<Pair>, i: nat, r: seq<Pair>, j: nat)
    requires Reducing(l0, l, i, r, j) && i < |l| && j < |r| && Less(l[i].name, r[j].name)
    ensures Reducing(l0, l, i + 1, r, j)
  {
    SkipLeft(l, i, r, j);
  }

  lemma ReduceSkip(l0: seq<Pair>, l: seq<Pair>, i: nat, r: seq<Pair>, j: nat)
    requires Reducing(l0, l, i, r, j) && j < |r| && (i < |l| ==> Less(r[j].name, l[i].name))
    ensures Reducing(l0, l, i, r, j + 1)
  {
    RightInGap(l, i, r, j);
    GapIsAbsent(l, i, r[j].name);
    forall name ensures Lookup(l, name) == Reduced(Lookup(l0, name), Lookup(r[..j + 1], name)) {
      TakeRight(r, j, name);
      assert Lookup(l, name) == Reduced(Lookup(l0, name), Lookup(r[..j], name));
    }
  }

  lemma ReduceMatch(l0: seq<Pair>, l: seq<Pair>, i: nat, r: seq<Pair>, j: nat, amount: int)
    requires Reducing(l0, l, i, r, j) && i < |l| && j < |r| && l[i].name == r[j].name
    requires Some(amount) == Reduced(Some(l[i].amount), Some(r[j].amount))
    ensures Reducing(l0, l[i := Pair(l[i].name, amount)], i + 1, r, j + 1)
  {
    var out := l[i := Pair(l[i].name, amount)];
    LookupAt(l, i);
    forall name ensures Sorted(out) && Lookup(out, name) == Reduced(Lookup(l0, name), Lookup(r[..j + 1], name)) {
      UpdateLookup(l, i, amount, name);
      TakeRight(r, j, name);
      assert Lookup(l, name) == Reduced(Lookup(l0, name), Lookup(r[..j], name));
    }
  }

  lemma {:induction false} ReduceRest(l0: seq<Pair>, l: seq<Pair>, i: nat, r: seq<Pair>, j: nat)
    requires Reducing(l0, l, i, r, j) && (i == |l| || j == |r|)
    ensures Sorted(l) && forall name :: Lookup(l, name) == Reduced(Lookup(l0, name), Lookup(r, name))
    decreases |r| - j
  {
    if j < |r| {
      ReduceSkip(l0, l, i, r, j);
      ReduceRest(l0, l, i, r, j + 1);
    } else {
      assert r[..j] == r;
    }
  }

  /** At least as large, an absent limit being larger than every other. */
  predicate Covers(big: Option<int>, small: Option<int>) {
    big.None? || (small.Some? && small.value <= big.value)
  }

  /** A limit on one name and a limit on another: neither contains the other. */
  lemma LimitsApart()
    ensures var cpu, mem := [Pair("cpu", 1000)], [Pair("mem", 1000)];
      && Sorted(cpu) && Sorted(mem)
      && !Covers(Lookup(cpu, "cpu"), Lookup(mem, "cpu")) && !Covers(Lookup(mem, "mem"), Lookup(cpu, "mem"))
  {
    var cpu, mem := [Pair("cpu", 1000)], [Pair("mem", 1000)];
    assert cpu[1..] == [] && mem[1..] == [];
    assert "cpu"[0] != "mem"[0];
  }

  class ResourceLimits {
    var limits: seq<Pair>

    ghost predicate Valid()
      reads this
    {
      Sorted(limits)
    }

    constructor ()
      ensures Valid() && limits == []
    {
      limits := [];
    }

    constructor Copy(that: ResourceLimits)
      requires that.Valid()
      ensures Valid() && limits == that.limits
    {
      limits := that.limits;
    }

    method Get(name: string) returns (limit: Option<int>)
      requires Valid()
      ensures limit == Lookup(limits, name)
    {
      for i := 0 to |limits|
        invariant forall k :: 0 <= k < i ==> Less(limits[k].name, name)
      {
        LessTotal(limits[i].name, name);
        if limits[i].name == name {
          LookupAt(limits, i);
          return Some(limits[i].amount);
        } else if Less(name, limits[i].name) {
          forall k | i <= k < |limits| ensures Less(name, limits[k].name) {
            if i < k {
              LessTransitive(name, limits[i].name, limits[k].name);
            }
          }
          GapIsAbsent(limits, i, name);
          return None;
        }
      }
      GapIsAbsent(limits, |limits|, name);
      return None;
    }

    /** Overwrites a limit; zero is kept. */
    method Set(name: string, amount: int)
      requires Valid()
      modifies this
      ensures Valid()
      ensures forall n :: Lookup(limits, n) == if n == name then Some(amount) else Lookup(old(limits), n)
    {
      var i := 0;
      while i < |limits| && Less(limits[i].name, name)
        invariant i <= |limits|
        invariant forall k :: 0 <= k < i ==> Less(limits[k].name, name)
      {
        i := i + 1;
      }
      var l := limits;
      if i < |l| {
        LessTotal(l[i].name, name);
      }
      if i < |l| && l[i].name == name {
        limits := l[i := Pair(name, amount)];
        forall n ensures Valid() && Lookup(limits, n) == if n == name then Some(amount) else Lookup(l, n) {
          UpdateLookup(l, i, amount, n);
        }
      } else {
        limits := Insert(l, i, Pair(name, amount));
        forall k | i <= k < |l| ensures Less(name, l[k].name) {
          if i < k {
            LessTransitive(name, l[i].name, l[k].name);
          }
        }
        forall n ensures Valid() && Lookup(limits, n) == if n == name then Some(amount) else Lookup(l, n) {
          InsertLookup(l, i, Pair(name, amount), n);
        }
      }
    }

    /** Every limit is at least the other's, absent meaning infinite. */
    method ContainsLimits(right: ResourceLimits) returns (b: bool)
      requires Valid() && right.Valid()
      ensures b <==> forall n :: Covers(Lookup(limits, n), Lookup(right.limits, n))
    {
      var i, j := 0, 0;
      var l, r := limits, right.limits;
      while i < |l| && j < |r|
        invariant Behind(r, j, l, i)
        invariant forall k :: 0 <= k < i ==> Covers(Some(l[k].amount), Lookup(r, l[k].name))
        decreases |l| - i + |r| - j
      {
        LessTotal(l[i].name, r[j].name);
        LookupAt(l, i);
        LookupAt(r, j);
        if Less(l[i].name, r[j].name) {
          RightInGap(r, j, l, i);
          GapIsAbsent(r, j, l[i].name);
          assert !Covers(Lookup(l, l[i].name), Lookup(r, l[i].name));
          return false;
        } else if l[i].name != r[j].name {
          SkipLeft(r, j, l, i);
          j := j + 1;
        } else {
          if l[i].amount < r[j].amount {
            assert !Covers(Lookup(l, l[i].name), Lookup(r, l[i].name));
            return false;
          }
          forall m | i + 1 <= m < |l| ensures Less(r[j].name, l[m].name) {
          }
          i, j := i + 1, j + 1;
        }
      }
      if i < |l| {
        RightInGap(r, j, l, i);
        GapIsAbsent(r, j, l[i].name);
        LookupAt(l, i);
        assert !Covers(Lookup(l, l[i].name), Lookup(r, l[i].name));
        return false;
      }
      forall n ensures Covers(Lookup(l, n), Lookup(r, n)) {
        if Lookup(l, n).Some? {
          var k := LookupPresent(l, n);
        }
      }
      return true;
    }

    /** Every quantity is within its limit. */
    method ContainsQuantities(quantities: ResourceQuantities) returns (b: bool)
      requires Valid() && quantities.Valid()
      ensures b <==> forall n :: Lookup(quantities.quantities, n).Some?
                               ==> Covers(Lookup(limits, n), Lookup(quantities.quantities, n))
    {
      var q := quantities.quantities;
      for i := 0 to |q|
        invariant forall k :: 0 <= k < i ==> Covers(Lookup(limits, q[k].name), Some(q[k].amount))
      {
        var limit := Get(q[i].name);
        if limit.Some? && limit.value < q[i].amount {
          LookupAt(q, i);
          assert !Covers(Lookup(limits, q[i].name), Lookup(q, q[i].name));
          return false;
        }
      }
      forall n | Lookup(q, n).Some? ensures Covers(Lookup(limits, n), Lookup(q, n)) {
        var k := LookupPresent(q, n);
      }
      return true;
    }

    /** `operator-=`: infinite limits stay infinite, finite ones stop at zero and are kept. */
    method SubtractAll(right: ResourceQuantities)
      requires Valid() && right.Valid()
      modifies this
      ensures Valid()
      ensures forall n :: Lookup(limits, n) == Reduced(Lookup(old(limits), n), Lookup(right.quantities, n))
    {
      hide Reducing;
      var i, j := 0, 0;
      var r := right.quantities;
      ghost var l0 := limits;
      ReduceBegin(l0, r);
      while i < |limits| && j < |r|
        invariant i <= |limits| && j <= |r|
        invariant Reducing(l0, limits, i, r, j)
        decreases |limits| - i + |r| - j
      {
        LessTotal(limits[i].name, r[j].name);
        if Less(limits[i].name, r[j].name) {
          ReduceKeep(l0, limits, i, r, j);
          i := i + 1;
        } else if limits[i].name != r[j].name {
          ReduceSkip(l0, limits, i, r, j);
          j := j + 1;
        } else {
          var rest := limits[i].amount - r[j].amount;
          var amount := if rest < 0 then 0 else rest;
          ReduceMatch(l0, limits, i, r, j, amount);
          limits := limits[i := Pair(limits[i].name, amount)];
          i, j := i + 1, j + 1;
        }
      }
      ReduceRest(l0, limits, i, r, j);
    }
  }

  lemma ReduceBegin(l: seq<Pair>, r: seq<Pair>)
    requires Sorted(l) && Sorted(r)
    ensures Reducing(l, l, 0, r, 0)
  {
  }
}
