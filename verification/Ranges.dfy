/**
Ranges of unsigned 64-bit integers, such as port ranges: coalescing in place, comparison and
subtraction, each against the set of integers that a list of ranges covers.
*/
module Ranges {

  const MAX: nat := 0xFFFF_FFFF_FFFF_FFFF

  datatype Range = Range(start: nat, end: nat) {
    predicate Valid() {
      start <= end <= MAX
    }

    predicate Has(x: nat) {
      start <= x <= end
    }
  }

  ghost predicate AllValid(rs: seq<Range>) {
    forall r :: r in rs ==> r.Valid()
  }

  /** The meaning of a list of ranges is the set of integers it covers. */
  ghost predicate Covers(rs: seq<Range>, x: nat) {
    exists r :: r in rs && r.Has(x)
  }

  ghost predicate SameCover(rs: seq<Range>, qs: seq<Range>) {
    forall x :: Covers(rs, x) <==> Covers(qs, x)
  }

  ghost predicate Within(rs: seq<Range>, qs: seq<Range>) {
    forall x :: Covers(rs, x) ==> Covers(qs, x)
  }

  /** Sorted, disjoint and not even adjacent. */
  ghost predicate Canonical(rs: seq<Range>) {
    AllValid(rs) && forall k :: 0 <= k < |rs| - 1 ==> rs[k].end + 1 < rs[k + 1].start
  }

  lemma CoversAppend(rs: seq<Range>, r: Range, x: nat)
    ensures Covers(rs + [r], x) <==> Covers(rs, x) || r.Has(x)
  {
    assert forall q :: q in rs + [r] <==> q in rs || q == r;
    if r.Has(x) {
      assert r in rs + [r];
    }
  }

  // ----- sorting

  predicate Before(r: Range, q: Range) {
    r.start < q.start || (r.start == q.start && r.end <= q.end)
  }

  ghost predicate Sorted(rs: seq<Range>) {
    forall i, j :: 0 <= i < j < |rs| ==> Before(rs[i], rs[j])
  }

  function Insert(r: Range, rs: seq<Range>): seq<Range> {
    if rs == [] then [r]
    else if Before(r, rs[0]) then [r] + rs
    else [rs[0]] + Insert(r, rs[1..])
  }

  lemma {:induction false} InsertElements(r: Range, rs: seq<Range>)
    ensures multiset(Insert(r, rs)) == multiset(rs) + multiset{r}
  {
    if rs == [] || Before(r, rs[0]) {
      assert Insert(r, rs) == [r] + rs;
    } else {
      var rest := Insert(r, rs[1..]);
      InsertElements(r, rs[1..]);
      assert Insert(r, rs) == [rs[0]] + rest && rs == [rs[0]] + rs[1..];
      assert multiset([rs[0]] + rest) == multiset{rs[0]} + multiset(rest);
    }
  }

  lemma {:induction false} InsertSorted(r: Range, rs: seq<Range>)
    requires Sorted(rs)
    ensures Sorted(Insert(r, rs))
  {
    if rs != [] && !Before(r, rs[0]) {
      InsertSorted(r, rs[1..]);
      InsertElements(r, rs[1..]);
      var rest := Insert(r, rs[1..]);
      forall k | 0 <= k < |rest| ensures Before(rs[0], rest[k]) {
        assert rest[k] in multiset(rest);
        assert rest[k] == r || rest[k] in rs[1..];
      }
    }
  }

  lemma InsertNext(rs: seq<Range>, rest: seq<Range>)
    requires rs != [] && Sorted(rest) && multiset(rest) == multiset(rs[1..])
    ensures Sorted(Insert(rs[0], rest)) && multiset(Insert(rs[0], rest)) == multiset(rs)
  {
    hide Sorted, Insert;
    InsertSorted(rs[0], rest);
    InsertElements(rs[0], rest);
    assert rs == [rs[0]] + rs[1..];
  }

  /** The list that `std::sort` leaves, ordered by start and then by end. */
  function Sort(rs: seq<Range>): (out: seq<Range>)
    ensures Sorted(out) && multiset(out) == multiset(rs)
  {
    if rs == [] then []
    else
      var rest := Sort(rs[1..]);
      InsertNext(rs, rest);
      Insert(rs[0], rest)
  }

  lemma SameElements(rs: seq<Range>, qs: seq<Range>)
    requires multiset(rs) == multiset(qs)
    ensures |rs| == |qs| && (forall r :: r in rs <==> r in qs) && SameCover(rs, qs)
  {
    assert forall r :: r in rs <==> r in multiset(rs);
    assert forall r :: r in qs <==> r in multiset(qs);
    assert |rs| == |multiset(rs)| == |multiset(qs)| == |qs|;
  }

  // ----- coalescing

  /** The ranges already closed and the one being extended. */
  datatype Pass = Pass(closed: seq<Range>, current: Range) {
    function Out(): seq<Range> {
      closed + [current]
    }
  }

  /** 64-bit addition wraps around. */
  function Succ(x: nat): nat {
    (x + 1) % (MAX + 1)
  }

  function Max(x: nat, y: nat): nat {
    if x < y then y else x
  }

  /** One iteration of the pass over the sorted ranges. */
  function Absorb(p: Pass, r: Range): Pass {
    var c := p.current;
    if r == c then p
    else if r.start == c.start && r.end > c.end then p.(current := c.(end := r.end))
    else if r.start > c.start then
      if r.start <= Succ(c.end) then p.(current := c.(end := Max(c.end, r.end)))
      else Pass(p.closed + [c], r)
    else p
  }

  function Scan(s: seq<Range>): Pass
    requires s != []
  {
    if |s| == 1 then Pass([], s[0]) else Absorb(Scan(s[..|s| - 1]), s[|s| - 1])
  }

  lemma ScanNext(s: seq<Range>, i: nat)
    requires i < |s|
    ensures Scan(s[..i + 1]) == if i == 0 then Pass([], s[0]) else Absorb(Scan(s[..i]), s[i])
  {
    assert s[..i + 1][..i] == s[..i];
  }

  function Coalesced(rs: seq<Range>): seq<Range> {
    if rs == [] then [] else Scan(Sort(rs)).Out()
  }

  /** The single pass, in place: it never overwrites a range that it has yet to read. */
  method CoalesceInPlace(a: array<Range>) returns (count: nat)
    requires a.Length > 0
    modifies a
    ensures count <= a.Length
    ensures a[..count] == Scan(old(a[..])).Out()
  {
    hide Scan;
    ghost var s := a[..];
    count := 1;
    var current := a[0];
    for i := 0 to a.Length
      invariant 1 <= count <= Max(i, 1)
      invariant forall k :: i <= k < a.Length ==> a[k] == s[k]
      invariant i == 0 ==> current == s[0] && count == 1
      invariant i > 0 ==> Pass(a[..count - 1], current) == Scan(s[..i])
    {
      var range := a[i];
      ghost var p := Pass(a[..count - 1], current);
      if range == current {
      } else if range.start == current.start && range.end > current.end {
        current := current.(end := range.end);
      } else if range.start > current.start {
        if range.start <= Succ(current.end) {
          current := current.(end := Max(current.end, range.end));
        } else {
          a[count - 1] := current;
          count := count + 1;
          current := range;
        }
      }
      ScanNext(s, i);
      assert i > 0 ==> Pass(a[..count - 1], current) == Absorb(p, range);
    }
    assert s[..a.Length] == s;
    a[count - 1] := current;
    assert a[..count] == a[..count - 1] + [current];
  }

  /** `coalesce`: copy, sort, one pass in place, and copy the prefix out. */
  method Coalesce(input: seq<Range>) returns (result: seq<Range>)
    ensures result == Coalesced(input)
  {
    if input == [] {
      return [];
    }
    var sorted := Sort(input);
    SameElements(input, sorted);
    var a := new Range[|sorted|](i requires 0 <= i < |sorted| => sorted[i]);
    assert a[..] == sorted;
    var count := CoalesceInPlace(a);
    result := a[..count];
  }

  lemma AbsorbCovers(p: Pass, r: Range, x: nat)
    requires p.current.Valid() && r.Valid() && p.current.start <= r.start
    ensures Covers(Absorb(p, r).Out(), x) <==> Covers(p.Out(), x) || r.Has(x)
  {
    CoversAppend(p.closed, p.current, x);
    CoversAppend(p.closed, Absorb(p, r).current, x);
    CoversAppend(p.closed + [p.current], r, x);
  }

  /** The starts of a pass increase. */
  ghost predicate Ascending(p: Pass) {
    forall k :: 0 <= k < |p.closed| ==> p.Out()[k].start < p.Out()[k + 1].start
  }

  lemma AbsorbAscends(p: Pass, r: Range)
    requires AllValid(p.Out()) && Ascending(p) && r.Valid() && p.current.start <= r.start
    ensures AllValid(Absorb(p, r).Out()) && Ascending(Absorb(p, r)) && Absorb(p, r).current.start <= r.start
  {
    var q := Absorb(p, r);
    assert p.current in p.Out() && p.current.Valid();
    assert forall x :: x in q.Out() ==> x in p.Out() || x == q.current;
    forall k | 0 <= k < |q.closed| ensures q.Out()[k].start < q.Out()[k + 1].start {
      if k < |p.closed| {
        assert q.Out()[k] == p.Out()[k] && q.Out()[k + 1].start == p.Out()[k + 1].start;
      }
    }
  }

  /** What the pass keeps: validity, order and the integers covered. */
  lemma {:induction false} ScanFacts(s: seq<Range>)
    requires s != [] && Sorted(s) && AllValid(s)
    ensures var p := Scan(s);
      AllValid(p.Out()) && SameCover(p.Out(), s) && p.current.start <= s[|s| - 1].start && Ascending(p)
  {
    var n := |s| - 1;
    if n == 0 {
      assert s == [s[0]] == Scan(s).Out();
    } else {
      hide Absorb, Ascending, Covers;
      var t, r := s[..n], s[n];
      ScanFacts(t);
      var p := Scan(t);
      assert Before(t[n - 1], r);
      assert s == t + [r];
      assert p.current in p.Out() && r in s;
      AbsorbAscends(p, r);
      forall x ensures Covers(Absorb(p, r).Out(), x) <==> Covers(s, x) {
        AbsorbCovers(p, r, x);
        CoversAppend(t, r, x);
      }
    }
  }

  /**
  When no range reaches 2^64-1, or the one that does is the last to start and either occurs once
  or begins a new block, the increment of an end never wraps around.
  */
  ghost predicate WrapSafe(rs: seq<Range>) {
    forall r :: r in rs && r.end == MAX ==>
      && (forall q :: q in rs ==> q.start <= r.start)
      && (multiset(rs)[r] == 1 || forall q :: q in rs ==> !(q.start < r.start <= q.end + 1))
  }

  lemma {:induction false} ScanCanonical(s: seq<Range>)
    requires s != [] && Sorted(s) && AllValid(s)
    ensures Canonical(Scan(s).Out()) <==> WrapSafe(s)
  {
    var n := |s| - 1;
    if n == 0 {
      assert s == [s[0]] == Scan(s).Out();
    } else {
      var t, r := s[..n], s[n];
      assert s == t + [r];
      ScanFacts(t);
      ScanCanonical(t);
      if WrapSafe(t) {
        assert Extends(t, r);
        assert Scan(t).current in Scan(t).Out();
        if Scan(t).current.end < MAX {
          AbsorbFree(t, r);
        } else if r.start == Scan(t).current.start {
          AbsorbAgain(t, r);
        } else {
          AbsorbWrapped(t, r);
        }
      } else {
        AbsorbBroken(t, r);
      }
    }
  }

  lemma AbsorbBroken(t: seq<Range>, r: Range)
    requires t != [] && AllValid(t) && r.Valid() && !WrapSafe(t) && !Canonical(Scan(t).Out())
    requires AllValid(Scan(t).Out())
    ensures !WrapSafe(t + [r]) && !Canonical(Absorb(Scan(t), r).Out())
  {
    hide WrapSafe, Scan;
    if WrapSafe(t + [r]) {
      WrapSafeFront(t, r);
    }
    var p, q := Scan(t), Absorb(Scan(t), r);
    var k :| 0 <= k < |p.closed| && !(p.Out()[k].end + 1 < p.Out()[k + 1].start);
    assert q.Out()[k] == p.Out()[k] && q.Out()[k + 1].start == p.Out()[k + 1].start;
  }

  lemma WrapSafeFront(t: seq<Range>, r: Range)
    requires WrapSafe(t + [r])
    ensures WrapSafe(t)
  {
    assert forall x :: x in t ==> x in t + [r];
    assert multiset(t + [r]) == multiset(t) + multiset{r};
    forall m | m in t && m.end == MAX ensures multiset(t)[m] >= 1 { assert m in multiset(t); }
  }

  ghost predicate Extends(t: seq<Range>, r: Range) {
    && t != [] && Sorted(t) && AllValid(t) && r.Valid()
    && (forall q :: q in t ==> Before(q, r))
    && WrapSafe(t) && Canonical(Scan(t).Out())
  }

  /** In a canonical result only the last range can reach the maximum. */
  lemma LastReachesMax(t: seq<Range>)
    requires t != [] && Sorted(t) && AllValid(t) && Canonical(Scan(t).Out())
    ensures (exists q :: q in t && q.end == MAX) <==> Scan(t).current.end == MAX
  {
    var p := Scan(t);
    ScanFacts(t);
    var top := p.Out()[|p.closed|];
    assert top == p.current && top in p.Out();
    if q :| q in t && q.end == MAX {
      assert q.Has(MAX) && Covers(t, MAX);
      var o :| o in p.Out() && o.Has(MAX);
      var k :| 0 <= k < |p.Out()| && p.Out()[k] == o;
      CanonicalOrder(p.Out(), k, |p.closed|);
      assert top.Valid() && o.Valid();
      assert k == |p.closed|;
    }
    if top.end == MAX {
      assert top.Has(MAX) && Covers(p.Out(), MAX);
      assert Covers(t, MAX);
      var q :| q in t && q.Has(MAX);
      assert q.Valid() && q.end == MAX;
    }
  }

  /** Below the last range of a canonical result there is a gap. */
  lemma GapBelowCurrent(t: seq<Range>, q: Range)
    requires t != [] && Sorted(t) && AllValid(t) && Canonical(Scan(t).Out()) && q in t
    ensures !(q.start < Scan(t).current.start <= q.end + 1)
  {
    var p := Scan(t);
    ScanFacts(t);
    if q.start < p.current.start <= q.end + 1 {
      var x := p.current.start - 1;
      assert q.Has(x) && Covers(t, x);
      var o :| o in p.Out() && o.Has(x);
      var k :| 0 <= k < |p.Out()| && p.Out()[k] == o;
      CanonicalOrder(p.Out(), k, |p.closed|);
      assert false;
    }
  }

  lemma {:induction false} CanonicalOrder(rs: seq<Range>, i: nat, j: nat)
    requires Canonical(rs) && i <= j < |rs|
    ensures i < j ==> rs[i].end + 1 < rs[j].start
    decreases j - i
  {
    if i < j {
      var k := j - 1;
      CanonicalOrder(rs, i, k);
      assert rs[k] in rs;
      assert rs[k].end + 1 < rs[k + 1].start;
    }
  }

  lemma AbsorbFree(t: seq<Range>, r: Range)
    requires Extends(t, r) && Scan(t).current.end < MAX
    ensures WrapSafe(t + [r]) && Canonical(Absorb(Scan(t), r).Out())
  {
    var p := Scan(t);
    ScanFacts(t);
    LastReachesMax(t);
    assert t[|t| - 1] in t;
    AbsorbKeepsCanonical(p, r);
    assert forall q :: q in t + [r] <==> q in t || q == r;
    if r.end == MAX {
      assert r !in multiset(t);
      assert multiset(t + [r])[r] == multiset(t)[r] + 1;
    }
  }

  lemma AbsorbKeepsCanonical(p: Pass, r: Range)
    requires Canonical(p.Out()) && r.Valid() && p.current.start <= r.start && p.current.end < MAX
    ensures Canonical(Absorb(p, r).Out())
  {
    var before, after := p.Out(), Absorb(p, r).Out();
    assert forall q :: q in after ==> q in before || q == Absorb(p, r).current;
    forall k | 0 <= k < |after| - 1 ensures after[k].end + 1 < after[k + 1].start {
      if k < |p.closed| {
        assert after[k] == before[k] && after[k + 1].start == before[k + 1].start;
      }
    }
  }

  lemma AbsorbAgain(t: seq<Range>, r: Range)
    requires Extends(t, r) && Scan(t).current.end == MAX && r.start == Scan(t).current.start
    ensures WrapSafe(t + [r]) && Canonical(Absorb(Scan(t), r).Out())
  {
    var c := Scan(t).current;
    LastReachesMax(t);
    assert forall q :: q in t + [r] <==> q in t || q == r;
    forall q | q in t ensures !(q.start < c.start <= q.end + 1) {
      GapBelowCurrent(t, q);
    }
    var m :| m in t && m.end == MAX;
    assert m.start == c.start && r == c;
  }

  lemma AbsorbWrapped(t: seq<Range>, r: Range)
    requires Extends(t, r) && Scan(t).current.end == MAX && r.start > Scan(t).current.start
    ensures !WrapSafe(t + [r]) && !Canonical(Absorb(Scan(t), r).Out())
  {
    var p := Scan(t);
    var c := p.current;
    var out := Absorb(p, r).Out();
    assert out[|p.closed|] == c && out[|p.closed| + 1] == r;
    LastReachesMax(t);
    ScanFacts(t);
    var m :| m in t && m.end == MAX;
    WrappedUnsafe(t, r, c, m);
  }

  lemma WrappedUnsafe(t: seq<Range>, r: Range, c: Range, m: Range)
    requires m in t && m.end == MAX && c.end == MAX && c.start < r.start && r.Valid() && Before(m, r)
    requires forall x :: c.Has(x) ==> Covers(t, x)
    ensures !WrapSafe(t + [r])
  {
    assert forall q :: q in t + [r] <==> q in t || q == r;
    if r.start == m.start {
      assert r == m && multiset(t + [r])[m] >= 2 by {
        assert m in multiset(t);
        assert multiset(t + [r]) == multiset(t) + multiset{r};
      }
      var x := m.start - 1;
      assert c.Has(x) && Covers(t, x);
      var q :| q in t && q.Has(x);
      assert q.start < m.start <= q.end + 1;
    }
  }

  lemma WrapSafePermutes(rs: seq<Range>, qs: seq<Range>)
    requires multiset(rs) == multiset(qs)
    ensures WrapSafe(rs) <==> WrapSafe(qs)
  {
    SameElements(rs, qs);
  }

  /**
  Coalescing keeps the set of integers, and its result is in canonical form exactly when no
  increment wraps around.
  */
  lemma CoalesceCorrect(rs: seq<Range>)
    requires AllValid(rs)
    ensures AllValid(Coalesced(rs)) && SameCover(Coalesced(rs), rs)
    ensures Canonical(Coalesced(rs)) <==> WrapSafe(rs)
  {
    if rs != [] {
      var s := Sort(rs);
      SameElements(rs, s);
      ScanFacts(s);
      ScanCanonical(s);
      WrapSafePermutes(rs, s);
    }
  }

  /** A set of integers has at most one canonical form. */
  lemma {:induction false} CanonicalUnique(rs: seq<Range>, qs: seq<Range>)
    requires Canonical(rs) && Canonical(qs) && SameCover(rs, qs)
    ensures rs == qs
    decreases |rs|
  {
    if rs == [] || qs == [] {
      if qs != [] {
        FirstCovered(qs);
      }
      if rs != [] {
        FirstCovered(rs);
      }
    } else {
      FirstCover(rs, qs);
      FirstCover(qs, rs);
      assert rs[0] == qs[0];
      forall x ensures Covers(rs[1..], x) <==> Covers(qs[1..], x) {
        TailCover(rs, x);
        TailCover(qs, x);
      }
      CanonicalTail(rs);
      CanonicalTail(qs);
      CanonicalUnique(rs[1..], qs[1..]);
      assert rs == [rs[0]] + rs[1..] && qs == [qs[0]] + qs[1..];
    }
  }

  lemma FirstCovered(rs: seq<Range>)
    requires rs != [] && AllValid(rs)
    ensures Covers(rs, rs[0].start)
  {
    assert rs[0] in rs && rs[0].Valid() && rs[0].Has(rs[0].start);
  }

  lemma CanonicalTail(rs: seq<Range>)
    requires Canonical(rs) && rs != []
    ensures Canonical(rs[1..])
  {
    assert forall r :: r in rs[1..] ==> r in rs;
    forall k | 0 <= k < |rs[1..]| - 1 ensures rs[1..][k].end + 1 < rs[1..][k + 1].start {
      assert rs[k + 1].end + 1 < rs[k + 1 + 1].start;
    }
  }

  lemma TailCover(rs: seq<Range>, x: nat)
    requires Canonical(rs) && rs != []
    ensures Covers(rs[1..], x) <==> Covers(rs, x) && x > rs[0].end
  {
    if r :| r in rs[1..] && r.Has(x) {
      var k :| 0 <= k < |rs[1..]| && rs[1..][k] == r;
      CanonicalOrder(rs, 0, k + 1);
      assert rs[0] in rs && r in rs;
    }
    if Covers(rs, x) && x > rs[0].end {
      var r :| r in rs && r.Has(x);
      assert rs == [rs[0]] + rs[1..];
      assert r in rs[1..];
    }
  }

  lemma FirstCover(rs: seq<Range>, qs: seq<Range>)
    requires Canonical(rs) && Canonical(qs) && SameCover(rs, qs) && rs != [] && qs != []
    ensures rs[0].start <= qs[0].start && rs[0].end <= qs[0].end
  {
    var r, q := rs[0], qs[0];
    assert r in rs && q in qs && r.Valid() && q.Valid();
    assert q.Has(q.start) && Covers(qs, q.start);
    var o :| o in rs && o.Has(q.start);
    var k :| 0 <= k < |rs| && rs[k] == o;
    CanonicalOrder(rs, 0, k);
    if r.end > q.end {
      FirstStart(qs, rs);
      var x := q.end + 1;
      assert r.Has(x) && Covers(rs, x);
      assert Covers(qs, x);
      var o' :| o' in qs && o'.Has(x);
      var k' :| 0 <= k' < |qs| && qs[k'] == o';
      CanonicalOrder(qs, 0, k');
      assert false;
    }
  }

  lemma FirstStart(rs: seq<Range>, qs: seq<Range>)
    requires Canonical(rs) && Canonical(qs) && SameCover(rs, qs) && rs != [] && qs != []
    ensures rs[0].start <= qs[0].start
  {
    var q := qs[0];
    assert q in qs && rs[0] in rs && rs[0].Valid() && q.Valid() && q.Has(q.start) && Covers(qs, q.start);
    var o :| o in rs && o.Has(q.start);
    var k :| 0 <= k < |rs| && rs[k] == o;
    CanonicalOrder(rs, 0, k);
  }

  // ----- comparison

  /**
  The shape of every result: canonical up to a range that reaches the maximum, and after that
  only parts of it.
  */
  ghost predicate CoreAt(out: seq<Range>, k: nat) {
    && k < |out| && AllValid(out) && Canonical(out[..k + 1])
    && (k < |out| - 1 ==> out[k].end == MAX)
    && forall j :: k < j < |out| ==> out[k].start < out[j].start
  }

  /** After the core only smaller ranges come, which one more leaves so. */
  lemma CoreInside(p: Pass, r: Range, k: nat)
    requires CoreAt(p.Out(), k) && k < |p.closed| && AllValid(Absorb(p, r).Out()) && p.current.start <= r.start
    ensures CoreAt(Absorb(p, r).Out(), k)
  {
    var o, out := p.Out(), Absorb(p, r).Out();
    assert out[..k + 1] == o[..k + 1] && out[k] == o[k];
    forall j | k < j < |out| ensures out[k].start < out[j].start {
      if j < |o| {
        assert out[j].start == o[j].start;
      } else {
        assert out[j] == r && r.start > o[|p.closed|].start;
      }
    }
  }

  /** A core that is the whole result grows, or ends at the maximum. */
  lemma CoreLast(p: Pass, r: Range) returns (k: nat)
    requires CoreAt(p.Out(), |p.closed|) && AllValid(Absorb(p, r).Out()) && r.Valid() && p.current.start <= r.start
    ensures CoreAt(Absorb(p, r).Out(), k)
  {
    var o, out := p.Out(), Absorb(p, r).Out();
    k := |p.closed|;
    assert o[..k + 1] == o && p.current == o[k];
    if p.current.end < MAX {
      AbsorbKeepsCanonical(p, r);
      k := |out| - 1;
      assert out[..k + 1] == out;
    } else {
      assert o[k] in o && p.current.Valid() && Succ(p.current.end) == 0;
      if r.start > p.current.start {
        assert out == o + [r] && out[..k + 1] == o;
      } else {
        assert out == o;
      }
    }
  }

  lemma {:induction false} ScanCore(s: seq<Range>) returns (k: nat)
    requires s != [] && Sorted(s) && AllValid(s)
    ensures CoreAt(Scan(s).Out(), k)
  {
    ScanFacts(s);
    var n := |s| - 1;
    if n == 0 {
      k := 0;
    } else {
      hide Absorb, CoreAt, Covers;
      var t, r := s[..n], s[n];
      ScanFacts(t);
      var p := Scan(t);
      k := ScanCore(t);
      assert Before(t[n - 1], r) && r in s;
      CoreRange(p.Out(), k);
      if k < |p.closed| {
        CoreInside(p, r, k);
      } else {
        k := CoreLast(p, r);
      }
    }
  }

  lemma CoreRange(out: seq<Range>, k: nat)
    requires CoreAt(out, k)
    ensures k < |out|
  {
  }

  /** A range whose integers are all covered lies inside one range of the result. */
  lemma CoreSpans(out: seq<Range>, k: nat, q: Range)
    requires CoreAt(out, k) && q.Valid() && (forall x :: q.Has(x) ==> Covers(out, x))
    ensures exists o :: o in out && o.start <= q.start && q.end <= o.end
  {
    var i := CoreIndex(out, k, q.start);
    var o := out[i];
    if o.end < q.end {
      var i' := CoreIndex(out, k, o.end + 1);
      var core := out[..k + 1];
      if i < i' {
        CanonicalOrder(core, i, i');
      } else if i' < i {
        CanonicalOrder(core, i', i);
      }
      assert false;
    }
  }

  lemma CoreIndex(out: seq<Range>, k: nat, x: nat) returns (i: nat)
    requires CoreAt(out, k) && Covers(out, x)
    ensures i <= k && out[i].Has(x)
  {
    var o :| o in out && o.Has(x);
    i :| 0 <= i < |out| && out[i] == o;
    if i > k {
      assert out[i].Valid();
      i := k;
    }
  }

  predicate Inside(r: Range, q: Range) {
    r.start >= q.start && r.end <= q.end
  }

  ghost predicate Matched(q: Range, rs: seq<Range>) {
    exists j :: 0 <= j < |rs| && Inside(q, rs[j])
  }

  method AnyContains(rs: seq<Range>, q: Range) returns (matched: bool)
    ensures matched <==> Matched(q, rs)
  {
    for j := 0 to |rs|
      invariant forall k :: 0 <= k < j ==> !Inside(q, rs[k])
    {
      if Inside(q, rs[j]) {
        return true;
      }
    }
    return false;
  }

  /** `operator<=` decides inclusion, for every input. */
  method LessEqual(left: seq<Range>, right: seq<Range>) returns (b: bool)
    requires AllValid(left) && AllValid(right)
    ensures b <==> Within(left, right)
  {
    hide Within, AllValid, Coalesced;
    var l := Coalesce(left);
    var r := Coalesce(right);
    for i := 0 to |l|
      invariant forall k :: 0 <= k < i ==> Matched(l[k], r)
    {
      var matched := AnyContains(r, l[i]);
      if !matched {
        NotInside(left, right, l[i]);
        return false;
      }
    }
    AllInside(left, right);
    return true;
  }

  lemma AllInside(left: seq<Range>, right: seq<Range>)
    requires AllValid(left) && AllValid(right)
    requires var l, r := Coalesced(left), Coalesced(right);
      forall k :: 0 <= k < |l| ==> Matched(l[k], r)
    ensures Within(left, right)
  {
    CoalesceCorrect(left);
    CoalesceCorrect(right);
    var l, r := Coalesced(left), Coalesced(right);
    forall x | Covers(left, x) ensures Covers(right, x) {
      assert Covers(l, x);
      var o :| o in l && o.Has(x);
      var k :| 0 <= k < |l| && l[k] == o;
      var j :| 0 <= j < |r| && Inside(l[k], r[j]);
      assert r[j] in r && r[j].Has(x);
      assert Covers(r, x);
    }
  }

  lemma NotInside(left: seq<Range>, right: seq<Range>, q: Range)
    requires AllValid(left) && AllValid(right) && q in Coalesced(left)
    requires !Matched(q, Coalesced(right))
    ensures !Within(left, right)
  {
    CoalesceCorrect(left);
    CoalesceCorrect(right);
    if Within(left, right) {
      forall x | q.Has(x) ensures Covers(Coalesced(right), x) {
        assert Covers(Coalesced(left), x);
      }
      assert q.Has(q.start) && Covers(Coalesced(right), q.start);
      var s := Sort(right);
      SameElements(s, right);
      var k := ScanCore(s);
      CoreSpans(Coalesced(right), k, q);
    }
  }

  /**
  `operator==` compares the coalesced lists. That decides whether the same integers are covered
  where neither operand wraps around, and misses it wherever exactly one does.
  */
  method Equal(left: seq<Range>, right: seq<Range>) returns (b: bool)
    requires AllValid(left) && AllValid(right)
    ensures b <==> Coalesced(left) == Coalesced(right)
    ensures b ==> SameCover(left, right)
    ensures WrapSafe(left) && WrapSafe(right) ==> (b <==> SameCover(left, right))
    ensures WrapSafe(left) != WrapSafe(right) ==> !b
  {
    hide SameCover, AllValid, WrapSafe, Coalesced;
    var l := Coalesce(left);
    var r := Coalesce(right);
    EqualWhenSafe(left, right);
    if |l| != |r| {
      return false;
    }
    for i := 0 to |l|
      invariant forall k :: 0 <= k < i ==> l[k] in r
    {
      var found := false;
      for j := 0 to |r|
        invariant found <==> l[i] in r[..j]
      {
        assert r[..j + 1] == r[..j] + [r[j]];
        found := found || l[i] == r[j];
      }
      assert r[..|r|] == r;
      if !found {
        return false;
      }
    }
    SameRanges(left, right);
    return true;
  }

  lemma EqualWhenSafe(left: seq<Range>, right: seq<Range>)
    requires AllValid(left) && AllValid(right)
    ensures Coalesced(left) == Coalesced(right) ==> SameCover(left, right) && WrapSafe(left) == WrapSafe(right)
    ensures WrapSafe(left) && WrapSafe(right) && SameCover(left, right) ==> Coalesced(left) == Coalesced(right)
  {
    CoalesceCorrect(left);
    CoalesceCorrect(right);
    if WrapSafe(left) && WrapSafe(right) && SameCover(left, right) {
      CanonicalUnique(Coalesced(left), Coalesced(right));
    }
  }

  ghost predicate DecidesEquality(left: seq<Range>) {
    forall right :: AllValid(right) && WrapSafe(right) ==> (Coalesced(left) == Coalesced(right) <==> SameCover(left, right))
  }

  /** Comparison with every safe operand is right if and only if this operand is safe. */
  lemma DecidesEqualityIff(left: seq<Range>)
    requires AllValid(left)
    ensures DecidesEquality(left) <==> WrapSafe(left)
  {
    if WrapSafe(left) {
      forall right | AllValid(right) && WrapSafe(right)
        ensures Coalesced(left) == Coalesced(right) <==> SameCover(left, right)
      {
        EqualWhenSafe(left, right);
      }
    } else {
      var right := SafeTwin(left);
      EqualWhenSafe(left, right);
    }
  }

  ghost predicate AlwaysDecidesEquality(left: seq<Range>) {
    forall right :: AllValid(right) ==> (Coalesced(left) == Coalesced(right) <==> SameCover(left, right))
  }

  /** Comparison with every operand is right if and only if the integers do not run up to the maximum. */
  lemma AlwaysDecidesEqualityIff(left: seq<Range>)
    requires AllValid(left)
    ensures AlwaysDecidesEquality(left) <==> !(Covers(left, MAX - 1) && Covers(left, MAX))
  {
    hide Coalesced, WrapSafe, AllValid;
    if Covers(left, MAX - 1) && Covers(left, MAX) {
      var right := OtherTwin(left);
      EqualWhenSafe(left, right);
    } else {
      forall right | AllValid(right) ensures Coalesced(left) == Coalesced(right) <==> SameCover(left, right) {
        NeverWraps(left);
        if SameCover(left, right) {
          NeverWraps(right);
        }
        EqualWhenSafe(left, right);
      }
    }
  }

  lemma NeverWraps(rs: seq<Range>)
    requires AllValid(rs) && !(Covers(rs, MAX - 1) && Covers(rs, MAX))
    ensures WrapSafe(rs)
  {
    forall r | r in rs && r.end == MAX
      ensures (forall q :: q in rs ==> q.start <= r.start) && forall q :: q in rs ==> !(q.start < r.start <= q.end + 1)
    {
      assert r.Has(MAX);
      assert forall q :: q in rs ==> !q.Has(MAX - 1);
    }
  }

  /** A list that covers the same integers and wraps around when this does not, or the other way round. */
  lemma OtherTwin(left: seq<Range>) returns (right: seq<Range>)
    requires AllValid(left) && Covers(left, MAX - 1) && Covers(left, MAX)
    ensures AllValid(right) && SameCover(left, right) && WrapSafe(left) != WrapSafe(right)
  {
    if WrapSafe(left) {
      var top := Range(MAX, MAX);
      right := left + [top, top];
      var q :| q in left && q.Has(MAX - 1);
      assert q in right && top in right && multiset(right) == multiset(left) + multiset{top, top};
      forall x ensures Covers(left, x) <==> Covers(right, x) {
        assert right == left + [top] + [top];
        CoversAppend(left + [top], top, x);
        CoversAppend(left, top, x);
      }
    } else {
      right := SafeTwin(left);
    }
  }

  /** A safe list that covers the same integers: the result up to the range that reaches the maximum. */
  lemma SafeTwin(left: seq<Range>) returns (right: seq<Range>)
    requires AllValid(left) && left != []
    ensures AllValid(right) && WrapSafe(right) && SameCover(left, right)
  {
    var s, out := Sort(left), Coalesced(left);
    SameElements(left, s);
    CoalesceCorrect(left);
    var k := ScanCore(s);
    right := out[..k + 1];
    CoreCovers(out, k);
    CanonicalIsSafe(right);
    forall x ensures Covers(left, x) <==> Covers(right, x) {
      assert Covers(out, x) <==> Covers(left, x);
    }
  }

  lemma CoreCovers(out: seq<Range>, k: nat)
    requires CoreAt(out, k)
    ensures SameCover(out[..k + 1], out)
  {
    forall x ensures Covers(out[..k + 1], x) <==> Covers(out, x) {
      if Covers(out[..k + 1], x) {
        var o :| o in out[..k + 1] && o.Has(x);
        assert o in out;
      }
      if Covers(out, x) {
        var o :| o in out && o.Has(x);
        var j :| 0 <= j < |out| && out[j] == o;
        assert out[k] in out[..k + 1] && o.Valid();
        if j <= k {
          assert out[..k + 1][j] == o;
        } else {
          assert out[k].Has(x);
        }
      }
    }
  }

  /** Only the last range of a canonical list can reach the maximum. */
  lemma MaximumIsLast(rs: seq<Range>, i: nat)
    requires Canonical(rs) && i < |rs| && rs[i].end == MAX
    ensures i == |rs| - 1
  {
    var n := |rs| - 1;
    assert rs[n] in rs && rs[n].Valid();
    CanonicalOrder(rs, i, n);
  }

  lemma LastIsOnce(rs: seq<Range>)
    requires Canonical(rs) && rs != []
    ensures var r := rs[|rs| - 1]; multiset(rs)[r] == 1 && forall q :: q in rs ==> q.start <= r.start
  {
    var n := |rs| - 1;
    var r := rs[n];
    assert r in rs && r.Valid();
    forall k | 0 <= k < n ensures rs[k].start < r.start {
      CanonicalOrder(rs, k, n);
      assert rs[k] in rs && rs[k].Valid();
    }
    assert r !in rs[..n];
    assert rs == rs[..n] + [r];
    assert multiset(rs) == multiset(rs[..n]) + multiset{r};
  }

  lemma CanonicalIsSafe(rs: seq<Range>)
    requires Canonical(rs)
    ensures WrapSafe(rs)
  {
    forall r | r in rs && r.end == MAX ensures (forall q :: q in rs ==> q.start <= r.start) && multiset(rs)[r] == 1 {
      var i :| 0 <= i < |rs| && rs[i] == r;
      MaximumIsLast(rs, i);
      LastIsOnce(rs);
    }
  }

  /** The result has no range twice, so one-way membership and equal length suffice. */
  lemma SameRanges(left: seq<Range>, right: seq<Range>)
    requires AllValid(left) && AllValid(right)
    requires var l, r := Coalesced(left), Coalesced(right); |l| == |r| && forall k :: 0 <= k < |l| ==> l[k] in r
    ensures Coalesced(left) == Coalesced(right)
  {
    var l, r := Coalesced(left), Coalesced(right);
    var ls, rs := set x | x in l, set x | x in r;
    Distinct(left);
    Distinct(right);
    SetOfDistinct(l);
    SetOfDistinct(r);
    SubsetOfSameSize(ls, rs);
    assert forall x :: x in l <==> x in ls;
    assert forall x :: x in r <==> x in rs;
    SameInOrder(l, r);
  }

  lemma {:induction false} SameInOrder(l: seq<Range>, r: seq<Range>)
    requires forall i, j :: 0 <= i < j < |l| ==> l[i].start < l[j].start
    requires forall i, j :: 0 <= i < j < |r| ==> r[i].start < r[j].start
    requires |l| == |r| && forall x :: x in l <==> x in r
    ensures l == r
  {
    if l != [] {
      assert l[0] in r && r[0] in l;
      assert l[0] == r[0];
      forall x ensures x in l[1..] <==> x in r[1..] {
        InTail(l, x);
        InTail(r, x);
      }
      SameInOrder(l[1..], r[1..]);
    }
  }

  lemma InTail(l: seq<Range>, x: Range)
    requires l != [] && forall i, j :: 0 <= i < j < |l| ==> l[i].start < l[j].start
    ensures x in l[1..] <==> x in l && x != l[0]
  {
    assert l == [l[0]] + l[1..];
  }

  lemma Distinct(rs: seq<Range>)
    requires AllValid(rs)
    ensures var out := Coalesced(rs); forall i, j :: 0 <= i < j < |out| ==> out[i].start < out[j].start
  {
    if rs != [] {
      var s := Sort(rs);
      SameElements(rs, s);
      ScanFacts(s);
      Increasing(Scan(s).Out());
    }
  }

  lemma {:induction false} Increasing(rs: seq<Range>)
    requires forall k :: 0 <= k < |rs| - 1 ==> rs[k].start < rs[k + 1].start
    ensures forall i, j :: 0 <= i < j < |rs| ==> rs[i].start < rs[j].start
  {
    if |rs| > 1 {
      var n := |rs| - 1;
      var front := rs[..n];
      Increasing(front);
      forall i, j | 0 <= i < j < |rs| ensures rs[i].start < rs[j].start {
        assert rs[n - 1].start < rs[n - 1 + 1].start;
        if j < n {
          assert front[i].start < front[j].start;
        } else if i < n - 1 {
          assert front[i].start < front[n - 1].start;
        }
      }
    }
  }

  lemma {:induction false} SetOfDistinct(rs: seq<Range>)
    requires forall i, j :: 0 <= i < j < |rs| ==> rs[i] != rs[j]
    ensures |set x | x in rs| == |rs|
  {
    if rs != [] {
      var n := |rs| - 1;
      SetOfDistinct(rs[..n]);
      assert (set x | x in rs) == (set x | x in rs[..n]) + {rs[n]};
    }
  }

  lemma {:induction false} SubsetOfSameSize<T>(xs: set<T>, ys: set<T>)
    requires xs <= ys && |xs| == |ys|
    ensures xs == ys
  {
    assert |ys - xs| == |ys| - |xs|;
  }

  /** The same integers compare as different: one range repeated with its tail. */
  lemma EqualCanMissWrapped()
    ensures var left, right := [Range(0, MAX), Range(1, MAX)], [Range(0, MAX)];
      && AllValid(left) && AllValid(right) && SameCover(left, right)
      && !WrapSafe(left) && WrapSafe(right) && Coalesced(left) != Coalesced(right)
  {
    var a, b := Range(0, MAX), Range(1, MAX);
    hide Coalesced;
    RepeatedTail(a, b);
    EqualWhenSafe([a, b], [a]);
  }

  lemma RepeatedTail(a: Range, b: Range)
    requires a.Valid() && b.Valid() && a.end == b.end == MAX && a.start < b.start
    ensures AllValid([a, b]) && AllValid([a]) && SameCover([a, b], [a]) && !WrapSafe([a, b]) && WrapSafe([a])
  {
    assert a in [a, b] && b in [a, b] && a in [a];
    assert multiset([a])[a] == 1;
  }
}
