/**
Subtraction of ranges with one cursor in each sorted operand.
*/
module RangeDifference {
  import opened Ranges

  ghost predicate Disjoint(rs: seq<Range>) {
    forall i, j :: 0 <= i < j < |rs| ==> rs[i].end < rs[j].start || rs[j].end < rs[i].start
  }

  ghost predicate ByStart(rs: seq<Range>) {
    forall i, j :: 0 <= i < j < |rs| ==> rs[i].start <= rs[j].start
  }

  /** Sorted and disjoint, but possibly adjacent. */
  ghost predicate Apart(rs: seq<Range>) {
    AllValid(rs) && forall i, j :: 0 <= i < j < |rs| ==> rs[i].end < rs[j].start
  }

  /** Sorts by start alone: callers may rely on no order among equal starts. */
  method SortByStart(rs: seq<Range>) returns (out: seq<Range>)
    ensures ByStart(out) && multiset(out) == multiset(rs)
  {
    out := Sort(rs);
  }

  lemma DisjointPermutes(rs: seq<Range>, out: seq<Range>)
    requires AllValid(rs) && Disjoint(rs) && ByStart(out) && multiset(out) == multiset(rs)
    ensures Apart(out) && SameCover(rs, out)
  {
    SameElements(rs, out);
    forall i, j | 0 <= i < j < |out| ensures out[i].end < out[j].start {
      hide SameCover;
      NotTwice(rs, out[i]);
      if out[i] == out[j] {
        TwicePlaced(out, i, j);
      }
      DisjointElements(rs, out[i], out[j]);
    }
  }

  lemma TwicePlaced(out: seq<Range>, i: nat, j: nat)
    requires i < j < |out| && out[i] == out[j]
    ensures multiset(out)[out[i]] >= 2
  {
    assert out == out[..j] + out[j..];
    assert out[..j][i] in multiset(out[..j]) && out[j..][0] in multiset(out[j..]);
  }

  lemma DisjointElements(rs: seq<Range>, a: Range, b: Range)
    requires AllValid(rs) && Disjoint(rs) && a in rs && b in rs && a != b
    ensures a.end < b.start || b.end < a.start
    ensures a.start <= b.start ==> a.end < b.start
  {
    var k :| 0 <= k < |rs| && rs[k] == a;
    var l :| 0 <= l < |rs| && rs[l] == b;
    assert a.Valid() && b.Valid();
  }

  lemma {:induction false} NotTwice(rs: seq<Range>, a: Range)
    requires AllValid(rs) && Disjoint(rs)
    ensures multiset(rs)[a] <= 1
  {
    if rs != [] {
      var t := rs[1..];
      assert rs == [rs[0]] + t;
      forall i, j | 0 <= i < j < |t| ensures t[i].end < t[j].start || t[j].end < t[i].start {
        assert t[i] == rs[i + 1] && t[j] == rs[j + 1];
      }
      NotTwice(t, a);
      assert rs[0] != a || a !in t;
    }
  }

  // ----- the walk on values

  /** What the two cursors produce from the remaining ranges of both operands. */
  function Cut(l: seq<Range>, r: seq<Range>): seq<Range>
    decreases |l| + |r|
  {
    if l == [] then []
    else if r == [] || l[0].end < r[0].start then [l[0]] + Cut(l[1..], r)
    else if l[0].start > r[0].end then Cut(l, r[1..])
    else
      if l[0].end <= r[0].end then Piece(l[0], r[0]) + Cut(l[1..], r)
      else Piece(l[0], r[0]) + Cut(CutFirst(l, r[0]), r[1..])
  }

  /** What the left range has before the right one. */
  function Piece(a: Range, b: Range): seq<Range> {
    if a.start < b.start then [Range(a.start, b.start - 1)] else []
  }

  /** The left ranges, the first without all up to the end of the right one. */
  function CutFirst(l: seq<Range>, b: Range): seq<Range>
    requires l != []
  {
    [Range(b.end + 1, l[0].end)] + l[1..]
  }

  lemma CutUnfolds(l: seq<Range>, r: seq<Range>)
    requires l != []
    ensures r == [] || l[0].end < r[0].start ==> Cut(l, r) == [l[0]] + Cut(l[1..], r)
    ensures r != [] && l[0].end >= r[0].start && l[0].start > r[0].end ==> Cut(l, r) == Cut(l, r[1..])
    ensures r != [] && r[0].start <= l[0].end <= r[0].end && l[0].start <= r[0].end ==>
      Cut(l, r) == Piece(l[0], r[0]) + Cut(l[1..], r)
    ensures r != [] && r[0].start <= l[0].end && l[0].end > r[0].end && l[0].start <= r[0].end ==>
      Cut(l, r) == Piece(l[0], r[0]) + Cut(CutFirst(l, r[0]), r[1..])
  {
  }

  lemma CoversHead(rs: seq<Range>, x: nat)
    requires rs != []
    ensures Covers(rs, x) <==> rs[0].Has(x) || Covers(rs[1..], x)
  {
    assert rs == [rs[0]] + rs[1..];
    if rs[0].Has(x) {
      assert rs[0] in rs;
    }
  }

  lemma CoversConcat(rs: seq<Range>, qs: seq<Range>, x: nat)
    ensures Covers(rs + qs, x) <==> Covers(rs, x) || Covers(qs, x)
  {
    assert forall q :: q in rs + qs <==> q in rs || q in qs;
  }

  /** For any operands: nothing is added, and nothing is lost but what the right one covers. */
  lemma {:induction false} CutBounds(l: seq<Range>, r: seq<Range>, x: nat)
    requires AllValid(l) && AllValid(r)
    ensures AllValid(Cut(l, r))
    ensures Covers(Cut(l, r), x) ==> Covers(l, x)
    ensures Covers(l, x) && !Covers(r, x) ==> Covers(Cut(l, r), x)
    decreases |l| + |r|
  {
    if l != [] {
      assert l[0] in l && l[0].Valid();
      CoversHead(l, x);
      if r == [] || l[0].end < r[0].start {
        CutBounds(l[1..], r, x);
        CoversConcat([l[0]], Cut(l[1..], r), x);
        CoversHead([l[0]], x);
      } else {
        assert r[0] in r && r[0].Valid();
        CoversHead(r, x);
        if l[0].start > r[0].end {
          CutBounds(l, r[1..], x);
        } else {
          CutOverlap(l, r, x);
        }
      }
    }
  }

  lemma {:induction false} CutOverlap(l: seq<Range>, r: seq<Range>, x: nat)
    requires AllValid(l) && AllValid(r) && l != [] && r != [] && r[0].start <= l[0].end && l[0].start <= r[0].end
    ensures AllValid(Cut(l, r))
    ensures Covers(Cut(l, r), x) ==> Covers(l, x)
    ensures Covers(l, x) && !Covers(r, x) ==> Covers(Cut(l, r), x)
    decreases |l| + |r|, 0
  {
    var a, b := l[0], r[0];
    assert a in l && a.Valid() && b in r && b.Valid();
    hide Cut;
    CutUnfolds(l, r);
    var piece := Piece(a, b);
    CoversHead(l, x);
    CoversHead(r, x);
    if piece != [] {
      CoversHead(piece, x);
    }
    if a.end <= b.end {
      CutBounds(l[1..], r, x);
      CoversConcat(piece, Cut(l[1..], r), x);
    } else {
      var rest := CutFirst(l, b);
      assert rest[1..] == l[1..] && AllValid(rest);
      CoversHead(rest, x);
      CutBounds(rest, r[1..], x);
      CoversConcat(piece, Cut(rest, r[1..]), x);
    }
  }

  /** Each range ends where the next begins, or before. */
  ghost predicate Touching(rs: seq<Range>) {
    forall i, j :: 0 <= i < j < |rs| ==> rs[i].end <= rs[j].start
  }

  /** In a touching list no later range begins before what is left of the first. */
  lemma {:induction false} CutExact(l: seq<Range>, r: seq<Range>, x: nat)
    requires AllValid(l) && AllValid(r) && Touching(l) && ByStart(r)
    ensures !(Covers(Cut(l, r), x) && Covers(r, x))
    decreases |l| + |r|
  {
    hide Cut;
    if l == [] {
      CutNone(r);
    } else if r != [] {
      var a, b := l[0], r[0];
      assert a in l && a.Valid() && b in r && b.Valid();
      assert forall q :: q in r ==> b.start <= q.start;
      CutUnfolds(l, r);
      if a.end < b.start {
        CutExact(l[1..], r, x);
        CoversConcat([a], Cut(l[1..], r), x);
      } else if a.start > b.end {
        CutRest(l, r, x);
      } else if a.end <= b.end {
        CutExact(l[1..], r, x);
        CoversConcat(Piece(a, b), Cut(l[1..], r), x);
      } else {
        var rest := CutFirst(l, b);
        CutRest(rest, r, x);
        CoversConcat(Piece(a, b), Cut(rest, r[1..]), x);
      }
    }
  }

  lemma CutNone(r: seq<Range>)
    ensures Cut([], r) == []
  {
  }

  /** What is left after the first right range is used up begins behind it. */
  lemma {:induction false} CutRest(rest: seq<Range>, r: seq<Range>, x: nat)
    requires AllValid(rest) && AllValid(r) && Touching(rest) && ByStart(r) && rest != [] && r != [] && rest[0].start > r[0].end
    ensures !(Covers(Cut(rest, r[1..]), x) && Covers(r, x))
    decreases |rest| + |r|, 0
  {
    hide Cut;
    CutExact(rest, r[1..], x);
    CutBounds(rest, r[1..], x);
    CoversHead(r, x);
    CoversHead(rest, x);
    assert rest[0] in rest && rest[0].Valid();
    assert forall q :: q in rest[1..] ==> rest[0].end <= q.start;
  }

  lemma {:induction false} CutNothing(l: seq<Range>)
    ensures Cut(l, []) == l
  {
    if l != [] {
      CutNothing(l[1..]);
    }
  }

  /** A later range that begins inside an earlier one keeps an integer that the right operand covers. */
  lemma {:induction false} CutKeeps(l: seq<Range>, i: nat, j: nat)
    requires AllValid(l) && ByStart(l) && i < j < |l| && l[j].start < l[i].end
    ensures var p := l[j].start; Covers(Cut(l, [Range(p, p)]), p)
  {
    hide Cut;
    var p := l[j].start;
    var b := Range(p, p);
    assert l[0] in l && l[0].Valid() && l[j] in l && l[j].Valid();
    assert l[0].start <= p && [b][1..] == [];
    CutUnfolds(l, [b]);
    if l[0].end > p {
      var rest, piece := CutFirst(l, b), Piece(l[0], b);
      CutNothing(rest);
      assert (piece + rest)[|piece| + j] == l[j] && l[j].Has(p);
    } else {
      assert l[1..][i - 1] == l[i] && l[1..][j - 1] == l[j];
      CutKeeps(l[1..], i - 1, j - 1);
      CoversConcat(if l[0].end < p then [l[0]] else Piece(l[0], b), Cut(l[1..], [b]), p);
    }
  }

  ghost predicate CutsExactly(l: seq<Range>) {
    forall r, x :: AllValid(r) && ByStart(r) && Covers(Cut(l, r), x) ==> !Covers(r, x)
  }

  /** The difference is exact for every right operand if and only if the sorted left ranges touch at most. */
  lemma CutsExactlyIff(l: seq<Range>)
    requires AllValid(l) && ByStart(l)
    ensures CutsExactly(l) <==> Touching(l)
  {
    if Touching(l) {
      forall r, x | AllValid(r) && ByStart(r) && Covers(Cut(l, r), x) ensures !Covers(r, x) { CutExact(l, r, x); }
    } else {
      var i, j :| 0 <= i < j < |l| && l[j].start < l[i].end;
      var p := l[j].start;
      CutKeeps(l, i, j);
      var r := [Range(p, p)];
      assert l[j] in l && l[j].Valid();
      assert Range(p, p) in r && Range(p, p).Has(p);
      assert AllValid(r) && ByStart(r) && Covers(Cut(l, r), p) && Covers(r, p);
    }
  }

  /** Disjoint ranges give disjoint ranges, in order. */
  lemma {:induction false} CutApart(l: seq<Range>, r: seq<Range>)
    requires Apart(l) && AllValid(r)
    ensures Apart(Cut(l, r))
    ensures forall q :: q in Cut(l, r) ==> l != [] && l[0].start <= q.start
    decreases |l| + |r|
  {
    hide Cut;
    if l == [] {
      CutNone(r);
    } else {
      var a := l[0];
      assert a in l && a.Valid();
      CutUnfolds(l, r);
      ApartTail(l);
      if r == [] || a.end < r[0].start {
        CutApart(l[1..], r);
        Prepend(a, Cut(l[1..], r));
      } else if a.start > r[0].end {
        CutApart(l, r[1..]);
      } else {
        var b := r[0];
        assert b in r && b.Valid();
        if a.end <= b.end {
          CutApart(l[1..], r);
          PrependPiece(a, b, Cut(l[1..], r));
        } else {
          var rest := CutFirst(l, b);
          Prepend(Range(b.end + 1, a.end), l[1..]);
          CutApart(rest, r[1..]);
          PrependPiece(a, b, Cut(rest, r[1..]));
        }
      }
    }
  }

  lemma ApartTail(l: seq<Range>)
    requires Apart(l) && l != []
    ensures Apart(l[1..]) && forall q :: q in l[1..] ==> l[0].end < q.start && l[0].start <= q.start
  {
    assert l[0] in l && l[0].Valid();
    assert forall q :: q in l[1..] ==> q in l;
  }

  lemma PrependPiece(a: Range, b: Range, rs: seq<Range>)
    requires a.Valid() && b.Valid() && Apart(rs) && forall q :: q in rs ==> b.start <= q.start
    ensures Apart(Piece(a, b) + rs)
  {
    if a.start < b.start {
      Prepend(Range(a.start, b.start - 1), rs);
    } else {
      assert [] + rs == rs;
    }
  }

  lemma Prepend(a: Range, rs: seq<Range>)
    requires a.Valid() && Apart(rs) && forall q :: q in rs ==> a.end < q.start
    ensures Apart([a] + rs)
  {
    var out := [a] + rs;
    forall i, j | 0 <= i < j < |out| ensures out[i].end < out[j].start {
      assert out[j] == rs[j - 1] && out[j] in rs;
    }
  }

  /** Two ranges share an end at most; of two that begin together neither is longer. */
  predicate Beside(a: Range, b: Range) {
    (a.start == b.start ==> a.end == b.end) && (a.end <= b.start || b.end <= a.start)
  }

  ghost predicate Loose(rs: seq<Range>) {
    forall i, j :: 0 <= i < j < |rs| ==> Beside(rs[i], rs[j])
  }

  lemma DisjointIsLoose(rs: seq<Range>)
    requires AllValid(rs)
    ensures Disjoint(rs) ==> Loose(rs)
  {
    assert forall i :: 0 <= i < |rs| ==> rs[i] in rs;
  }

  /** In whatever order equal starts come, loose ranges touch at most once sorted. */
  lemma LooseSorted(rs: seq<Range>, s: seq<Range>)
    requires AllValid(rs) && Loose(rs) && ByStart(s) && multiset(s) == multiset(rs)
    ensures Touching(s)
  {
    SameElements(rs, s);
    forall i, j | 0 <= i < j < |s| ensures s[i].end <= s[j].start {
      var a, b := s[i], s[j];
      assert a in rs && b in rs && a.Valid() && b.Valid();
      if a == b {
        TwicePlaced(s, i, j);
        var k, l := TwoPlaces(rs, a);
      } else {
        var k :| 0 <= k < |rs| && rs[k] == a;
        var l :| 0 <= l < |rs| && rs[l] == b;
        assert Beside(a, b) || Beside(b, a);
      }
    }
  }

  lemma {:induction false} TwoPlaces(rs: seq<Range>, a: Range) returns (k: nat, l: nat)
    requires multiset(rs)[a] >= 2
    ensures k < l < |rs| && rs[k] == a && rs[l] == a
  {
    assert rs == [rs[0]] + rs[1..];
    if rs[0] == a {
      assert a in multiset(rs[1..]);
      k := 0;
      l :| 0 < l < |rs| && rs[l] == a;
    } else {
      assert multiset(rs[1..])[a] >= 2;
      k, l := TwoPlaces(rs[1..], a);
      k, l := k + 1, l + 1;
    }
  }

  /** The outcome for some order of the ranges by their starts. */
  ghost predicate IsDifference(left: seq<Range>, right: seq<Range>, result: seq<Range>) {
    if left == [] || right == [] then result == left
    else exists s, r ::
      && ByStart(s) && multiset(s) == multiset(left) && ByStart(r) && multiset(r) == multiset(right)
      && result == Cut(s, r)
  }

  /**
  For every operand nothing is added and nothing lost but what the right one covers. What is left is
  exactly the set difference when ranges on the left share no more than an end.
  */
  method Subtract(left: seq<Range>, right: seq<Range>) returns (result: seq<Range>)
    requires AllValid(left) && AllValid(right)
    ensures IsDifference(left, right, result)
    ensures AllValid(result) && forall x :: Covers(result, x) ==> Covers(left, x)
    ensures forall x :: Covers(left, x) && !Covers(right, x) ==> Covers(result, x)
    ensures Loose(left) ==> forall x :: Covers(result, x) ==> !Covers(right, x)
    ensures Disjoint(left) ==> Loose(left) && Disjoint(result)
    ensures Disjoint(left) && left != [] && right != [] ==> Apart(result)
  {
    DisjointIsLoose(left);
    if left == [] || right == [] {
      return left;
    }
    var s := SortByStart(left);
    var r := SortByStart(right);
    SameElements(left, s);
    SameElements(right, r);
    var l := new Range[|s|](i requires 0 <= i < |s| => s[i]);
    result := Walk(l, r, s);
    hide Cut;
    CutBounds(s, r, 0);
    forall x: nat
      ensures Covers(result, x) ==> Covers(left, x)
      ensures Covers(left, x) && !Covers(right, x) ==> Covers(result, x)
    {
      CutBounds(s, r, x);
    }
    if Loose(left) {
      LooseSorted(left, s);
      forall x: nat | Covers(result, x) ensures !Covers(right, x) { CutExact(s, r, x); }
    }
    if Disjoint(left) {
      DisjointPermutes(left, s);
      CutApart(s, r);
    }
  }

  /** The two cursors; `l` loses the beginnings already dealt with. */
  method Walk(l: array<Range>, r: seq<Range>, ghost s: seq<Range>) returns (result: seq<Range>)
    requires l[..] == s
    modifies l
    ensures result == Cut(s, r)
  {
    hide Cut;
    var i, j := 0, 0;
    result := [];
    CutBegin(s, r);
    while i < l.Length && j < |r|
      invariant j <= |r| && i <= l.Length
      invariant Cutting(s, r, result, l[..], i, j)
      decreases l.Length - i + |r| - j
    {
      ghost var before := l[..];
      CutNext(s, r, result, before, i, j);
      if l[i].end < r[j].start {
        result := result + [Range(l[i].start, l[i].end)];
        i := i + 1;
      } else if l[i].start > r[j].end {
        j := j + 1;
      } else {
        if l[i].start < r[j].start {
          result := result + [Range(l[i].start, r[j].start - 1)];
        }
        if l[i].end <= r[j].end {
          i := i + 1;
        } else {
          l[i] := l[i].(start := r[j].end + 1);
          assert l[..] == before[i := Range(r[j].end + 1, before[i].end)];
          j := j + 1;
        }
      }
    }
    while i < l.Length
      invariant i <= l.Length && j <= |r|
      invariant i < l.Length ==> j == |r|
      invariant Cutting(s, r, result, l[..], i, j)
    {
      CutNext(s, r, result, l[..], i, j);
      result := result + [Range(l[i].start, l[i].end)];
      i := i + 1;
    }
    CutEnd(s, r, result, l[..], j);
  }

  /** What has been produced, and what the remaining ranges still produce. */
  ghost predicate Cutting(s: seq<Range>, r: seq<Range>, result: seq<Range>, l: seq<Range>, i: nat, j: nat) {
    i <= |l| && j <= |r| && Cut(s, r) == result + Cut(l[i..], r[j..])
  }

  lemma CutBegin(s: seq<Range>, r: seq<Range>)
    ensures Cutting(s, r, [], s, 0, 0)
  {
    assert s[0..] == s && r[0..] == r && [] + Cut(s, r) == Cut(s, r);
  }

  lemma CutEnd(s: seq<Range>, r: seq<Range>, result: seq<Range>, l: seq<Range>, j: nat)
    requires Cutting(s, r, result, l, |l|, j)
    ensures Cut(s, r) == result
  {
    assert l[|l|..] == [] && result + [] == result;
  }

  /** The state of both cursors after one step. */
  ghost function Next(r: seq<Range>, result: seq<Range>, l: seq<Range>, i: nat, j: nat): (seq<Range>, seq<Range>, nat, nat)
    requires i < |l| && j <= |r|
  {
    if j == |r| || l[i].end < r[j].start then (result + [Range(l[i].start, l[i].end)], l, i + 1, j)
    else if l[i].start > r[j].end then (result, l, i, j + 1)
    else
      var longer := if l[i].start < r[j].start then result + [Range(l[i].start, r[j].start - 1)] else result;
      if l[i].end <= r[j].end then (longer, l, i + 1, j)
      else (longer, l[i := Range(r[j].end + 1, l[i].end)], i, j + 1)
  }

  lemma CutNext(s: seq<Range>, r: seq<Range>, result: seq<Range>, l: seq<Range>, i: nat, j: nat)
    requires Cutting(s, r, result, l, i, j) && i < |l|
    ensures var (result', l', i', j') := Next(r, result, l, i, j); Cutting(s, r, result', l', i', j')
  {
    var ls, rs := l[i..], r[j..];
    assert ls[0] == l[i] && ls[1..] == l[i + 1..];
    if j == |r| || l[i].end < r[j].start {
      assert j < |r| ==> rs[0] == r[j];
      assert result + ([l[i]] + Cut(ls[1..], rs)) == result + [l[i]] + Cut(ls[1..], rs);
    } else {
      assert rs[0] == r[j] && rs[1..] == r[j + 1..];
      if l[i].start <= r[j].end {
        var piece := if l[i].start < r[j].start then [Range(l[i].start, r[j].start - 1)] else [];
        var more := if l[i].end <= r[j].end then Cut(ls[1..], rs) else Cut([Range(r[j].end + 1, l[i].end)] + ls[1..], rs[1..]);
        assert result + (piece + more) == (result + piece) + more;
        assert piece == [] ==> result + piece == result;
        var l' := l[i := Range(r[j].end + 1, l[i].end)];
        assert l'[i..] == [Range(r[j].end + 1, l[i].end)] + ls[1..];
      }
    }
  }

  /** The condition is needed: the right range is used up by the first of two overlapping left ones. */
  lemma OverlapIsKept(result: seq<Range>)
    requires IsDifference([Range(1, 10), Range(2, 3)], [Range(2, 3)], result)
    ensures Covers(result, 2)
  {
    var a, b := Range(1, 10), Range(2, 3);
    var s, r :| ByStart(s) && multiset(s) == multiset([a, b]) && ByStart(r) && multiset(r) == multiset([b]) && result == Cut(s, r);
    PairInOrder(s, a, b);
    SameElements(r, [b]);
    assert r == [b];
    assert Cut([a, b], [b]) == [Range(1, 1)] + Cut([Range(4, 10)] + [b], []) by { assert [a, b][1..] == [b] && [b][1..] == []; }
    assert Cut([Range(4, 10)] + [b], []) == [Range(4, 10)] + Cut([b], []) by { assert ([Range(4, 10)] + [b])[1..] == [b]; }
    assert Cut([b], []) == [b] + Cut([], []) by { assert [b][1..] == []; }
    assert b in result && b.Has(2);
  }

  lemma PairInOrder(s: seq<Range>, a: Range, b: Range)
    requires ByStart(s) && multiset(s) == multiset([a, b]) && a.start < b.start
    ensures s == [a, b]
  {
    SameElements(s, [a, b]);
    assert s == [s[0], s[1]];
    assert s[0] in [a, b] && s[1] in [a, b];
    assert multiset(s)[b] == multiset([a, b])[b] == 1;
  }
}
