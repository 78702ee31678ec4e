/**
When the marks are right. A type is marked for good while the types on the way to it are still being worked on and
count as holding no resource, so whether its mark is right depends on the order in which fields are declared.
*/
module TypeOrders {
  import opened Options
  import opened TypeMarking

  /** A way through the types that passes none twice. */
  ghost predicate Trail(s: Schema, root: Descriptor, p: seq<Descriptor>) {
    && |p| > 0 && p[0] == root
    && (forall i :: 0 <= i < |p| - 1 ==> Edge(s, p[i], p[i + 1]))
    && (forall i, j :: 0 <= i < j < |p| ==> p[i] != p[j])
  }

  function Last(p: seq<Descriptor>): Descriptor
    requires p != []
  {
    p[|p| - 1]
  }

  function Elements(p: seq<Descriptor>): set<Descriptor> {
    set x | x in p
  }

  /** The types passed before the last, the resource excepted: it is marked as holding one from the start. */
  function Passed(p: seq<Descriptor>, resource: Descriptor): set<Descriptor>
    requires p != []
  {
    Elements(p[..|p| - 1]) - {resource}
  }

  /** On whatever way they are come to, the types that can hold a resource have a way to it around the types passed. */
  ghost predicate Escapes(s: Schema, resource: Descriptor, root: Descriptor, of: set<Descriptor>) {
    forall p :: Trail(s, root, p) && Last(p) in of && Last(p) != resource && Reaches(s, Last(p), resource)
      ==> Around(s, Last(p), resource, Passed(p, resource))
  }

  /** Fields of these types, but for resources, have these types. */
  ghost predicate Open(s: Schema, resource: Descriptor, of: set<Descriptor>) {
    forall d, c :: d in of && d != resource && Edge(s, d, c) ==> c in of || c == resource
  }

  ghost predicate RightFor(s: Schema, resource: Descriptor, root: Descriptor, of: set<Descriptor>) {
    && Closed(s) && root in s
    && var marks := Marked(s, resource, map[], root);
       forall d :: d in marks && d in of ==> (marks[d] <==> Reaches(s, d, resource))
  }

  // ----- marks are not taken back

  lemma {:induction false} MarkedKeeps(s: Schema, resource: Descriptor, m: Marks, d: Descriptor)
    requires Closed(s) && d in s && m.Keys <= s.Keys
    ensures var out := Marked(s, resource, m, d);
      forall x :: x in m ==> x in out && out[x] == m[x]
    decreases s.Keys - m.Keys, 0
  {
    if d !in m {
      assert d in s.Keys - m.Keys;
      FieldsKeep(s, resource, m[d := d == resource], d, 0);
    }
  }

  lemma {:induction false} FieldsKeep(s: Schema, resource: Descriptor, m: Marks, d: Descriptor, i: nat)
    requires Closed(s) && d in s && d in m && i <= |s[d]| && m.Keys <= s.Keys
    ensures var out := MarkFields(s, resource, m, d, i);
      && (forall x :: x in m && x != d ==> x in out && out[x] == m[x])
      && d in out && (m[d] ==> out[d])
    decreases s.Keys - m.Keys, 1 + |s[d]| - i
  {
    if i < |s[d]| && s[d][i].None? {
      FieldsKeep(s, resource, m, d, i + 1);
    } else if i < |s[d]| {
      var c := s[d][i].value;
      MarkedKeeps(s, resource, m, c);
      var m2 := Marked(s, resource, m, c);
      FieldsKeep(s, resource, m2[d := m2[d] || m2[c]], d, i + 1);
    }
  }

  // ----- with ways around, no mark is missed

  /** The types that are done and can hold a resource are marked so, and the resource is. */
  ghost predicate Settled(s: Schema, resource: Descriptor, m: Marks, active: set<Descriptor>, of: set<Descriptor>) {
    && (forall x :: x in m && x in of && x !in active && Reaches(s, x, resource) ==> m[x])
    && (resource in m ==> m[resource])
  }

  /** The types on the path are being worked on, and the next is a field of the last. */
  ghost predicate Arrives(s: Schema, root: Descriptor, m: Marks, p: seq<Descriptor>, d: Descriptor) {
    && Elements(p) <= m.Keys
    && if p == [] then d == root else Trail(s, root, p) && Edge(s, Last(p), d)
  }

  lemma TrailNext(s: Schema, root: Descriptor, m: Marks, p: seq<Descriptor>, d: Descriptor)
    requires Arrives(s, root, m, p, d) && d !in m
    ensures Trail(s, root, p + [d])
  {
    forall i | 0 <= i < |p| ensures p[i] != d {
      assert p[i] in Elements(p);
    }
  }

  /** The visited fields that count have been heard of. */
  ghost predicate Gathered(s: Schema, resource: Descriptor, m: Marks, p: seq<Descriptor>, i: nat, of: set<Descriptor>) {
    && p != [] && Last(p) in s && Last(p) in m && i <= |s[Last(p)]|
    && (Last(p) == resource ==> m[Last(p)])
    && (Last(p) in of && Last(p) != resource ==>
         forall j :: 0 <= j < i ==> match s[Last(p)][j]
           case None => true
           case Some(c) => (c !in p || c == resource) && Reaches(s, c, resource) ==> m[Last(p)])
  }

  lemma GatherField(s: Schema, resource: Descriptor, m: Marks, m2: Marks, p: seq<Descriptor>, i: nat, c: Descriptor, of: set<Descriptor>)
    requires Gathered(s, resource, m, p, i, of) && i < |s[Last(p)]| && s[Last(p)][i] == Some(c)
    requires Settled(s, resource, m2, Elements(p), of) && Open(s, resource, of) && c in m2
    requires Last(p) in m2 && m2[Last(p)] == m[Last(p)]
    ensures Gathered(s, resource, m2[Last(p) := m2[Last(p)] || m2[c]], p, i + 1, of)
    ensures Settled(s, resource, m2[Last(p) := m2[Last(p)] || m2[c]], Elements(p), of)
  {
    hide Reaches;
    assert Edge(s, Last(p), c);
    assert Last(p) in Elements(p);
    assert c in Elements(p) <==> c in p;
  }

  /** A type whose fields are all visited has the right mark. */
  lemma SettleLast(s: Schema, resource: Descriptor, root: Descriptor, m: Marks, p: seq<Descriptor>, of: set<Descriptor>)
    requires p != [] && Last(p) in s && Gathered(s, resource, m, p, |s[Last(p)]|, of) && Trail(s, root, p)
    requires Settled(s, resource, m, Elements(p), of) && Escapes(s, resource, root, of)
    ensures Settled(s, resource, m, Elements(p[..|p| - 1]), of)
  {
    hide Reaches, Around;
    var d := Last(p);
    assert p == p[..|p| - 1] + [d];
    if d in of && d != resource && Reaches(s, d, resource) {
      var avoid := Passed(p, resource);
      var c := LeavesBy(s, d, resource, avoid);
      AroundReaches(s, c, resource, avoid);
      var j := FieldOf(s, d, c);
      assert c !in p || c == resource;
      assert m[d];
    }
    forall x | x in m && x in of && x !in Elements(p[..|p| - 1]) && Reaches(s, x, resource) ensures m[x] {
      assert x in Elements(p) ==> x == d;
    }
  }

  lemma {:induction false} MarkedSettles(s: Schema, resource: Descriptor, root: Descriptor, m: Marks, p: seq<Descriptor>, d: Descriptor, of: set<Descriptor>)
    requires Closed(s) && d in s && m.Keys <= s.Keys && Arrives(s, root, m, p, d)
    requires Open(s, resource, of) && Escapes(s, resource, root, of)
    requires Settled(s, resource, m, Elements(p), of)
    ensures Settled(s, resource, Marked(s, resource, m, d), Elements(p), of)
    decreases s.Keys - m.Keys, 0
  {
    hide Reaches, Escapes, Open;
    if d !in m {
      assert d in s.Keys - m.Keys;
      TrailNext(s, root, m, p, d);
      var q := p + [d];
      assert Last(q) == d && Elements(q) == Elements(p) + {d} && q[..|q| - 1] == p;
      FieldsSettle(s, resource, root, m[d := d == resource], q, 0, of);
      SettleLast(s, resource, root, Marked(s, resource, m, d), q, of);
    }
  }

  lemma {:induction false} FieldsSettle(s: Schema, resource: Descriptor, root: Descriptor, m: Marks, p: seq<Descriptor>, i: nat, of: set<Descriptor>)
    requires Closed(s) && m.Keys <= s.Keys && Trail(s, root, p) && Elements(p) <= m.Keys
    requires Open(s, resource, of) && Escapes(s, resource, root, of)
    requires Gathered(s, resource, m, p, i, of) && Settled(s, resource, m, Elements(p), of)
    ensures var out := MarkFields(s, resource, m, Last(p), i);
      Gathered(s, resource, out, p, |s[Last(p)]|, of) && Settled(s, resource, out, Elements(p), of)
    decreases s.Keys - m.Keys, 1 + |s[Last(p)]| - i
  {
    hide Reaches, Escapes, Open, Settled;
    var d := Last(p);
    if i < |s[d]| && s[d][i].None? {
      FieldsSettle(s, resource, root, m, p, i + 1, of);
    } else if i < |s[d]| {
      var c := s[d][i].value;
      MarkedSettles(s, resource, root, m, p, c, of);
      MarkedKeeps(s, resource, m, c);
      var m2 := Marked(s, resource, m, c);
      GatherField(s, resource, m, m2, p, i, c, of);
      FieldsSettle(s, resource, root, m2[d := m2[d] || m2[c]], p, i + 1, of);
    }
  }

  lemma EscapesRight(s: Schema, resource: Descriptor, root: Descriptor, of: set<Descriptor>)
    requires Closed(s) && root in s && Open(s, resource, of) && Escapes(s, resource, root, of)
    ensures RightFor(s, resource, root, of)
  {
    hide Escapes, Open, Reaches;
    MarkedSettles(s, resource, root, map[], [], root, of);
    MarkedDone(s, resource, map[], root);
  }

  // ----- other orders of the fields

  /** The same types with their fields in another order. */
  ghost predicate Reordered(s: Schema, t: Schema) {
    s.Keys == t.Keys && forall d :: d in s ==> multiset(s[d]) == multiset(t[d])
  }

  lemma ReorderedEdges(s: Schema, t: Schema)
    requires Reordered(s, t)
    ensures forall d, c :: Edge(s, d, c) <==> Edge(t, d, c)
    ensures Closed(s) ==> Closed(t)
  {
    forall d: Descriptor, c: Descriptor ensures Edge(s, d, c) <==> Edge(t, d, c) {
      if d in s {
        assert Some(c) in s[d] <==> Some(c) in multiset(s[d]);
        assert Some(c) in t[d] <==> Some(c) in multiset(t[d]);
      }
    }
    if Closed(s) {
      forall d, i | d in t && 0 <= i < |t[d]| && t[d][i].Some? ensures t[d][i].value in t {
        assert Edge(t, d, t[d][i].value);
        var j := FieldOf(s, d, t[d][i].value);
      }
    }
  }

  lemma {:induction false} ReorderedAroundIn(s: Schema, t: Schema, d: Descriptor, goal: Descriptor, avoid: set<Descriptor>, steps: nat)
    requires Reordered(s, t) && AroundIn(s, d, goal, avoid, steps)
    ensures AroundIn(t, d, goal, avoid, steps)
    decreases steps
  {
    if steps > 0 {
      ReorderedEdges(s, t);
      var c :| Edge(s, d, c) && c !in avoid && AroundIn(s, c, goal, avoid, steps - 1);
      ReorderedAroundIn(s, t, c, goal, avoid, steps - 1);
    }
  }

  lemma ReorderedAround(s: Schema, t: Schema, d: Descriptor, goal: Descriptor, avoid: set<Descriptor>)
    requires Reordered(s, t)
    ensures Around(s, d, goal, avoid) <==> Around(t, d, goal, avoid)
  {
    if Around(s, d, goal, avoid) {
      var steps: nat :| AroundIn(s, d, goal, avoid, steps);
      ReorderedAroundIn(s, t, d, goal, avoid, steps);
    }
    if Around(t, d, goal, avoid) {
      var steps: nat :| AroundIn(t, d, goal, avoid, steps);
      ReorderedAroundIn(t, s, d, goal, avoid, steps);
    }
  }

  lemma ReorderedEscapes(s: Schema, t: Schema, resource: Descriptor, root: Descriptor, of: set<Descriptor>)
    requires Reordered(s, t) && Open(s, resource, of) && Escapes(s, resource, root, of)
    ensures Open(t, resource, of) && Escapes(t, resource, root, of)
  {
    hide Around;
    ReorderedEdges(s, t);
    forall p | Trail(t, root, p) && Last(p) in of && Last(p) != resource && Reaches(t, Last(p), resource)
      ensures Around(t, Last(p), resource, Passed(p, resource))
    {
      assert Trail(s, root, p);
      ReorderedAround(s, t, Last(p), resource, {});
      ReorderedAround(s, t, Last(p), resource, Passed(p, resource));
    }
  }

  // ----- without a way around, some order misses the type

  ghost function MoveFirst<T>(xs: seq<T>, x: T): (r: seq<T>)
    requires x in xs
    ensures multiset(r) == multiset(xs) && r != [] && r[0] == x
  {
    var i :| 0 <= i < |xs| && xs[i] == x;
    assert xs == xs[..i] + [x] + xs[i + 1..];
    [x] + xs[..i] + xs[i + 1..]
  }

  /** An order in which each type of a trail comes first in the one before. */
  lemma {:induction false} LeadOn(s: Schema, root: Descriptor, p: seq<Descriptor>, k: nat) returns (t: Schema)
    requires Trail(s, root, p) && k < |p|
    ensures Reordered(s, t)
    ensures forall i :: 0 <= i < k ==> p[i] in t && t[p[i]] != [] && t[p[i]][0] == Some(p[i + 1])
  {
    if k == 0 {
      t := s;
    } else {
      var u := LeadOn(s, root, p, k - 1);
      ReorderedEdges(s, u);
      var d := p[k - 1];
      assert Edge(u, d, p[k]);
      t := u[d := MoveFirst(u[d], Some(p[k]))];
    }
  }

  /** Types among which a search can wander without meeting a resource. */
  ghost predicate Trap(s: Schema, resource: Descriptor, trap: set<Descriptor>, marked: set<Descriptor>) {
    resource !in trap && forall d, c :: d in trap && Edge(s, d, c) ==> c in trap || c in marked
  }

  ghost predicate AllFalse(m: Marks, ds: set<Descriptor>) {
    forall d :: d in ds && d in m ==> !m[d]
  }

  lemma {:induction false} TrapStaysFalse(s: Schema, resource: Descriptor, m: Marks, d: Descriptor, trap: set<Descriptor>, marked: set<Descriptor>)
    requires Closed(s) && d in s && m.Keys <= s.Keys
    requires Trap(s, resource, trap, marked) && marked <= m.Keys && AllFalse(m, trap + marked) && d in trap + marked
    ensures AllFalse(Marked(s, resource, m, d), trap + marked)
    decreases s.Keys - m.Keys, 0
  {
    if d !in m {
      assert d in s.Keys - m.Keys;
      FieldsStayFalse(s, resource, m[d := d == resource], d, 0, trap, marked);
    }
  }

  lemma {:induction false} FieldsStayFalse(s: Schema, resource: Descriptor, m: Marks, d: Descriptor, i: nat, trap: set<Descriptor>, marked: set<Descriptor>)
    requires Closed(s) && d in s && d in m && i <= |s[d]| && m.Keys <= s.Keys
    requires Trap(s, resource, trap, marked) && marked <= m.Keys && AllFalse(m, trap + marked) && d in trap
    ensures AllFalse(MarkFields(s, resource, m, d, i), trap + marked)
    decreases s.Keys - m.Keys, 1 + |s[d]| - i
  {
    if i < |s[d]| && s[d][i].None? {
      FieldsStayFalse(s, resource, m, d, i + 1, trap, marked);
    } else if i < |s[d]| {
      var c := s[d][i].value;
      assert Edge(s, d, c);
      TrapStaysFalse(s, resource, m, c, trap, marked);
      var m2 := Marked(s, resource, m, c);
      FieldsStayFalse(s, resource, m2[d := m2[d] || m2[c]], d, i + 1, trap, marked);
    }
  }

  /** The marks when the search has come down a trail without looking aside. */
  function Descended(p: seq<Descriptor>, k: nat, resource: Descriptor): Marks
    requires k <= |p|
  {
    map x | x in p[..k] :: x == resource
  }

  /** The search enters the first field before all else, and what it marks there stays. */
  lemma DescendStep(s: Schema, resource: Descriptor, m: Marks, d: Descriptor, c: Descriptor, x: Descriptor)
    requires Closed(s) && d in s && m.Keys <= s.Keys && d !in m && x != d && s[d] != [] && s[d][0] == Some(c)
    requires c in s && x in Marked(s, resource, m[d := d == resource], c)
    ensures var out := Marked(s, resource, m, d);
      x in out && out[x] == Marked(s, resource, m[d := d == resource], c)[x]
  {
    assert d in s.Keys - m.Keys;
    var m2 := Marked(s, resource, m[d := d == resource], c);
    FieldsKeep(s, resource, m2[d := m2[d] || m2[c]], d, 1);
  }

  lemma DescendEnd(s: Schema, resource: Descriptor, p: seq<Descriptor>, trap: set<Descriptor>)
    requires Closed(s) && p != [] && Elements(p) <= s.Keys && (forall i :: 0 <= i < |p| - 1 ==> p[i] != Last(p))
    requires Trap(s, resource, trap, Passed(p, resource)) && Last(p) in trap && trap !! Passed(p, resource)
    ensures Last(p) in s && Descended(p, |p| - 1, resource).Keys <= s.Keys
    ensures var out := Marked(s, resource, Descended(p, |p| - 1, resource), Last(p));
      Last(p) in out && !out[Last(p)]
  {
    var m := Descended(p, |p| - 1, resource);
    assert Last(p) in Elements(p) && m.Keys == Elements(p[..|p| - 1]) <= Elements(p);
    TrapStaysFalse(s, resource, m, Last(p), trap, Passed(p, resource));
  }

  lemma DescendedNext(p: seq<Descriptor>, k: nat, resource: Descriptor)
    requires k < |p| && forall i :: 0 <= i < k ==> p[i] != p[k]
    ensures p[k] !in Descended(p, k, resource)
    ensures Descended(p, k, resource)[p[k] := p[k] == resource] == Descended(p, k + 1, resource)
  {
    assert p[..k + 1] == p[..k] + [p[k]];
  }

  lemma {:induction false} Descend(s: Schema, resource: Descriptor, root: Descriptor, p: seq<Descriptor>, k: nat, trap: set<Descriptor>)
    requires Closed(s) && Elements(p) <= s.Keys && Trail(s, root, p) && k < |p|
    requires forall i :: 0 <= i < |p| - 1 ==> p[i] in s && s[p[i]] != [] && s[p[i]][0] == Some(p[i + 1])
    requires Trap(s, resource, trap, Passed(p, resource)) && Last(p) in trap && trap !! Passed(p, resource)
    ensures p[k] in s && Descended(p, k, resource).Keys <= s.Keys
    ensures var out := Marked(s, resource, Descended(p, k, resource), p[k]);
      Last(p) in out && !out[Last(p)]
    decreases |p| - k
  {
    hide Trap, Passed, Descended, Marked;
    if k == |p| - 1 {
      DescendEnd(s, resource, p, trap);
    } else {
      Descend(s, resource, root, p, k + 1, trap);
      DescendedNext(p, k, resource);
      assert p[k] in Elements(p) && p[k + 1] in Elements(p);
      DescendStep(s, resource, Descended(p, k, resource), p[k], p[k + 1], Last(p));
    }
  }

  /** The types that can be come to around others; they hold no resource if it cannot. */
  ghost function Wandering(s: Schema, d: Descriptor, avoid: set<Descriptor>): set<Descriptor> {
    set x | x in s && Around(s, d, x, avoid)
  }

  lemma WanderingTrap(s: Schema, resource: Descriptor, d: Descriptor, avoid: set<Descriptor>)
    requires Closed(s) && !Around(s, d, resource, avoid)
    ensures Trap(s, resource, Wandering(s, d, avoid), avoid)
  {
    forall x, c | x in Wandering(s, d, avoid) && Edge(s, x, c) ensures c in Wandering(s, d, avoid) || c in avoid {
      if c !in avoid {
        AroundThen(s, d, x, c, avoid);
        var j := FieldOf(s, x, c);
      }
    }
  }

  lemma {:induction false} NoneAvoided(s: Schema, d: Descriptor, x: Descriptor, avoid: set<Descriptor>, steps: nat)
    requires AroundIn(s, d, x, avoid, steps) && d !in avoid
    ensures x !in avoid
    decreases steps
  {
    if steps > 0 {
      var c :| Edge(s, d, c) && c !in avoid && AroundIn(s, c, x, avoid, steps - 1);
      NoneAvoided(s, c, x, avoid, steps - 1);
    }
  }

  lemma WanderingAvoids(s: Schema, d: Descriptor, avoid: set<Descriptor>)
    requires d !in avoid
    ensures Wandering(s, d, avoid) !! avoid
  {
    forall x | x in Wandering(s, d, avoid) ensures x !in avoid {
      var steps: nat :| AroundIn(s, d, x, avoid, steps);
      NoneAvoided(s, d, x, avoid, steps);
    }
  }

  lemma TrailIn(s: Schema, root: Descriptor, p: seq<Descriptor>)
    requires Closed(s) && root in s && Trail(s, root, p)
    ensures Elements(p) <= s.Keys && Last(p) in s
  {
    forall i | 0 <= i < |p| ensures p[i] in s {
      if i > 0 {
        assert Edge(s, p[i - 1], p[i - 1 + 1]);
        var j := FieldOf(s, p[i - 1], p[i]);
      }
    }
  }

  lemma NoEscapeMissed(s: Schema, resource: Descriptor, root: Descriptor, p: seq<Descriptor>) returns (t: Schema)
    requires Closed(s) && root in s && Trail(s, root, p)
    requires !Around(s, Last(p), resource, Passed(p, resource))
    ensures Reordered(s, t) && Closed(t)
    ensures var marks := Marked(t, resource, map[], root); Last(p) in marks && !marks[Last(p)]
  {
    hide Around;
    t := LeadOn(s, root, p, |p| - 1);
    ReorderedEdges(s, t);
    var x, avoid := Last(p), Passed(p, resource);
    ReorderedAround(s, t, x, resource, avoid);
    assert Trail(t, root, p);
    TrailIn(t, root, p);
    AroundSelf(t, x, avoid);
    WanderingTrap(t, resource, x, avoid);
    WanderingAvoids(t, x, avoid);
    Descend(t, resource, root, p, 0, Wandering(t, x, avoid));
    assert Descended(p, 0, resource) == map[];
  }

  // ----- the exact condition

  /** The marks are right for every order of the fields exactly when there are ways around. */
  lemma RightForAllOrdersIff(s: Schema, resource: Descriptor, root: Descriptor, of: set<Descriptor>)
    requires Closed(s) && root in s && Open(s, resource, of)
    ensures (forall t :: Reordered(s, t) ==> RightFor(t, resource, root, of)) <==> Escapes(s, resource, root, of)
  {
    hide Around, RightFor;
    if Escapes(s, resource, root, of) {
      forall t | Reordered(s, t) ensures RightFor(t, resource, root, of) {
        ReorderedEdges(s, t);
        ReorderedEscapes(s, t, resource, root, of);
        EscapesRight(t, resource, root, of);
      }
    } else {
      var p :| Trail(s, root, p) && Last(p) in of && Last(p) != resource && Reaches(s, Last(p), resource)
            && !Around(s, Last(p), resource, Passed(p, resource));
      var t := MissedFor(s, resource, root, of, p);
    }
  }

  lemma MissedFor(s: Schema, resource: Descriptor, root: Descriptor, of: set<Descriptor>, p: seq<Descriptor>) returns (t: Schema)
    requires Closed(s) && root in s && Trail(s, root, p) && Last(p) in of && Reaches(s, Last(p), resource)
    requires !Around(s, Last(p), resource, Passed(p, resource))
    ensures Reordered(s, t) && !RightFor(t, resource, root, of)
  {
    t := NoEscapeMissed(s, resource, root, p);
    ReorderedAround(s, t, Last(p), resource, {});
  }

  lemma AllOpen(s: Schema, resource: Descriptor)
    requires Closed(s)
    ensures Open(s, resource, s.Keys)
  {
    forall d, c | d in s && Edge(s, d, c) ensures c in s {
      var j := FieldOf(s, d, c);
    }
  }

  /** For the marks of all types. */
  lemma AllRightIff(s: Schema, resource: Descriptor, root: Descriptor)
    requires Closed(s) && root in s
    ensures (forall t :: Reordered(s, t) ==> RightFor(t, resource, root, s.Keys)) <==> Escapes(s, resource, root, s.Keys)
  {
    AllOpen(s, resource);
    RightForAllOrdersIff(s, resource, root, s.Keys);
  }

  /**
  The marks of everything reachable from a type. Whatever the graph, a true mark is right and so is the mark of the
  type itself; all marks are where there are ways around.
  */
  method PrecomputeContainment(schema: Schema, resource: Descriptor, root: Descriptor) returns (marks: Marks)
    requires Closed(schema) && root in schema
    ensures marks == Marked(schema, resource, map[], root)
    ensures forall d :: d in marks && marks[d] ==> Reaches(schema, d, resource)
    ensures forall d :: d in marks <==> Reaches(schema, root, d)
    ensures root in marks && (marks[root] <==> Reaches(schema, root, resource))
    ensures Escapes(schema, resource, root, schema.Keys) ==> forall d :: d in marks ==> (marks[d] <==> Reaches(schema, d, resource))
  {
    hide Escapes, Reaches;
    var marker := new Marker(schema, resource);
    marker.Visit(root);
    marks := marker.marks;
    MarkedDone(schema, resource, map[], root);
    AllVisited(schema, resource, marks, root);
    AllOpen(schema, resource);
    if Escapes(schema, resource, root, schema.Keys) {
      EscapesRight(schema, resource, root, schema.Keys);
    }
  }

  /** The types of the messages that can be found in a message outside resources. */
  ghost function Entered(s: Schema, resource: Descriptor, root: Descriptor): set<Descriptor> {
    set x | x in s && root != resource && Around(s, root, x, {resource})
  }

  lemma EnteredOpen(s: Schema, resource: Descriptor, root: Descriptor)
    requires Closed(s) && root in s
    ensures Open(s, resource, Entered(s, resource, root)) && (root == resource || root in Entered(s, resource, root))
  {
    AroundSelf(s, root, {resource});
    forall d, c | d in Entered(s, resource, root) && c != resource && Edge(s, d, c) ensures c in Entered(s, resource, root) {
      AroundThen(s, root, d, c, {resource});
      var j := FieldOf(s, d, c);
    }
  }

  // ----- two examples

  /** No cycle other than a type that holds itself, among the types that can hold a resource. */
  ghost predicate SelfLoopsOnly(s: Schema, resource: Descriptor) {
    forall d, c :: Reaches(s, d, c) && Reaches(s, c, d) && Reaches(s, d, resource) ==> d == c
  }

  lemma {:induction false} TrailReaches(s: Schema, root: Descriptor, p: seq<Descriptor>, i: nat)
    requires Trail(s, root, p) && i < |p|
    ensures Reaches(s, p[i], Last(p))
    decreases |p| - i
  {
    if i == |p| - 1 {
      AroundSelf(s, p[i], {});
    } else {
      TrailReaches(s, root, p, i + 1);
      StepAround(s, p[i], p[i + 1], Last(p), {});
    }
  }

  lemma {:induction false} KeepsClear(s: Schema, x: Descriptor, d: Descriptor, goal: Descriptor, avoid: set<Descriptor>, steps: nat)
    requires Reaches(s, x, d) && AroundIn(s, d, goal, {}, steps)
    requires forall y :: Reaches(s, x, y) && Reaches(s, y, goal) ==> y !in avoid
    ensures Around(s, d, goal, avoid)
    decreases steps
  {
    if steps == 0 {
      AroundSelf(s, d, avoid);
    } else {
      var c :| Edge(s, d, c) && AroundIn(s, c, goal, {}, steps - 1);
      AroundThen(s, x, d, c, {});
      KeepsClear(s, x, c, goal, avoid, steps - 1);
      StepAround(s, d, c, goal, avoid);
    }
  }

  /** Types that hold themselves do no harm. */
  lemma SelfLoopsEscape(s: Schema, resource: Descriptor, root: Descriptor)
    requires SelfLoopsOnly(s, resource)
    ensures Escapes(s, resource, root, s.Keys)
  {
    hide Around;
    forall p | Trail(s, root, p) && Last(p) in s.Keys && Last(p) != resource && Reaches(s, Last(p), resource)
      ensures Around(s, Last(p), resource, Passed(p, resource))
    {
      var x := Last(p);
      forall y | Reaches(s, x, y) && Reaches(s, y, resource) ensures y !in Passed(p, resource) {
        if y in Passed(p, resource) {
          var i :| 0 <= i < |p| - 1 && p[i] == y;
          TrailReaches(s, root, p, i);
        }
      }
      AroundSelf(s, x, {});
      StepsOf(s, x, resource, Passed(p, resource));
    }
  }

  lemma StepsOf(s: Schema, x: Descriptor, goal: Descriptor, avoid: set<Descriptor>)
    requires Reaches(s, x, x) && Reaches(s, x, goal)
    requires forall y :: Reaches(s, x, y) && Reaches(s, y, goal) ==> y !in avoid
    ensures Around(s, x, goal, avoid)
  {
    var steps: nat :| AroundIn(s, x, goal, {}, steps);
    KeepsClear(s, x, x, goal, avoid, steps);
  }

  /** Type 0 holds 1 and 2, type 1 holds 0 again; 2 is the resource. */
  function CyclicSchema(): Schema {
    map[0 := [Some(1), Some(2)], 1 := [Some(0)], 2 := []]
  }

  /** Type 1 is done before its field's type is, and keeps the wrong mark. */
  lemma CycleIsMissed()
    ensures var s := CyclicSchema();
      Closed(s) && Marked(s, 2, map[], 0) == map[0 := true, 1 := false, 2 := true] && Reaches(s, 1, 2)
  {
    var s := CyclicSchema();
    assert Edge(s, 0, 2) && Edge(s, 1, 0);
    AroundSelf(s, 2, {});
    StepAround(s, 0, 2, 2, {});
    StepAround(s, 1, 0, 2, {});
    var m0: Marks := map[0 := false];
    var m1 := m0[1 := false];
    var m2 := m1[2 := true];
    assert MarkFields(s, 2, m1, 1, 0) == m1 by {
      assert Marked(s, 2, m1, 0) == m1;
      assert MarkFields(s, 2, m1[1 := m1[1] || m1[0]], 1, 1) == m1[1 := m1[1] || m1[0]] == m1;
    }
    assert Marked(s, 2, m0, 1) == m1;
    assert MarkFields(s, 2, m2, 2, 0) == m2;
    assert Marked(s, 2, m1, 2) == m2;
    assert MarkFields(s, 2, m1, 0, 1) == MarkFields(s, 2, m2[0 := true], 0, 2) == m2[0 := true];
    assert m1[0 := m1[0] || m1[1]] == m1;
    assert MarkFields(s, 2, m0, 0, 0) == m2[0 := true];
    var empty: Marks := map[];
    assert empty[0 := false] == m0;
  }
}
