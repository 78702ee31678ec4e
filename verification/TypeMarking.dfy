/**
Which message types can hold a resource: a depth-first search over the type graph that remembers
a mark per type, also for the types it is still working on.
*/
module TypeMarking {
  import opened Options

  type Descriptor = nat

  /** The message types of the fields of each type; none for a field that is not a message. */
  type Schema = map<Descriptor, seq<Option<Descriptor>>>

  ghost predicate Closed(s: Schema) {
    forall d, i :: d in s && 0 <= i < |s[d]| && s[d][i].Some? ==> s[d][i].value in s
  }

  ghost predicate Edge(s: Schema, d: Descriptor, c: Descriptor) {
    d in s && Some(c) in s[d]
  }

  ghost predicate AroundIn(s: Schema, d: Descriptor, goal: Descriptor, avoid: set<Descriptor>, steps: nat)
    decreases steps
  {
    if steps == 0 then d == goal
    else exists c :: Edge(s, d, c) && c !in avoid && AroundIn(s, c, goal, avoid, steps - 1)
  }

  /** There is a way from a type to another that enters none of the types to avoid. */
  ghost predicate Around(s: Schema, d: Descriptor, goal: Descriptor, avoid: set<Descriptor>) {
    exists steps: nat :: AroundIn(s, d, goal, avoid, steps)
  }

  ghost predicate Reaches(s: Schema, d: Descriptor, goal: Descriptor) {
    Around(s, d, goal, {})
  }

  lemma AroundSelf(s: Schema, d: Descriptor, avoid: set<Descriptor>)
    ensures Around(s, d, d, avoid)
  {
    assert AroundIn(s, d, d, avoid, 0);
  }

  lemma StepAround(s: Schema, d: Descriptor, c: Descriptor, goal: Descriptor, avoid: set<Descriptor>)
    requires Edge(s, d, c) && c !in avoid && Around(s, c, goal, avoid)
    ensures Around(s, d, goal, avoid)
  {
    var steps: nat :| AroundIn(s, c, goal, avoid, steps);
    assert AroundIn(s, d, goal, avoid, steps + 1);
  }

  lemma {:induction false} AroundInThen(s: Schema, a: Descriptor, d: Descriptor, c: Descriptor, avoid: set<Descriptor>, steps: nat)
    requires AroundIn(s, a, d, avoid, steps) && Edge(s, d, c) && c !in avoid
    ensures AroundIn(s, a, c, avoid, steps + 1)
    decreases steps
  {
    if steps == 0 {
      assert AroundIn(s, c, c, avoid, 0);
    } else {
      var b :| Edge(s, a, b) && b !in avoid && AroundIn(s, b, d, avoid, steps - 1);
      AroundInThen(s, b, d, c, avoid, steps - 1);
    }
  }

  lemma AroundThen(s: Schema, a: Descriptor, d: Descriptor, c: Descriptor, avoid: set<Descriptor>)
    requires Around(s, a, d, avoid) && Edge(s, d, c) && c !in avoid
    ensures Around(s, a, c, avoid)
  {
    var steps: nat :| AroundIn(s, a, d, avoid, steps);
    AroundInThen(s, a, d, c, avoid, steps);
  }

  lemma {:induction false} AroundInLess(s: Schema, d: Descriptor, goal: Descriptor, avoid: set<Descriptor>, less: set<Descriptor>, steps: nat)
    requires AroundIn(s, d, goal, avoid, steps) && less <= avoid
    ensures AroundIn(s, d, goal, less, steps)
    decreases steps
  {
    if steps > 0 {
      var c :| Edge(s, d, c) && c !in avoid && AroundIn(s, c, goal, avoid, steps - 1);
      AroundInLess(s, c, goal, avoid, less, steps - 1);
    }
  }

  lemma AroundReaches(s: Schema, d: Descriptor, goal: Descriptor, avoid: set<Descriptor>)
    requires Around(s, d, goal, avoid)
    ensures Reaches(s, d, goal)
  {
    var steps: nat :| AroundIn(s, d, goal, avoid, steps);
    AroundInLess(s, d, goal, avoid, {}, steps);
  }

  /** A way to elsewhere leaves its type through another one. */
  lemma {:induction false} LeavesIn(s: Schema, d: Descriptor, goal: Descriptor, avoid: set<Descriptor>, steps: nat)
    returns (c: Descriptor)
    requires AroundIn(s, d, goal, avoid, steps) && d != goal
    ensures Edge(s, d, c) && c != d && c !in avoid && Around(s, c, goal, avoid)
    decreases steps
  {
    c :| Edge(s, d, c) && c !in avoid && AroundIn(s, c, goal, avoid, steps - 1);
    if c == d {
      c := LeavesIn(s, d, goal, avoid, steps - 1);
    }
  }

  lemma LeavesBy(s: Schema, d: Descriptor, goal: Descriptor, avoid: set<Descriptor>) returns (c: Descriptor)
    requires Around(s, d, goal, avoid) && d != goal
    ensures Edge(s, d, c) && c != d && c !in avoid && Around(s, c, goal, avoid)
  {
    var steps: nat :| AroundIn(s, d, goal, avoid, steps);
    c := LeavesIn(s, d, goal, avoid, steps);
  }

  /** A set of types closed under fields has everything that is reachable from it. */
  lemma {:induction false} StaysInside(s: Schema, inside: set<Descriptor>, d: Descriptor, goal: Descriptor, steps: nat)
    requires forall x, c :: x in inside && Edge(s, x, c) ==> c in inside
    requires d in inside && AroundIn(s, d, goal, {}, steps)
    ensures goal in inside
    decreases steps
  {
    if steps > 0 {
      var c :| Edge(s, d, c) && AroundIn(s, c, goal, {}, steps - 1);
      StaysInside(s, inside, c, goal, steps - 1);
    }
  }

  lemma FieldOf(s: Schema, d: Descriptor, c: Descriptor) returns (j: nat)
    requires Edge(s, d, c)
    ensures j < |s[d]| && s[d][j] == Some(c)
  {
    j :| 0 <= j < |s[d]| && s[d][j] == Some(c);
  }

  // ----- the search on values

  type Marks = map<Descriptor, bool>

  /** The marks after the visit of a type. */
  function Marked(s: Schema, resource: Descriptor, m: Marks, d: Descriptor): (out: Marks)
    requires Closed(s) && d in s && m.Keys <= s.Keys
    ensures m.Keys <= out.Keys <= s.Keys && d in out
    decreases s.Keys - m.Keys, 0
  {
    if d in m then m
    else
      assert d in s.Keys - m.Keys;
      MarkFields(s, resource, m[d := d == resource], d, 0)
  }

  /** The marks after the visits of the remaining fields of a type. */
  function MarkFields(s: Schema, resource: Descriptor, m: Marks, d: Descriptor, i: nat): (out: Marks)
    requires Closed(s) && d in s && d in m && i <= |s[d]| && m.Keys <= s.Keys
    ensures m.Keys <= out.Keys <= s.Keys
    decreases s.Keys - m.Keys, 1 + |s[d]| - i
  {
    if i == |s[d]| then m
    else if s[d][i].None? then MarkFields(s, resource, m, d, i + 1)
    else
      var c := s[d][i].value;
      var m2 := Marked(s, resource, m, c);
      MarkFields(s, resource, m2[d := m2[d] || m2[c]], d, i + 1)
  }

  // ----- the search

  class Marker {
    const schema: Schema
    const resource: Descriptor
    var marks: Marks

    constructor (schema: Schema, resource: Descriptor)
      ensures this.schema == schema && this.resource == resource && marks == map[]
    {
      this.schema := schema;
      this.resource := resource;
      marks := map[];
    }

    method Visit(d: Descriptor)
      requires Closed(schema) && d in schema && marks.Keys <= schema.Keys
      modifies this`marks
      ensures marks == Marked(schema, resource, old(marks), d)
      decreases schema.Keys - marks.Keys
    {
      if d in marks {
        return;
      }
      ghost var m0 := marks;
      assert d in schema.Keys - m0.Keys;
      if d == resource {
        marks := marks[d := true];
      }
      if d !in marks {
        marks := marks[d := false];
      }
      for i := 0 to |schema[d]|
        invariant d in marks && m0.Keys <= marks.Keys <= schema.Keys
        invariant MarkFields(schema, resource, marks, d, i) == Marked(schema, resource, m0, d)
      {
        if schema[d][i].None? {
          continue;
        }
        var c := schema[d][i].value;
        Visit(c);
        marks := marks[d := marks[d] || marks[c]];
      }
    }
  }

  // ----- what a visit achieves on any type graph

  /** A type marked as holding resources does. */
  ghost predicate Sound(s: Schema, resource: Descriptor, m: Marks) {
    && m.Keys <= s.Keys
    && forall x :: x in m && m[x] ==> Reaches(s, x, resource)
  }

  ghost predicate Extends(m0: Marks, m: Marks) {
    forall x :: x in m0 ==> x in m && m[x] == m0[x]
  }

  /** The types marked since, other than one, have had all their fields visited. */
  ghost predicate Visited(s: Schema, m0: Marks, m: Marks, except: set<Descriptor>) {
    forall x, c :: x in m && x !in m0 && x !in except && Edge(s, x, c) ==> c in m
  }

  ghost predicate Done(s: Schema, resource: Descriptor, m0: Marks, m: Marks, d: Descriptor) {
    && Sound(s, resource, m) && Extends(m0, m) && Visited(s, m0, m, {}) && d in m
    && (forall x :: x in m && x !in m0 ==> Reaches(s, d, x))
    && (resource in m && resource !in m0 ==> m[resource] && (d !in m0 ==> m[d]))
    && (d in m0 ==> m == m0)
  }

  /** The visit of a type after some of its fields. */
  ghost predicate Visiting(s: Schema, resource: Descriptor, m0: Marks, m: Marks, d: Descriptor, i: nat) {
    && d in s && i <= |s[d]| && d in m && d !in m0
    && Sound(s, resource, m) && Extends(m0, m) && Visited(s, m0, m, {d})
    && (forall j :: 0 <= j < i && s[d][j].Some? ==> s[d][j].value in m)
    && (d == resource ==> m[d])
    && (forall x :: x in m && x !in m0 ==> Reaches(s, d, x))
    && (resource !in m0 && resource in m ==> m[resource] && m[d])
  }

  lemma Start(s: Schema, resource: Descriptor, m0: Marks, d: Descriptor)
    requires d in s && d !in m0 && Sound(s, resource, m0)
    ensures Visiting(s, resource, m0, m0[d := d == resource], d, 0)
  {
    AroundSelf(s, d, {});
  }

  lemma VisitField(s: Schema, resource: Descriptor, m0: Marks, m: Marks, m2: Marks, d: Descriptor, i: nat, c: Descriptor)
    requires Visiting(s, resource, m0, m, d, i) && i < |s[d]| && s[d][i] == Some(c) && Done(s, resource, m, m2, c)
    ensures d in m2 && c in m2 && Visiting(s, resource, m0, m2[d := m2[d] || m2[c]], d, i + 1)
  {
    hide Around;
    assert Edge(s, d, c);
    if m2[c] {
      StepAround(s, d, c, resource, {});
    }
    forall x | x in m2 && x !in m0 ensures Reaches(s, d, x) {
      if x !in m {
        StepAround(s, d, c, x, {});
      }
    }
  }

  lemma Finish(s: Schema, resource: Descriptor, m0: Marks, m: Marks, d: Descriptor)
    requires d in s && Visiting(s, resource, m0, m, d, |s[d]|)
    ensures Done(s, resource, m0, m, d)
  {
    forall c | Edge(s, d, c) ensures c in m {
      var j := FieldOf(s, d, c);
    }
  }

  lemma {:induction false} MarkedDone(s: Schema, resource: Descriptor, m: Marks, d: Descriptor)
    requires Closed(s) && d in s && Sound(s, resource, m)
    ensures Done(s, resource, m, Marked(s, resource, m, d), d)
    decreases s.Keys - m.Keys, 0
  {
    if d !in m {
      assert d in s.Keys - m.Keys;
      Start(s, resource, m, d);
      FieldsDone(s, resource, m, m[d := d == resource], d, 0);
      Finish(s, resource, m, Marked(s, resource, m, d), d);
    }
  }

  lemma {:induction false} FieldsDone(s: Schema, resource: Descriptor, m0: Marks, m: Marks, d: Descriptor, i: nat)
    requires Closed(s) && Visiting(s, resource, m0, m, d, i)
    ensures Visiting(s, resource, m0, MarkFields(s, resource, m, d, i), d, |s[d]|)
    decreases s.Keys - m.Keys, 1 + |s[d]| - i
  {
    hide Reaches, Visited, Extends;
    if i < |s[d]| && s[d][i].None? {
      FieldsDone(s, resource, m0, m, d, i + 1);
    } else if i < |s[d]| {
      var c := s[d][i].value;
      MarkedDone(s, resource, m, c);
      var m2 := Marked(s, resource, m, c);
      VisitField(s, resource, m0, m, m2, d, i, c);
      FieldsDone(s, resource, m0, m2[d := m2[d] || m2[c]], d, i + 1);
    }
  }

  lemma AllVisited(s: Schema, resource: Descriptor, m: Marks, root: Descriptor)
    requires Done(s, resource, map[], m, root)
    ensures forall d :: d in m <==> Reaches(s, root, d)
    ensures m[root] <==> Reaches(s, root, resource)
  {
    forall d | Reaches(s, root, d) ensures d in m {
      var steps: nat :| AroundIn(s, root, d, {}, steps);
      StaysInside(s, m.Keys, root, d, steps);
    }
  }
}
