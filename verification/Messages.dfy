/**
Converting every resource inside a message: a traversal of the message that does not enter fields
whose type cannot hold a resource.
*/
module Messages {
  import opened Options
  import opened TypeMarking
  import opened TypeOrders
  import Formats

  /** A message and the messages set in its fields, in the order of the fields. */
  datatype Message<T> = Message(descriptor: Descriptor, body: T, children: seq<Message<T>>)

  ghost predicate WellTyped<T>(s: Schema, m: Message<T>)
    decreases m
  {
    m.descriptor in s && forall c :: c in m.children ==> Edge(s, m.descriptor, c.descriptor) && WellTyped(s, c)
  }

  // ----- the traversal without marks

  /** Converts the outermost resources in order until one fails; says whether none did. */
  function Full<T>(m: Message<T>, resource: Descriptor, f: T -> Option<T>): (bool, Message<T>)
    decreases m
  {
    if m.descriptor == resource then
      match f(m.body)
      case None => (false, m)
      case Some(b) => (true, m.(body := b))
    else
      var (ok, cs) := FullAll(m.children, resource, f);
      (ok, m.(children := cs))
  }

  function FullAll<T>(ms: seq<Message<T>>, resource: Descriptor, f: T -> Option<T>): (bool, seq<Message<T>>)
    decreases ms
  {
    if ms == [] then (true, [])
    else
      var (ok, c) := Full(ms[0], resource, f);
      if !ok then (false, [c] + ms[1..])
      else
        var (all, cs) := FullAll(ms[1..], resource, f);
        (all, [c] + cs)
  }

  // ----- what the traversal does

  /** The bodies of the outermost resources, in order. */
  function Outermost<T>(m: Message<T>, resource: Descriptor): seq<T>
    decreases m
  {
    if m.descriptor == resource then [m.body] else OutermostAll(m.children, resource)
  }

  function OutermostAll<T>(ms: seq<Message<T>>, resource: Descriptor): seq<T>
    decreases ms
  {
    if ms == [] then [] else Outermost(ms[0], resource) + OutermostAll(ms[1..], resource)
  }

  /** Resources converted one by one until one fails. */
  function ConvertList<T>(ts: seq<T>, f: T -> Option<T>): seq<T> {
    if ts == [] || f(ts[0]).None? then ts else [f(ts[0]).value] + ConvertList(ts[1..], f)
  }

  ghost predicate AllConvert<T>(ts: seq<T>, f: T -> Option<T>) {
    forall i :: 0 <= i < |ts| ==> f(ts[i]).Some?
  }

  lemma {:induction false} ConvertConcat<T>(ts: seq<T>, us: seq<T>, f: T -> Option<T>)
    ensures ConvertList(ts + us, f) == ConvertList(ts, f) + if AllConvert(ts, f) then ConvertList(us, f) else us
    ensures AllConvert(ts + us, f) <==> AllConvert(ts, f) && AllConvert(us, f)
  {
    assert AllConvert(ts + us, f) ==> AllConvert(ts, f) && AllConvert(us, f) by {
      if AllConvert(ts + us, f) {
        forall i | 0 <= i < |ts| ensures f(ts[i]).Some? { assert (ts + us)[i] == ts[i]; }
        forall i | 0 <= i < |us| ensures f(us[i]).Some? { assert (ts + us)[|ts| + i] == us[i]; }
      }
    }
    if ts == [] {
      assert ts + us == us;
    } else {
      assert (ts + us)[1..] == ts[1..] + us;
      ConvertConcat(ts[1..], us, f);
      assert AllConvert(ts, f) <==> f(ts[0]).Some? && AllConvert(ts[1..], f) by {
        assert ts == [ts[0]] + ts[1..];
        assert AllConvert(ts, f) ==> forall i :: 0 <= i < |ts[1..]| ==> f(ts[1..][i]).Some?;
      }
    }
  }

  /** Messages that differ in the bodies of outermost resources only. */
  ghost predicate SameShape<T>(m: Message<T>, n: Message<T>, resource: Descriptor)
    decreases m
  {
    && m.descriptor == n.descriptor
    && if m.descriptor == resource then m.children == n.children
       else m.body == n.body && SameShapes(m.children, n.children, resource)
  }

  ghost predicate SameShapes<T>(ms: seq<Message<T>>, ns: seq<Message<T>>, resource: Descriptor)
    decreases ms
  {
    if ms == [] || ns == [] then ms == ns else SameShape(ms[0], ns[0], resource) && SameShapes(ms[1..], ns[1..], resource)
  }

  /** The traversal converts exactly the outermost resources, stops at the first failure and touches nothing else. */
  lemma {:induction false} FullConverts<T>(m: Message<T>, resource: Descriptor, f: T -> Option<T>)
    ensures var (ok, out) := Full(m, resource, f);
      && (ok <==> AllConvert(Outermost(m, resource), f))
      && Outermost(out, resource) == ConvertList(Outermost(m, resource), f)
      && SameShape(m, out, resource)
    decreases m
  {
    if m.descriptor == resource {
      AllConvertHead([m.body], f);
      assert [m.body][1..] == [];
    } else {
      FullAllConverts(m.children, resource, f);
    }
  }

  lemma {:induction false} FullAllConverts<T>(ms: seq<Message<T>>, resource: Descriptor, f: T -> Option<T>)
    ensures var (ok, out) := FullAll(ms, resource, f);
      && (ok <==> AllConvert(OutermostAll(ms, resource), f))
      && OutermostAll(out, resource) == ConvertList(OutermostAll(ms, resource), f)
      && SameShapes(ms, out, resource)
    decreases ms
  {
    if ms != [] {
      FullConverts(ms[0], resource, f);
      FullAllConverts(ms[1..], resource, f);
      ConvertConcat(Outermost(ms[0], resource), OutermostAll(ms[1..], resource), f);
      var (ok, c) := Full(ms[0], resource, f);
      var (all, cs) := FullAll(ms[1..], resource, f);
      assert ([c] + ms[1..])[1..] == ms[1..] && ([c] + cs)[1..] == cs;
      SameShapesSelf(ms[1..], resource);
    }
  }

  lemma {:induction false} SameShapeSelf<T>(m: Message<T>, resource: Descriptor)
    ensures SameShape(m, m, resource)
    decreases m
  {
    SameShapesSelf(m.children, resource);
  }

  lemma {:induction false} SameShapesSelf<T>(ms: seq<Message<T>>, resource: Descriptor)
    ensures SameShapes(ms, ms, resource)
    decreases ms
  {
    if ms != [] {
      SameShapeSelf(ms[0], resource);
      SameShapesSelf(ms[1..], resource);
    }
  }

  /** Shape and outermost resources determine a message. */
  lemma {:induction false} SameMessage<T>(m: Message<T>, n: Message<T>, resource: Descriptor)
    requires SameShape(m, n, resource)
    ensures |Outermost(m, resource)| == |Outermost(n, resource)|
    ensures Outermost(m, resource) == Outermost(n, resource) ==> m == n
    decreases m
  {
    if m.descriptor == resource {
      assert Outermost(m, resource)[0] == m.body && Outermost(n, resource)[0] == n.body;
    } else {
      SameMessages(m.children, n.children, resource);
    }
  }

  lemma {:induction false} SameMessages<T>(ms: seq<Message<T>>, ns: seq<Message<T>>, resource: Descriptor)
    requires SameShapes(ms, ns, resource)
    ensures |OutermostAll(ms, resource)| == |OutermostAll(ns, resource)|
    ensures OutermostAll(ms, resource) == OutermostAll(ns, resource) ==> ms == ns
    decreases ms
  {
    if ms != [] && ns != [] {
      SameMessage(ms[0], ns[0], resource);
      SameMessages(ms[1..], ns[1..], resource);
      var a, b := Outermost(ms[0], resource), OutermostAll(ms[1..], resource);
      var c, d := Outermost(ns[0], resource), OutermostAll(ns[1..], resource);
      if a + b == c + d {
        assert a == (a + b)[..|a|] == (c + d)[..|c|] == c;
        assert b == (a + b)[|a|..] == (c + d)[|c|..] == d;
      }
      assert ms == [ms[0]] + ms[1..] && ns == [ns[0]] + ns[1..];
    }
  }

  lemma {:induction false} ShapesCompose<T>(m: Message<T>, n: Message<T>, o: Message<T>, resource: Descriptor)
    requires SameShape(m, n, resource) && SameShape(n, o, resource)
    ensures SameShape(m, o, resource)
    decreases m
  {
    if m.descriptor != resource {
      ShapeListsCompose(m.children, n.children, o.children, resource);
    }
  }

  lemma {:induction false} ShapeListsCompose<T>(ms: seq<Message<T>>, ns: seq<Message<T>>, os: seq<Message<T>>, resource: Descriptor)
    requires SameShapes(ms, ns, resource) && SameShapes(ns, os, resource)
    ensures SameShapes(ms, os, resource)
    decreases ms
  {
    if ms != [] && ns != [] && os != [] {
      ShapesCompose(ms[0], ns[0], os[0], resource);
      ShapeListsCompose(ms[1..], ns[1..], os[1..], resource);
    }
  }

  // ----- round trips

  ghost predicate Undoes<T>(t: T, f: T -> Option<T>, g: T -> Option<T>) {
    f(t).Some? && g(f(t).value) == Some(t)
  }

  lemma {:induction false} ListRoundTrip<T>(ts: seq<T>, f: T -> Option<T>, g: T -> Option<T>)
    ensures AllConvert(ts, f) && AllConvert(ConvertList(ts, f), g) && ConvertList(ConvertList(ts, f), g) == ts
       <==> forall i :: 0 <= i < |ts| ==> Undoes(ts[i], f, g)
  {
    if ts != [] && f(ts[0]).Some? {
      ListRoundTrip(ts[1..], f, g);
      var us := ConvertList(ts[1..], f);
      assert ConvertList(ts, f)[1..] == us && ConvertList(ts, f)[0] == f(ts[0]).value;
      AllConvertHead(ts, f);
      AllConvertHead(ConvertList(ts, f), g);
      assert ts == [ts[0]] + ts[1..];
      if g(f(ts[0]).value).Some? {
        var back := ConvertList(ConvertList(ts, f), g);
        assert back[0] == g(f(ts[0]).value).value && back[1..] == ConvertList(us, g);
      }
      assert (forall i :: 0 <= i < |ts| ==> Undoes(ts[i], f, g))
        <==> Undoes(ts[0], f, g) && forall i :: 0 <= i < |ts[1..]| ==> Undoes(ts[1..][i], f, g) by {
        if forall i :: 0 <= i < |ts| ==> Undoes(ts[i], f, g) {
          forall i | 0 <= i < |ts[1..]| ensures Undoes(ts[1..][i], f, g) { assert ts[1..][i] == ts[i + 1]; }
        }
        if Undoes(ts[0], f, g) && forall i :: 0 <= i < |ts[1..]| ==> Undoes(ts[1..][i], f, g) {
          forall i | 0 <= i < |ts| ensures Undoes(ts[i], f, g) { assert i > 0 ==> ts[i] == ts[1..][i - 1]; }
        }
      }
    } else if ts != [] {
      assert !Undoes(ts[0], f, g);
    }
  }

  lemma AllConvertHead<T>(ts: seq<T>, f: T -> Option<T>)
    requires ts != []
    ensures AllConvert(ts, f) <==> f(ts[0]).Some? && AllConvert(ts[1..], f)
  {
    ConvertConcat([ts[0]], ts[1..], f);
    assert ts == [ts[0]] + ts[1..];
    assert AllConvert([ts[0]], f) <==> f([ts[0]][0]).Some?;
  }

  /** Converting a whole message and converting back restores it exactly when it does so for each resource in it. */
  lemma MessageRoundTrip<T>(m: Message<T>, resource: Descriptor, f: T -> Option<T>, g: T -> Option<T>)
    ensures var (ok, out) := Full(m, resource, f);
      ok && Full(out, resource, g) == (true, m)
      <==> forall t :: t in Outermost(m, resource) ==> Undoes(t, f, g)
  {
    var (ok, out) := Full(m, resource, f);
    var (again, back) := Full(out, resource, g);
    FullConverts(m, resource, f);
    FullConverts(out, resource, g);
    ShapesCompose(m, out, back, resource);
    SameMessage(m, back, resource);
    ListRoundTrip(Outermost(m, resource), f, g);
  }

  // ----- the traversal with marks

  /** Marks that miss none of these types. */
  ghost predicate Complete(s: Schema, resource: Descriptor, marks: Marks, of: set<Descriptor>) {
    forall d :: d in marks && (d in of || d == resource) && !marks[d] ==> !Reaches(s, d, resource)
  }

  /** A message whose type cannot hold a resource has none. */
  lemma {:induction false} NoResource<T>(s: Schema, m: Message<T>, resource: Descriptor, f: T -> Option<T>)
    requires WellTyped(s, m) && !Reaches(s, m.descriptor, resource)
    ensures Full(m, resource, f) == (true, m)
    decreases m
  {
    AroundSelf(s, m.descriptor, {});
    forall c | c in m.children ensures WellTyped(s, c) && !Reaches(s, c.descriptor, resource) {
      if Reaches(s, c.descriptor, resource) {
        StepAround(s, m.descriptor, c.descriptor, resource, {});
      }
    }
    NoResources(s, m.children, resource, f);
  }

  lemma {:induction false} NoResources<T>(s: Schema, ms: seq<Message<T>>, resource: Descriptor, f: T -> Option<T>)
    requires forall c :: c in ms ==> WellTyped(s, c) && !Reaches(s, c.descriptor, resource)
    ensures FullAll(ms, resource, f) == (true, ms)
    decreases ms
  {
    if ms != [] {
      NoResource(s, ms[0], resource, f);
      NoResources(s, ms[1..], resource, f);
      assert ms == [ms[0]] + ms[1..];
    }
  }

  /** Marks cover everything a message of a marked type can hold. */
  ghost predicate Covering(s: Schema, marks: Marks) {
    forall d, c :: d in marks && Edge(s, d, c) ==> c in marks
  }

  predicate Skips(marks: Marks, d: Descriptor) {
    d in marks && !marks[d]
  }

  /** The traversal that does not enter fields whose type is marked as holding no resource. */
  function Pruned<T>(m: Message<T>, resource: Descriptor, f: T -> Option<T>, marks: Marks): (bool, Message<T>)
    decreases m, 0
  {
    if m.descriptor == resource then
      match f(m.body)
      case None => (false, m)
      case Some(b) => (true, m.(body := b))
    else
      var (ok, cs) := PrunedAll(m.children, resource, f, marks);
      (ok, m.(children := cs))
  }

  function PrunedField<T>(m: Message<T>, resource: Descriptor, f: T -> Option<T>, marks: Marks): (bool, Message<T>)
    decreases m, 1
  {
    if Skips(marks, m.descriptor) then (true, m) else Pruned(m, resource, f, marks)
  }

  function PrunedAll<T>(ms: seq<Message<T>>, resource: Descriptor, f: T -> Option<T>, marks: Marks): (bool, seq<Message<T>>)
    decreases ms, 0
  {
    if ms == [] then (true, [])
    else
      var (ok, c) := PrunedField(ms[0], resource, f, marks);
      if !ok then (false, [c] + ms[1..])
      else
        var (all, cs) := PrunedAll(ms[1..], resource, f, marks);
        (all, [c] + cs)
  }

  /** With marks that miss no type outside resources, skipping changes nothing. */
  lemma {:induction false} PrunedIsFull<T>(s: Schema, m: Message<T>, resource: Descriptor, f: T -> Option<T>, marks: Marks, of: set<Descriptor>)
    requires WellTyped(s, m) && Complete(s, resource, marks, of) && Open(s, resource, of)
    requires m.descriptor in of || m.descriptor == resource
    ensures Pruned(m, resource, f, marks) == Full(m, resource, f)
    decreases m
  {
    hide Complete;
    if m.descriptor != resource {
      forall c | c in m.children ensures WellTyped(s, c) && (c.descriptor in of || c.descriptor == resource) {}
      PrunedAllIsFull(s, m.children, resource, f, marks, of);
    }
  }

  lemma {:induction false} PrunedAllIsFull<T>(s: Schema, ms: seq<Message<T>>, resource: Descriptor, f: T -> Option<T>, marks: Marks, of: set<Descriptor>)
    requires forall c :: c in ms ==> WellTyped(s, c) && (c.descriptor in of || c.descriptor == resource)
    requires Complete(s, resource, marks, of) && Open(s, resource, of)
    ensures PrunedAll(ms, resource, f, marks) == FullAll(ms, resource, f)
    decreases ms
  {
    hide Open, WellTyped;
    if ms != [] {
      PrunedAllIsFull(s, ms[1..], resource, f, marks, of);
      if Skips(marks, ms[0].descriptor) {
        NoResource(s, ms[0], resource, f);
      } else {
        PrunedIsFull(s, ms[0], resource, f, marks, of);
      }
    }
  }

  /** The children before `i` are converted, the others are as they were. */
  ghost predicate Partway<T>(ms: seq<Message<T>>, cs: seq<Message<T>>, i: nat, resource: Descriptor, f: T -> Option<T>, marks: Marks) {
    && |cs| == |ms| && i <= |ms| && cs[i..] == ms[i..]
    && var (all, rest) := PrunedAll(ms[i..], resource, f, marks);
       PrunedAll(ms, resource, f, marks) == (all, cs[..i] + rest)
  }

  lemma PartwayBegin<T>(ms: seq<Message<T>>, resource: Descriptor, f: T -> Option<T>, marks: Marks)
    ensures Partway(ms, ms, 0, resource, f, marks)
  {
    assert ms[0..] == ms;
    var (all, rest) := PrunedAll(ms, resource, f, marks);
    assert ms[..0] + rest == rest;
  }

  lemma PrunedAllStep<T>(ms: seq<Message<T>>, i: nat, resource: Descriptor, f: T -> Option<T>, marks: Marks)
    requires i < |ms|
    ensures var (ok, c) := PrunedField(ms[i], resource, f, marks);
      var (all, rest) := PrunedAll(ms[i + 1..], resource, f, marks);
      PrunedAll(ms[i..], resource, f, marks) == if ok then (all, [c] + rest) else (false, [c] + ms[i + 1..])
  {
    assert ms[i..][0] == ms[i] && ms[i..][1..] == ms[i + 1..];
  }

  lemma PartwayNext<T>(ms: seq<Message<T>>, cs: seq<Message<T>>, i: nat, resource: Descriptor, f: T -> Option<T>, marks: Marks)
    requires Partway(ms, cs, i, resource, f, marks) && i < |ms|
    ensures var (ok, c) := PrunedField(ms[i], resource, f, marks);
      if ok then Partway(ms, cs[i := c], i + 1, resource, f, marks) else PrunedAll(ms, resource, f, marks) == (false, cs[i := c])
  {
    hide PrunedField, PrunedAll;
    PrunedAllStep(ms, i, resource, f, marks);
    var (ok, c) := PrunedField(ms[i], resource, f, marks);
    var rest := if ok then PrunedAll(ms[i + 1..], resource, f, marks).1 else ms[i + 1..];
    var ds := cs[i := c];
    assert ds[..i + 1] == cs[..i] + [c];
    assert ds[i + 1..] == cs[i..][1..] == ms[i..][1..] == ms[i + 1..];
    assert cs[..i] + ([c] + rest) == ds[..i + 1] + rest;
    assert ds == ds[..i + 1] + ds[i + 1..];
  }

  lemma PartwayEnd<T>(ms: seq<Message<T>>, cs: seq<Message<T>>, resource: Descriptor, f: T -> Option<T>, marks: Marks)
    requires Partway(ms, cs, |ms|, resource, f, marks)
    ensures PrunedAll(ms, resource, f, marks) == (true, cs)
  {
    assert ms[|ms|..] == [] && cs[..|ms|] + [] == cs;
  }

  /** Skips the fields whose type is marked as holding no resource; agrees with the full traversal. */
  method ConvertMarked<T>(m: Message<T>, resource: Descriptor, f: T -> Option<T>, marks: Marks, ghost s: Schema)
    returns (ok: bool, out: Message<T>)
    requires Closed(s) && WellTyped(s, m) && m.descriptor in marks && Covering(s, marks)
    ensures (ok, out) == Pruned(m, resource, f, marks)
    ensures Complete(s, resource, marks, Entered(s, resource, m.descriptor)) ==> (ok, out) == Full(m, resource, f)
    decreases m
  {
    hide Partway, PrunedAll, FullAll, Complete, Entered, Open;
    if Complete(s, resource, marks, Entered(s, resource, m.descriptor)) {
      EnteredOpen(s, resource, m.descriptor);
      PrunedIsFull(s, m, resource, f, marks, Entered(s, resource, m.descriptor));
    }
    if m.descriptor == resource {
      match f(m.body)
      case None => return false, m;
      case Some(b) => return true, m.(body := b);
    }
    var cs := m.children;
    PartwayBegin(cs, resource, f, marks);
    for i := 0 to |m.children|
      invariant |cs| == |m.children| && cs[i..] == m.children[i..]
      invariant Partway(m.children, cs, i, resource, f, marks)
    {
      var c := m.children[i];
      assert c in m.children && cs[i] == cs[i..][0] == c;
      PartwayNext(m.children, cs, i, resource, f, marks);
      if !marks[c.descriptor] {
        assert cs[i := c] == cs;
        continue;
      }
      var good, changed := ConvertMarked(c, resource, f, marks, s);
      cs := cs[i := changed];
      if !good {
        return false, m.(children := cs);
      }
    }
    PartwayEnd(m.children, cs, resource, f, marks);
    return true, m.(children := cs);
  }

  /** A type that cannot hold a resource has unmarked fields only, so nothing is entered. */
  lemma {:induction false} NothingEntered<T>(s: Schema, m: Message<T>, resource: Descriptor, f: T -> Option<T>, marks: Marks)
    requires WellTyped(s, m) && !Reaches(s, m.descriptor, resource) && m.descriptor in marks && Covering(s, marks)
    requires Sound(s, resource, marks)
    ensures Pruned(m, resource, f, marks) == (true, m)
  {
    AroundSelf(s, m.descriptor, {});
    forall c | c in m.children ensures Skips(marks, c.descriptor) {
      if Reaches(s, c.descriptor, resource) {
        StepAround(s, m.descriptor, c.descriptor, resource, {});
      }
    }
    AllSkipped(m.children, resource, f, marks);
  }

  lemma {:induction false} AllSkipped<T>(ms: seq<Message<T>>, resource: Descriptor, f: T -> Option<T>, marks: Marks)
    requires forall c :: c in ms ==> Skips(marks, c.descriptor)
    ensures PrunedAll(ms, resource, f, marks) == (true, ms)
  {
    if ms != [] {
      AllSkipped(ms[1..], resource, f, marks);
      assert ms == [ms[0]] + ms[1..];
    }
  }

  /** With the right marks outside resources, converting with the marks is converting everything. */
  lemma RightIsFull<T>(s: Schema, m: Message<T>, resource: Descriptor, f: T -> Option<T>)
    requires Closed(s) && WellTyped(s, m) && RightFor(s, resource, m.descriptor, Entered(s, resource, m.descriptor))
    ensures Pruned(m, resource, f, Marked(s, resource, map[], m.descriptor)) == Full(m, resource, f)
  {
    hide Open, Entered, Reaches, Full, Pruned;
    EnteredOpen(s, resource, m.descriptor);
    MarkedDone(s, resource, map[], m.descriptor);
    PrunedIsFull(s, m, resource, f, Marked(s, resource, map[], m.descriptor), Entered(s, resource, m.descriptor));
  }

  /** Marks the types first, and leaves a message alone whose type is not marked. */
  method ConvertMessage<T>(m: Message<T>, resource: Descriptor, f: T -> Option<T>, s: Schema)
    returns (ok: bool, out: Message<T>)
    requires Closed(s) && WellTyped(s, m)
    ensures (ok, out) == Pruned(m, resource, f, Marked(s, resource, map[], m.descriptor))
    ensures Escapes(s, resource, m.descriptor, Entered(s, resource, m.descriptor)) ==> (ok, out) == Full(m, resource, f)
  {
    hide Escapes, Entered, Complete, Open, RightFor;
    var marks := PrecomputeContainment(s, resource, m.descriptor);
    forall d, c | d in marks && Edge(s, d, c) ensures c in marks { AroundThen(s, m.descriptor, d, c, {}); }
    if Escapes(s, resource, m.descriptor, Entered(s, resource, m.descriptor)) {
      EnteredOpen(s, resource, m.descriptor);
      EscapesRight(s, resource, m.descriptor, Entered(s, resource, m.descriptor));
      RightIsFull(s, m, resource, f);
    }
    if !marks[m.descriptor] {
      NoResource(s, m, resource, f);
      NothingEntered(s, m, resource, f, marks);
      return true, m;
    }
    ok, out := ConvertMarked(m, resource, f, marks, s);
  }

  // ----- the exact condition

  /** For every message of a type and every order of the fields, everything is converted. */
  ghost predicate ConvertsAll<T(!new)>(s: Schema, resource: Descriptor, f: T -> Option<T>, root: Descriptor) {
    && Closed(s) && root in s
    && forall m: Message<T> :: WellTyped(s, m) && m.descriptor == root
         ==> Pruned(m, resource, f, Marked(s, resource, map[], root)) == Full(m, resource, f)
  }

  /** A message with one child that is changed by the full traversal is changed by it, too. */
  lemma AroundChild<T>(s: Schema, d: Descriptor, body: T, c: Message<T>, resource: Descriptor, f: T -> Option<T>) returns (m: Message<T>)
    requires WellTyped(s, c) && Edge(s, d, c.descriptor) && d != resource
    requires Full(c, resource, f).0 && Full(c, resource, f).1 != c
    ensures m == Message(d, body, [c]) && WellTyped(s, m) && Full(m, resource, f).0 && Full(m, resource, f).1 != m
  {
    m := Message(d, body, [c]);
    assert FullAll([c], resource, f) == (true, [Full(c, resource, f).1]) by {
      assert FullAll([c][1..], resource, f) == (true, []);
      assert [Full(c, resource, f).1] + [] == [Full(c, resource, f).1];
    }
    assert [Full(c, resource, f).1][0] != [c][0];
  }

  /** A type that can hold a resource has a message that the full traversal changes. */
  lemma {:induction false} ChangedMessage<T>(s: Schema, d: Descriptor, resource: Descriptor, b: T, f: T -> Option<T>, steps: nat) returns (m: Message<T>)
    requires f(b).Some? && f(b).value != b && d in s && Closed(s) && AroundIn(s, d, resource, {}, steps)
    ensures m.descriptor == d && WellTyped(s, m) && Full(m, resource, f).0 && Full(m, resource, f).1 != m
    decreases steps
  {
    if d == resource {
      m := Message(d, b, []);
    } else {
      var c :| Edge(s, d, c) && AroundIn(s, c, resource, {}, steps - 1);
      var j := FieldOf(s, d, c);
      var n := ChangedMessage(s, c, resource, b, f, steps - 1);
      m := AroundChild(s, d, b, n, resource, f);
    }
  }

  /** Below a message of another type, what is skipped stays skipped. */
  lemma {:induction false} SkippedBelow<T>(s: Schema, d: Descriptor, n: Message<T>, resource: Descriptor, f: T -> Option<T>, marks: Marks, steps: nat)
    returns (m: Message<T>)
    requires d in s && d != resource && AroundIn(s, d, n.descriptor, {resource}, steps)
    requires WellTyped(s, n) && Skips(marks, n.descriptor) && Full(n, resource, f).0 && Full(n, resource, f).1 != n
    ensures m.descriptor == d && WellTyped(s, m) && Full(m, resource, f).0 && Full(m, resource, f).1 != m
    ensures PrunedField(m, resource, f, marks) == (true, m)
    ensures d != n.descriptor ==> Pruned(m, resource, f, marks) == (true, m)
    decreases steps
  {
    if d == n.descriptor {
      m := n;
    } else {
      var c :| Edge(s, d, c) && c !in {resource} && AroundIn(s, c, n.descriptor, {resource}, steps - 1);
      assert c in s;
      var child := SkippedBelow(s, c, n, resource, f, marks, steps - 1);
      m := AroundChild(s, d, n.body, child, resource, f);
      assert PrunedAll([child], resource, f, marks) == (true, [child]) by {
        assert PrunedAll([child][1..], resource, f, marks) == (true, []);
        assert [child] + [] == [child];
      }
    }
  }

  lemma MissedMessage<T>(s: Schema, resource: Descriptor, f: T -> Option<T>, b: T, root: Descriptor, x: Descriptor) returns (m: Message<T>)
    requires Closed(s) && root in s && f(b).Some? && f(b).value != b
    requires x in Entered(s, resource, root) && Reaches(s, x, resource)
    requires var marks := Marked(s, resource, map[], root); x in marks && !marks[x]
    ensures m.descriptor == root && WellTyped(s, m)
    ensures Pruned(m, resource, f, Marked(s, resource, map[], root)) != Full(m, resource, f)
  {
    hide Marked, Full, Pruned, WellTyped;
    var marks := Marked(s, resource, map[], root);
    MarkedDone(s, resource, map[], root);
    AllVisited(s, resource, marks, root);
    assert x != root;
    var more: nat :| AroundIn(s, x, resource, {}, more);
    var n := ChangedMessage(s, x, resource, b, f, more);
    var steps: nat :| AroundIn(s, root, x, {resource}, steps);
    m := SkippedBelow(s, root, n, resource, f, marks, steps);
  }

  /** Every resource of every message of a type is converted, whatever the order of fields, exactly when there are ways around. */
  lemma ConvertsAllIff<T(!new)>(s: Schema, resource: Descriptor, f: T -> Option<T>, b: T, root: Descriptor)
    requires Closed(s) && root in s && f(b).Some? && f(b).value != b
    ensures (forall t :: Reordered(s, t) ==> ConvertsAll(t, resource, f, root))
       <==> Escapes(s, resource, root, Entered(s, resource, root))
  {
    hide Entered, Escapes, Open, ConvertsAll, RightFor;
    var of := Entered(s, resource, root);
    EnteredOpen(s, resource, root);
    RightForAllOrdersIff(s, resource, root, of);
    forall t | Reordered(s, t) ensures RightFor(t, resource, root, of) <==> ConvertsAll(t, resource, f, root) {
      ReorderedEdges(s, t);
      ReorderedEntered(s, t, resource, root);
      ConvertsAllInOrder(t, resource, f, b, root);
    }
  }

  lemma ReorderedEntered(s: Schema, t: Schema, resource: Descriptor, root: Descriptor)
    requires Reordered(s, t)
    ensures Entered(s, resource, root) == Entered(t, resource, root)
  {
    hide Around;
    forall x: Descriptor ensures x in Entered(s, resource, root) <==> x in Entered(t, resource, root) {
      ReorderedAround(s, t, root, x, {resource});
    }
  }

  /** For one order, converting everything is having the right marks outside resources. */
  lemma ConvertsAllInOrder<T(!new)>(s: Schema, resource: Descriptor, f: T -> Option<T>, b: T, root: Descriptor)
    requires Closed(s) && root in s && f(b).Some? && f(b).value != b
    ensures ConvertsAll(s, resource, f, root) <==> RightFor(s, resource, root, Entered(s, resource, root))
  {
    hide Entered, Reaches, WellTyped, Full, Pruned;
    var of, marks := Entered(s, resource, root), Marked(s, resource, map[], root);
    MarkedDone(s, resource, map[], root);
    if RightFor(s, resource, root, of) {
      forall m: Message<T> | WellTyped(s, m) && m.descriptor == root ensures Pruned(m, resource, f, marks) == Full(m, resource, f) {
        RightIsFull(s, m, resource, f);
      }
    } else {
      var x :| x in marks && x in of && !(marks[x] <==> Reaches(s, x, resource));
      var m := MissedMessage(s, resource, f, b, root, x);
    }
  }

  /** A longer cycle: a resource below the type that was marked too early is not converted. */
  lemma CycleIsSkipped<T>(body: T, b: T, f: T -> Option<T>)
    requires f(b).Some? && f(b).value != b
    ensures var s := CyclicSchema();
      var m := Message(0, body, [Message(1, body, [Message(0, body, [Message(2, b, [])])])]);
      && Closed(s) && WellTyped(s, m)
      && Pruned(m, 2, f, Marked(s, 2, map[], 0)) == (true, m) && Full(m, 2, f) != (true, m)
  {
    var s := CyclicSchema();
    CycleIsMissed();
    var marks := Marked(s, 2, map[], 0);
    var r := Message(2, b, []);
    var inner := Message(0, body, [r]);
    var middle := Message(1, body, [inner]);
    var m := Message(0, body, [middle]);
    assert Edge(s, 0, 2) && Edge(s, 1, 0) && Edge(s, 0, 1);
    assert WellTyped(s, r) && WellTyped(s, inner) && WellTyped(s, middle);
    hide WellTyped, Marked, Full, Outermost, CyclicSchema;
    AllSkipped([middle], 2, f, marks);
    FullConverts(m, 2, f);
    OnlyChild(inner, r, 2);
    OnlyChild(middle, inner, 2);
    OnlyChild(m, middle, 2);
    OutermostOf(r);
    assert ConvertList([b], f)[0] == f(b).value;
  }

  lemma OutermostOf<T>(r: Message<T>)
    ensures Outermost(r, r.descriptor) == [r.body]
  {
  }

  lemma OnlyChild<T>(m: Message<T>, c: Message<T>, resource: Descriptor)
    requires m.children == [c] && m.descriptor != resource
    ensures Outermost(m, resource) == Outermost(c, resource)
  {
    assert [c][1..] == [];
    assert OutermostAll([c], resource) == Outermost(c, resource) + OutermostAll([], resource);
  }

  // ----- upgrading and downgrading

  /** The first `k` resources are converted, the others are as they were. */
  ghost predicate ListPartway<T>(ts: seq<T>, out: seq<T>, k: nat, f: T -> Option<T>) {
    && |out| == |ts| && k <= |ts| && out[k..] == ts[k..]
    && ConvertList(ts, f) == out[..k] + ConvertList(ts[k..], f)
  }

  lemma ListNext<T>(ts: seq<T>, out: seq<T>, k: nat, f: T -> Option<T>)
    requires ListPartway(ts, out, k, f) && k < |ts|
    ensures out[k] == ts[k]
    ensures if f(ts[k]).Some? then ListPartway(ts, out[k := f(ts[k]).value], k + 1, f) else ConvertList(ts, f) == out
  {
    assert ts[k..][0] == ts[k] == out[k..][0] && ts[k..][1..] == ts[k + 1..];
    var rest := ConvertList(ts[k + 1..], f);
    assert ConvertList(ts[k..], f) == if f(ts[k]).Some? then [f(ts[k]).value] + rest else ts[k..];
    hide ConvertList;
    if f(ts[k]).Some? {
      var next := out[k := f(ts[k]).value];
      assert next[..k + 1] == out[..k] + [f(ts[k]).value] && next[k + 1..] == out[k..][1..];
      assert out[..k] + ([f(ts[k]).value] + rest) == next[..k + 1] + rest;
    } else {
      assert out == out[..k] + out[k..];
    }
  }

  /** Downgrading stops at the first refined resource; the ones before it have been converted. */
  method DowngradeResources(ws: seq<Formats.Wire>) returns (ok: bool, out: seq<Formats.Wire>)
    requires forall i :: 0 <= i < |ws| ==> Formats.IsPost(ws[i])
    ensures out == ConvertList(ws, Formats.Downgraded)
    ensures ok <==> forall i :: 0 <= i < |ws| ==> !Formats.IsRefined(ws[i])
  {
    hide ConvertList;
    out := ws;
    assert ws[0..] == ws && ws[..0] + ConvertList(ws, Formats.Downgraded) == ConvertList(ws, Formats.Downgraded);
    for k := 0 to |ws|
      invariant ListPartway(ws, out, k, Formats.Downgraded)
      invariant forall i :: 0 <= i < k ==> !Formats.IsRefined(ws[i])
    {
      Formats.UpgradeUndoesDowngrade(ws[k]);
      ListNext(ws, out, k, Formats.Downgraded);
      var r := Formats.Downgraded(out[k]);
      if r.None? {
        return false, out;
      }
      out := out[k := r.value];
    }
    ListEnd(ws, out, Formats.Downgraded);
    return true, out;
  }

  lemma ListEnd<T>(ts: seq<T>, out: seq<T>, f: T -> Option<T>)
    requires ListPartway(ts, out, |ts|, f)
    ensures ConvertList(ts, f) == out
  {
    assert ts[|ts|..] == [] && out[..|ts|] + [] == out;
  }

  /**
  A message of upgraded resources survives downgrading and upgrading exactly when each of its
  resources can be expressed in the older format, and the endpoint format always.
  */
  lemma MessageFormats(m: Message<Formats.Wire>, resource: Descriptor)
    requires forall w :: w in Outermost(m, resource) ==> Formats.IsPost(w)
    ensures var (ok, out) := Full(m, resource, Formats.Downgraded);
      ok && Full(out, resource, Formats.Upgraded) == (true, m)
      <==> forall w :: w in Outermost(m, resource) ==> Formats.Expressible(w)
    ensures var (ok, out) := Full(m, resource, (w: Formats.Wire) => Formats.Converted(w, Formats.Endpoint));
      ok && Full(out, resource, Formats.Upgraded) == (true, m)
  {
    var endpoint := (w: Formats.Wire) => Formats.Converted(w, Formats.Endpoint);
    MessageRoundTrip(m, resource, Formats.Downgraded, Formats.Upgraded);
    MessageRoundTrip(m, resource, endpoint, Formats.Upgraded);
    forall w | w in Outermost(m, resource)
      ensures (Undoes(w, Formats.Downgraded, Formats.Upgraded) <==> Formats.Expressible(w)) && Undoes(w, endpoint, Formats.Upgraded)
    {
      Formats.UpgradeUndoesDowngrade(w);
      Formats.UpgradeUndoesEndpoint(w);
    }
  }
}
