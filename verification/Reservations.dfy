/**
Stacks of reservations: each refines the one below it to a role further down the hierarchy.
*/
module Reservations {
  import opened ResourceModel
  import opened ResourceLaws
  import opened Conversions
  import Roles

  /** What `validate` demands of a stack of reservations. */
  ghost predicate Refined(rs: seq<Reservation>) {
    && (forall i :: 0 <= i < |rs| ==> Roles.Valid(rs[i].role) && rs[i].role != "*")
    && (forall i :: 0 < i < |rs| ==>
          rs[i].kind.Dynamic? && Roles.IsStrictSubroleOf(rs[i].role, rs[i - 1].role))
  }

  predicate IsAllocatableTo(rs: seq<Reservation>, role: string) {
    rs == [] || role == rs[|rs| - 1].role || Roles.IsStrictSubroleOf(role, rs[|rs| - 1].role)
  }

  /** A reserved resource goes to the role of its last reservation and to the roles whose path begins with it. */
  lemma AllocatableIff(rs: seq<Reservation>, role: string)
    requires rs != []
    ensures IsAllocatableTo(rs, role) <==>
      var own := rs[|rs| - 1].role; own <= role && (|own| < |role| ==> role[|own|] == '/')
  {
    var own := rs[|rs| - 1].role;
    assert |own| <= |role| && role[..|own|] == own <==> own <= role;
    assert |own| == |role| && own <= role ==> role == own;
  }

  /** Every role on the stack is above every later one. */
  lemma {:induction false} StackIsChain(rs: seq<Reservation>, i: nat, j: nat)
    requires Refined(rs) && i < j < |rs|
    ensures Roles.IsStrictSubroleOf(rs[j].role, rs[i].role)
    decreases j - i
  {
    hide Roles.Valid, Roles.IsStrictSubroleOf;
    assert Roles.IsStrictSubroleOf(rs[j].role, rs[j - 1].role);
    if i + 1 < j {
      StackIsChain(rs, i, j - 1);
      Roles.SubroleTransitive(rs[j].role, rs[j - 1].role, rs[i].role);
    }
  }

  /** Popping reservations, one or many, never takes a resource away from a role that could have it. */
  lemma PopKeepsAllocatable(rs: seq<Reservation>, n: nat, role: string)
    requires Refined(rs) && n <= |rs| && IsAllocatableTo(rs, role)
    ensures IsAllocatableTo(rs[..n], role) && Refined(rs[..n])
  {
    hide Roles.Valid, Roles.IsStrictSubroleOf;
    if 0 < n < |rs| {
      StackIsChain(rs, n - 1, |rs| - 1);
      if role != rs[|rs| - 1].role {
        Roles.SubroleTransitive(role, rs[|rs| - 1].role, rs[n - 1].role);
      }
    }
  }

  /** Where it removes none, a refinement is allocatable to fewer roles: those below the new reservation. */
  lemma PushNarrows(rs: seq<Reservation>, reservation: Reservation, role: string)
    requires Refined(rs + [reservation])
    ensures IsAllocatableTo(rs + [reservation], role) ==> IsAllocatableTo(rs, role)
    ensures rs != [] ==> !IsAllocatableTo(rs + [reservation], rs[|rs| - 1].role)
  {
    var longer := rs + [reservation];
    if IsAllocatableTo(longer, role) {
      PopKeepsAllocatable(longer, |rs|, role);
      assert longer[..|rs|] == rs;
    }
    if rs != [] {
      assert Roles.IsStrictSubroleOf(longer[|rs|].role, longer[|rs| - 1].role);
    }
  }

  // ----- restacking whole collections

  function RestackedAll(es: seq<Entry>, op: StackOp): (fs: seq<Entry>)
    ensures |fs| == |es| && forall i :: 0 <= i < |es| ==> fs[i] == Restacked(es[i], op)
  {
    seq(|es|, i requires 0 <= i < |es| => Restacked(es[i], op))
  }

  ghost predicate Separate(es: seq<Entry>) {
    && (forall i :: 0 <= i < |es| ==> !IsEmpty(es[i]))
    && (forall i, j :: 0 <= i < j < |es| ==> !Addable(es[i].r, es[j].r))
  }

  /** When no two entries become equal in class, restacking changes each entry and merges none. */
  lemma {:induction false} RestackIsPointwise(es: seq<Entry>, op: StackOp)
    requires Separate(RestackedAll(es, op))
    ensures Restack(es, op) == RestackedAll(es, op)
  {
    hide Restacked, Addable, IsEmpty;
    if es != [] {
      var n := |es| - 1;
      var front, all := es[..n], RestackedAll(es, op);
      assert RestackedAll(front, op) == all[..n];
      RestackIsPointwise(front, op);
      AddToEnd(all[..n], all[n]);
      assert all == all[..n] + [all[n]];
    }
  }

  /** Pushing a reservation and popping it again gives back the very same entries. */
  lemma PushThenPop(es: seq<Entry>, reservation: Reservation)
    requires Combined(es)
    ensures Restack(Restack(es, Push(reservation)), Pop) == es
  {
    hide Addable;
    var push := Push(reservation);
    var pushed := RestackedAll(es, push);
    forall i, j | 0 <= i < j < |es| ensures !Addable(pushed[i].r, pushed[j].r) {
      PushSeparates(es[i], es[j], reservation);
    }
    RestackIsPointwise(es, push);
    forall i | 0 <= i < |es| ensures RestackedAll(pushed, Pop)[i] == es[i] {
      var rs := es[i].r.meta.reservations;
      assert (rs + [reservation])[..|rs|] == rs;
    }
    assert RestackedAll(pushed, Pop) == es;
    RestackIsPointwise(pushed, Pop);
  }

  lemma PushSeparates(e: Entry, f: Entry, reservation: Reservation)
    requires !Addable(e.r, f.r)
    ensures !Addable(Restacked(e, Push(reservation)).r, Restacked(f, Push(reservation)).r)
  {
    var rs, qs := e.r.meta.reservations, f.r.meta.reservations;
    if rs + [reservation] == qs + [reservation] {
      SameStackBelow(rs, qs, reservation);
      assert Restacked(e, Push(reservation)).r == Restacked(f, Push(reservation)).r ==> e.r == f.r;
    }
  }

  lemma SameStackBelow(rs: seq<Reservation>, qs: seq<Reservation>, r: Reservation)
    requires rs + [r] == qs + [r]
    ensures rs == qs
  {
    assert rs == (rs + [r])[..|rs|];
    assert qs == (qs + [r])[..|qs|];
  }

  // ----- the reservation ancestor

  predicate IsPrefix(ps: seq<Reservation>, rs: seq<Reservation>) {
    |ps| <= |rs| && rs[..|ps|] == ps
  }

  /** The most refined stack that both can be popped to. */
  method GetReservationAncestor(a: seq<Reservation>, b: seq<Reservation>) returns (ancestor: seq<Reservation>)
    ensures IsPrefix(ancestor, a) && IsPrefix(ancestor, b)
    ensures forall ps :: IsPrefix(ps, a) && IsPrefix(ps, b) ==> IsPrefix(ps, ancestor)
    ensures Refined(a) ==> Refined(ancestor)
  {
    var size := if |a| < |b| then |a| else |b|;
    ancestor := [];
    var i := 0;
    while i < size && a[i] == b[i]
      invariant i <= size && ancestor == a[..i] == b[..i]
    {
      ancestor := ancestor + [a[i]];
      i := i + 1;
    }
    forall ps | IsPrefix(ps, a) && IsPrefix(ps, b) ensures IsPrefix(ps, ancestor) {
      assert |ps| <= i;
      assert a[..i][..|ps|] == a[..|ps|];
    }
  }
}
