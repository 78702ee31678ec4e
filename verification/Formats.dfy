/**
The three formats in which the reservations of a resource travel: a role and at most one
reservation (before refinement), a stack of reservations (after refinement), and both at once for
endpoints.
*/
module Formats {
  import opened Options

  datatype ReservationType = Unknown | Static | Dynamic

  /** Fields that are not set are absent. */
  datatype ReservationInfo = ReservationInfo(
    kind: Option<ReservationType>,
    role: Option<string>,
    principal: Option<string>,
    labels: Option<string>)

  /** The fields of a resource that the formats differ in. */
  datatype Wire = Wire(role: Option<string>, reservation: Option<ReservationInfo>, reservations: seq<ReservationInfo>)

  datatype Format = PreRefinement | PostRefinement | Endpoint

  // ----- what the formats look like

  predicate IsPost(w: Wire) {
    w.role.None? && w.reservation.None?
  }

  predicate IsPre(w: Wire) {
    w.reservations == []
  }

  predicate IsRefined(w: Wire) {
    |w.reservations| > 1
  }

  // ----- conversion in place

  class ResourceMessage {
    var role: Option<string>
    var reservation: Option<ReservationInfo>
    var reservations: seq<ReservationInfo>

    constructor (w: Wire)
      ensures Fields() == w
    {
      role, reservation, reservations := w.role, w.reservation, w.reservations;
    }

    function Fields(): Wire
      reads this
    {
      Wire(role, reservation, reservations)
    }

    /** `done` is false where an assertion of the conversion fails. */
    method Convert(format: Format) returns (done: bool)
      modifies this
      ensures done <==> Converted(old(Fields()), format).Some?
      ensures done ==> Converted(old(Fields()), format) == Some(Fields())
    {
      if format != PostRefinement {
        if role.Some? || reservation.Some? {
          return false;
        }
        if |reservations| == 0 {
          role := Some("*");
        } else if |reservations| == 1 {
          var source := reservations[0];
          if source.kind == Some(Dynamic) {
            reservation := Some(ReservationInfo(None, None, None, None));
            if source.principal.Some? {
              reservation := Some(reservation.value.(principal := source.principal));
            }
            if source.labels.Some? {
              reservation := Some(reservation.value.(labels := source.labels));
            }
          }
          role := Some(RoleOf(source));
          if format == PreRefinement {
            reservations := [];
          }
        } else if format == PreRefinement {
          return false;
        }
        return true;
      } else {
        if |reservations| > 0 {
          role := None;
          reservation := None;
          return true;
        }
        if role == None || role == Some("*") {
          if reservation.Some? {
            return false;
          }
          role := None;
          return true;
        }
        var added := ReservationInfo(None, None, None, None);
        if reservation.None? {
          added := added.(kind := Some(Static));
        } else {
          added := reservation.value;
          reservation := None;
          added := added.(kind := Some(Dynamic));
        }
        reservations := reservations + [added.(role := role)];
        assert reservations == [added.(role := role)];
        role := None;
        return true;
      }
    }
  }

  /** A role that is not set reads as empty. */
  function RoleOf(info: ReservationInfo): string {
    if info.role.Some? then info.role.value else ""
  }

  /** What the conversion makes of a resource, or none where one of its assertions fails. */
  function Converted(w: Wire, format: Format): Option<Wire> {
    match format
    case PostRefinement => Upgraded(w)
    case PreRefinement => if IsPost(w) && |w.reservations| <= 1 then Some(Flat(w).(reservations := [])) else None
    case Endpoint => if IsPost(w) then Some(Flat(w)) else None
  }

  /** The role and reservation that stand for an unrefined stack. */
  function Flat(w: Wire): Wire {
    if w.reservations == [] then w.(role := Some("*"))
    else if |w.reservations| > 1 then w
    else
      var info := w.reservations[0];
      w.(role := Some(RoleOf(info)),
         reservation := if info.kind == Some(Dynamic) then Some(info.(kind := None, role := None)) else None)
  }

  function Upgraded(w: Wire): Option<Wire> {
    if w.reservations != [] then Some(Wire(None, None, w.reservations))
    else if w.role.None? || w.role.value == "*" then (if w.reservation.None? then Some(Wire(None, None, [])) else None)
    else if w.reservation.None? then Some(Wire(None, None, [ReservationInfo(Some(Static), w.role, None, None)]))
    else Some(Wire(None, None, [w.reservation.value.(kind := Some(Dynamic), role := w.role)]))
  }

  /** An error for refined reservations, and otherwise the format before refinement. */
  function Downgraded(w: Wire): Option<Wire> {
    if IsRefined(w) then None else Converted(w, PreRefinement)
  }

  // ----- round trips

  /** Upgrading gives the format after refinement, and changes nothing in it. */
  lemma UpgradeIsPost(w: Wire)
    ensures Upgraded(w).Some? ==> IsPost(Upgraded(w).value) && Upgraded(Upgraded(w).value) == Upgraded(w)
    ensures IsPost(w) ==> Upgraded(w) == Some(w)
  {
  }

  /** Upgrading undoes the conversion for endpoints, for every resource. */
  lemma UpgradeUndoesEndpoint(w: Wire)
    requires IsPost(w)
    ensures Converted(w, Endpoint).Some? && Upgraded(Converted(w, Endpoint).value) == Some(w)
  {
    var e := Converted(w, Endpoint).value;
    assert w.reservations != [] ==> e.reservations == w.reservations;
  }

  /** Which role and reservation go with the stack at an endpoint: "*" when unreserved, none when refined. */
  lemma EndpointShows(w: Wire)
    requires IsPost(w)
    ensures var e := Converted(w, Endpoint).value;
      && e.reservations == w.reservations
      && (|w.reservations| == 0 ==> e.role == Some("*") && e.reservation == None)
      && (|w.reservations| > 1 ==> e.role == None && e.reservation == None)
      && (|w.reservations| == 1 ==>
            var info := w.reservations[0];
            && (info.role.Some? ==> e.role == info.role) && (info.role.None? ==> e.role == Some(""))
            && (e.reservation.Some? <==> info.kind == Some(Dynamic))
            && (e.reservation.Some? ==> e.reservation.value == ReservationInfo(None, None, info.principal, info.labels)))
    ensures !IsRefined(w) ==> Downgraded(w) == Some(Converted(w, Endpoint).value.(reservations := []))
  {
    assert !IsRefined(w) ==> Downgraded(w) == Some(Flat(w).(reservations := []));
  }

  /** What the format before refinement can express. */
  predicate Expressible(w: Wire) {
    |w.reservations| <= 1 &&
    forall info :: info in w.reservations ==>
      && info.role.Some? && info.role.value != "*"
      && (info.kind == Some(Dynamic) || (info.kind == Some(Static) && info.principal.None? && info.labels.None?))
  }

  /** Downgrading fails exactly for refined reservations; upgrading undoes it exactly for what it can express. */
  lemma UpgradeUndoesDowngrade(w: Wire)
    requires IsPost(w)
    ensures Downgraded(w).None? <==> IsRefined(w)
    ensures Downgraded(w).Some? && Upgraded(Downgraded(w).value) == Some(w) <==> Expressible(w)
  {
    if |w.reservations| == 1 {
      var info := w.reservations[0];
      assert w.reservations == [info];
      assert Expressible(w) ==> info in w.reservations;
    }
  }

  /** A static reservation with a principal comes back without it. */
  lemma PrincipalIsLost(role: string, principal: string)
    requires role != "*"
    ensures var w := Wire(None, None, [ReservationInfo(Some(Static), Some(role), Some(principal), None)]);
      && Downgraded(w).Some?
      && Upgraded(Downgraded(w).value) == Some(w.(reservations := [ReservationInfo(Some(Static), Some(role), None, None)]))
  {
  }

  /** The other way round: downgrading undoes upgrading exactly when the role is given and the reservation has none. */
  lemma DowngradeUndoesUpgrade(w: Wire)
    requires IsPre(w)
    ensures Upgraded(w).Some? && Downgraded(Upgraded(w).value) == Some(w) <==>
      && w.role.Some?
      && (w.reservation.Some? ==> w.role.value != "*" && w.reservation.value.kind.None? && w.reservation.value.role.None?)
  {
  }
}
