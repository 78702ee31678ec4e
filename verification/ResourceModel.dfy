/**
Resource objects and the collections that `Resources` keeps of them: which two can be combined,
and how one is added to, subtracted from or looked for in a collection.

Scalars are thousandths, as the fixed-point arithmetic of the values keeps them. A value of RANGES
or SET type is the set of its members, which is what the range and set operations compute with.
*/
module ResourceModel {

  import opened Options

  datatype Member = Point(x: nat) | Item(name: string)

  datatype MemberType = RangesType | SetType

  datatype Value = Scalar(amount: int) | Members(kind: MemberType, members: set<Member>)

  datatype ReservationType = Static | Dynamic

  datatype Reservation = Reservation(kind: ReservationType, role: string, principal: Option<string>, labels: Option<string>)

  datatype SourceType = PathSource | MountSource | BlockSource | RawSource

  datatype Source = Source(kind: SourceType, root: Option<string>, id: Option<string>, profile: Option<string>)

  datatype Disk = Disk(source: Option<Source>, persistence: Option<string>)

  /** Everything `compareResourceMetadata` looks at except sharedness and the type of the value. */
  datatype Meta = Meta(
    name: string,
    allocation: Option<string>,
    reservations: seq<Reservation>,
    disk: Option<Disk>,
    revocable: bool,
    provider: Option<string>)

  datatype Resource = Resource(meta: Meta, shared: bool, value: Value)

  // ----- values

  predicate SameType(v: Value, w: Value) {
    v.Scalar? == w.Scalar? && (v.Members? ==> v.kind == w.kind)
  }

  predicate IsEmptyValue(v: Value) {
    if v.Scalar? then v.amount == 0 else v.members == {}
  }

  function AddValue(v: Value, w: Value): Value
    requires SameType(v, w)
  {
    if v.Scalar? then Scalar(v.amount + w.amount) else v.(members := v.members + w.members)
  }

  function SubtractValue(v: Value, w: Value): Value
    requires SameType(v, w)
  {
    if v.Scalar? then Scalar(v.amount - w.amount) else v.(members := v.members - w.members)
  }

  /** `w` is part of `v`. */
  predicate ValueWithin(w: Value, v: Value)
    requires SameType(v, w)
  {
    if v.Scalar? then w.amount <= v.amount else w.members <= v.members
  }

  // ----- resource objects

  predicate IsPersistent(m: Meta) {
    m.disk.Some? && m.disk.value.persistence.Some?
  }

  /** Exclusive disks and persistent volumes come and go whole. */
  predicate Indivisible(m: Meta) {
    && m.disk.Some?
    && (m.disk.value.persistence.Some?
        || (m.disk.value.source.Some?
            && var s := m.disk.value.source.value;
               s.kind.MountSource? || s.kind.BlockSource? || (s.kind.RawSource? && s.id.Some?)))
  }

  predicate Addable(left: Resource, right: Resource) {
    if left.shared != right.shared then false
    else if left.shared then left == right
    else SameType(left.value, right.value) && left.meta == right.meta && !Indivisible(left.meta)
  }

  predicate Subtractable(left: Resource, right: Resource) {
    if left.shared != right.shared then false
    else if left.shared then left == right
    else
      && SameType(left.value, right.value) && left.meta == right.meta
      && (Indivisible(left.meta) ==> left == right)
  }

  predicate ContainsResource(left: Resource, right: Resource) {
    Subtractable(left, right) && ValueWithin(right.value, left.value)
  }

  /** Valid resources: no negative scalar, disks are scalars, and only persistent volumes are shared. */
  predicate Valid(r: Resource) {
    && (r.value.Scalar? ==> r.value.amount >= 0)
    && (r.meta.disk.Some? ==> r.value.Scalar?)
    && (r.shared ==> IsPersistent(r.meta))
  }

  // ----- entries: a resource object and, for a shared one, the number of copies

  datatype Entry = Entry(r: Resource, count: int)

  function Single(r: Resource): Entry {
    Entry(r, 1)
  }

  predicate IsEmpty(e: Entry) {
    (e.r.shared && e.count == 0) || IsEmptyValue(e.r.value)
  }

  predicate IsNegative(e: Entry) {
    (e.r.shared && e.count < 0) || (e.r.value.Scalar? && e.r.value.amount < 0)
  }

  predicate EntryContains(e: Entry, f: Entry) {
    if e.r.shared != f.r.shared then false
    else if e.r.shared then e.count >= f.count && e.r == f.r
    else ContainsResource(e.r, f.r)
  }

  function EntryAdd(e: Entry, f: Entry): Entry
    requires Addable(e.r, f.r)
  {
    if e.r.shared then e.(count := e.count + f.count)
    else e.(r := e.r.(value := AddValue(e.r.value, f.r.value)))
  }

  function EntrySubtract(e: Entry, f: Entry): Entry
    requires Subtractable(e.r, f.r)
  {
    if e.r.shared then e.(count := e.count - f.count)
    else e.(r := e.r.(value := SubtractValue(e.r.value, f.r.value)))
  }

  // ----- collections

  /** Combines with the first entry that it can be added to, or else becomes a new entry. */
  function AddTo(es: seq<Entry>, e: Entry): seq<Entry> {
    if es == [] then [e]
    else if Addable(es[0].r, e.r) then [EntryAdd(es[0], e)] + es[1..]
    else [es[0]] + AddTo(es[1..], e)
  }

  lemma {:induction false} AddToEnd(es: seq<Entry>, e: Entry)
    requires forall j :: 0 <= j < |es| ==> !Addable(es[j].r, e.r)
    ensures AddTo(es, e) == es + [e]
  {
    if es != [] {
      AddToEnd(es[1..], e);
    }
  }

  function Add(es: seq<Entry>, e: Entry): seq<Entry> {
    if IsEmpty(e) then es else AddTo(es, e)
  }

  /** The first entry that can be subtracted from, or the number of entries. */
  function Find(es: seq<Entry>, r: Resource): (i: nat)
    ensures i <= |es|
    ensures i < |es| ==> Subtractable(es[i].r, r)
    ensures forall j :: 0 <= j < i ==> !Subtractable(es[j].r, r)
  {
    if es == [] || Subtractable(es[0].r, r) then 0 else 1 + Find(es[1..], r)
  }

  /** The last entry takes the place of the removed one. */
  function RemoveAt(es: seq<Entry>, i: nat): seq<Entry>
    requires i < |es|
  {
    es[i := es[|es| - 1]][..|es| - 1]
  }

  function Subtract(es: seq<Entry>, e: Entry): seq<Entry> {
    var i := Find(es, e.r);
    if IsEmpty(e) || i == |es| then es
    else
      var left := EntrySubtract(es[i], e);
      if IsNegative(left) || IsEmpty(left) then RemoveAt(es, i) else es[i := left]
  }

  function AddAll(es: seq<Entry>, fs: seq<Entry>): seq<Entry> {
    if fs == [] then es else Add(AddAll(es, fs[..|fs| - 1]), fs[|fs| - 1])
  }

  function SubtractAll(es: seq<Entry>, fs: seq<Entry>): seq<Entry> {
    if fs == [] then es else Subtract(SubtractAll(es, fs[..|fs| - 1]), fs[|fs| - 1])
  }

  predicate ContainsEntry(es: seq<Entry>, e: Entry) {
    exists i :: 0 <= i < |es| && EntryContains(es[i], e)
  }

  /** Only persistent volumes are taken out of what remains while looking for the others. */
  predicate Contains(es: seq<Entry>, fs: seq<Entry>)
    decreases |fs|
  {
    fs == [] ||
    (ContainsEntry(es, fs[0]) && Contains(if IsPersistent(fs[0].r.meta) then Subtract(es, fs[0]) else es, fs[1..]))
  }

  predicate Equal(es: seq<Entry>, fs: seq<Entry>) {
    Contains(es, fs) && Contains(fs, es)
  }

  // ----- what every collection keeps

  predicate ValidEntry(e: Entry) {
    Valid(e.r) && !IsEmpty(e) && e.count >= 1 && (!e.r.shared ==> e.count == 1)
  }

  /** Valid, without empty entries, and combined as far as possible. */
  ghost predicate Combined(es: seq<Entry>) {
    && (forall i :: 0 <= i < |es| ==> ValidEntry(es[i]))
    && (forall i, j :: 0 <= i < j < |es| ==> !Addable(es[i].r, es[j].r))
  }
}
