/**
Which resources are divided and which are used whole, told from the source of the disk.
*/
module Disks {
  import opened Options
  import opened ResourceModel

  /** Volumes and MOUNT, BLOCK and identified RAW disks are used whole; other disks and all that is no disk are divided. */
  predicate UsedWhole(disk: Option<Disk>) {
    match disk
    case None => false
    case Some(Disk(_, Some(_))) => true
    case Some(Disk(None, None)) => false
    case Some(Disk(Some(source), None)) =>
      match source.kind
      case PathSource => false
      case MountSource => true
      case BlockSource => true
      case RawSource => source.id.Some?
  }

  lemma UsedWholeIff(m: Meta)
    ensures Indivisible(m) <==> UsedWhole(m.disk)
  {
  }

  /** The class of a resource, whatever its value. */
  predicate Alike(r: Resource, s: Resource) {
    !r.shared && !s.shared && r.meta == s.meta && SameType(r.value, s.value)
  }

  /** What is used whole is never merged and only subtracted from its equal. */
  lemma {:induction false} UsedWholeStays(es: seq<Entry>, r: Resource)
    requires Valid(r) && !r.shared && !IsEmptyValue(r.value) && UsedWhole(r.meta.disk)
    ensures Add(es, Single(r)) == es + [Single(r)]
    ensures (forall i :: 0 <= i < |es| ==> es[i].r != r) ==> Subtract(es, Single(r)) == es
    ensures forall i :: 0 <= i < |es| && es[i].r == r && (forall j :: 0 <= j < i ==> es[j].r != r) ==> Subtract(es, Single(r)) == RemoveAt(es, i)
    ensures forall s :: ContainsResource(s, r) <==> s == r
  {
    UsedWholeIff(r.meta);
    AddToEnd(es, Single(r));
    var k := Find(es, r);
    assert k < |es| ==> es[k].r == r;
    assert forall i :: 0 <= i < |es| && es[i].r == r ==> Subtractable(es[i].r, r);
  }

  lemma {:induction false} AddToFirst(es: seq<Entry>, i: nat, e: Entry)
    requires i < |es| && Addable(es[i].r, e.r) && forall j :: 0 <= j < i ==> !Addable(es[j].r, e.r)
    ensures AddTo(es, e) == es[i := EntryAdd(es[i], e)]
  {
    if i > 0 {
      AddToFirst(es[1..], i - 1, e);
    }
  }

  /** What can be divided is merged with the first resource of its class, and subtracted from it whatever the amounts. */
  lemma {:induction false} DividedMerges(es: seq<Entry>, i: nat, r: Resource)
    requires Valid(r) && !r.shared && !IsEmptyValue(r.value) && !UsedWhole(r.meta.disk)
    requires i < |es| && Alike(es[i].r, r) && forall j :: 0 <= j < i ==> !Alike(es[j].r, r)
    ensures Add(es, Single(r)) == es[i := es[i].(r := r.(value := AddValue(es[i].r.value, r.value)))]
    ensures var left := SubtractValue(es[i].r.value, r.value);
      Subtract(es, Single(r)) ==
        if IsEmptyValue(left) || (left.Scalar? && left.amount < 0) then RemoveAt(es, i) else es[i := es[i].(r := r.(value := left))]
  {
    UsedWholeIff(r.meta);
    AddToFirst(es, i, Single(r));
    assert Find(es, r) == i;
  }
}
