/**
Copy-on-write storage: `Resources` objects share the entries they hold through counted pointers,
and write to an entry in place only when they are its one holder.

`world` is the set of all live `Resources`. Every method states its effect on the collection it is
called on through the functions of `ResourceModel`, and that no other collection in the world
changes.
*/
module CopyOnWrite {
  import opened Options
  import opened ResourceModel

  /** A shared entry and its use count. */
  class Cell {
    var entry: Entry
    var uses: nat

    constructor (e: Entry)
      ensures entry == e && uses == 1
    {
      entry, uses := e, 1;
    }
  }

  /** Which cells each collection holds, in order. */
  type Shape = map<Resources, seq<Cell>>

  ghost function ShapeOf(world: set<Resources>): Shape
    reads world
  {
    map r | r in world :: r.cells
  }

  ghost function AllCells(world: set<Resources>): set<Cell>
    reads world
  {
    set r, i | r in world && 0 <= i < |r.cells| :: r.cells[i]
  }

  /** The places at which a cell is held. */
  ghost function Holders(shape: Shape, c: Cell): set<(Resources, int)> {
    set r, i | r in shape && 0 <= i < |shape[r]| && shape[r][i] == c :: (r, i)
  }

  ghost function Count(shape: Shape, c: Cell): nat {
    |Holders(shape, c)|
  }

  ghost function Places(me: Resources, cells: seq<Cell>, c: Cell): set<(Resources, int)> {
    set i | 0 <= i < |cells| && cells[i] == c :: (me, i)
  }

  lemma {:induction false} CountPlaces(me: Resources, cells: seq<Cell>, c: Cell)
    ensures |Places(me, cells, c)| == multiset(cells)[c]
  {
    if cells != [] {
      var n := |cells| - 1;
      var front := cells[..n];
      CountPlaces(me, front, c);
      assert cells == front + [cells[n]];
      assert Places(me, cells, c) == Places(me, front, c) + if cells[n] == c then {(me, n)} else {};
    }
  }

  /** When one collection changes, a cell loses its places there and gains the new ones. */
  lemma CountUpdate(shape: Shape, me: Resources, cells: seq<Cell>, c: Cell)
    requires me in shape
    ensures Count(shape[me := cells], c) == Count(shape, c) - multiset(shape[me])[c] + multiset(cells)[c]
  {
    var others := Holders(shape - {me}, c);
    var before, after := Places(me, shape[me], c), Places(me, cells, c);
    assert Holders(shape, c) == others + before && others !! before;
    assert Holders(shape[me := cells], c) == others + after && others !! after;
    CountPlaces(me, shape[me], c);
    CountPlaces(me, cells, c);
  }

  lemma CountAtLeast(shape: Shape, r: Resources, c: Cell)
    requires r in shape
    ensures Count(shape, c) >= multiset(shape[r])[c]
  {
    var mine := Places(r, shape[r], c);
    assert mine <= Holders(shape, c);
    assert |Holders(shape, c) - mine| == |Holders(shape, c)| - |mine|;
    CountPlaces(r, shape[r], c);
  }

  /** One holder less for the cell that goes, the same for every other. */
  lemma CountReleased(shape: Shape, me: Resources, i: nat, c: Cell)
    requires me in shape && i < |shape[me]|
    ensures var cells := shape[me]; var out := cells[i := cells[|cells| - 1]][..|cells| - 1];
      Count(shape[me := out], c) == Count(shape, c) - if c == cells[i] then 1 else 0
  {
    var cells := shape[me];
    CountUpdate(shape, me, cells[i := cells[|cells| - 1]][..|cells| - 1], c);
    RemovedCells(cells, i);
  }

  lemma NotHeld(shape: Shape, c: Cell)
    requires forall r :: r in shape ==> c !in shape[r]
    ensures Count(shape, c) == 0
  {
    assert Holders(shape, c) == {};
  }

  /** Use counts are exact. */
  ghost predicate Sound(world: set<Resources>)
    reads world, AllCells(world)
  {
    forall r, i :: r in world && 0 <= i < |r.cells| ==> r.cells[i].uses == Count(ShapeOf(world), r.cells[i])
  }

  /** Every collection of the world but one is as before, and so is all that it holds. */
  twostate predicate Isolated(world: set<Resources>, new except: Resources)
    reads world, AllCells(world)
  {
    forall r :: r in world && r != except ==>
      r.cells == old(r.cells) && forall i :: 0 <= i < |r.cells| ==> r.cells[i].entry == old(r.cells[i].entry)
  }

  class Resources {
    var cells: seq<Cell>

    constructor ()
      ensures cells == []
    {
      cells := [];
    }

    ghost function Contents(): (es: seq<Entry>)
      reads this, cells
      ensures |es| == |cells| && forall i :: 0 <= i < |cells| ==> es[i] == cells[i].entry
    {
      seq(|cells|, i requires 0 <= i < |cells| reads this, cells => cells[i].entry)
    }

    /** A write through a cell with one holder cannot be seen elsewhere. */
    lemma SoleHolder(world: set<Resources>, i: nat, r: Resources, j: nat)
      requires Sound(world) && this in world && r in world && i < |cells| && j < |r.cells|
      requires cells[i].uses == 1 && r.cells[j] == cells[i]
      ensures r == this && j == i
    {
      var holders := Holders(ShapeOf(world), cells[i]);
      var one, other := (this, i as int), (r, j as int);
      assert one in holders && other in holders;
      assert |holders - {one}| == 0;
    }

    /** Puts a new cell in the place of a shared one, which loses a holder. */
    method Replace(i: nat, copy: Cell, ghost world: set<Resources>)
      requires Sound(world) && this in world && i < |cells| && cells[i].uses > 1
      requires copy.uses == 1 && copy !in AllCells(world)
      modifies this, cells
      ensures Sound(world) && cells == old(cells)[i := copy]
      ensures forall c :: c in old(cells) ==> c.entry == old(c.entry)
    {
      hide Count;
      ghost var shape := ShapeOf(world);
      var c := cells[i];
      NotHeld(shape, copy);
      c.uses := c.uses - 1;
      cells := cells[i := copy];
      assert ShapeOf(world) == shape[this := cells];
      assert multiset(cells) == multiset(old(cells)) - multiset{c} + multiset{copy};
      forall r, j | r in world && 0 <= j < |r.cells|
        ensures r.cells[j].uses == Count(ShapeOf(world), r.cells[j])
      {
        CountUpdate(shape, this, cells, r.cells[j]);
        assert r.cells[j] != copy ==> r.cells[j] == old(r.cells)[j];
      }
    }

    /** Copies the entry at `i` unless this is its only holder. */
    method MakeExclusive(i: nat, ghost world: set<Resources>)
      requires Sound(world) && this in world && i < |cells|
      modifies this, cells
      ensures Sound(world) && Isolated(world, this)
      ensures |cells| == |old(cells)| && Contents() == old(Contents()) && cells[i].uses == 1
      ensures forall j :: 0 <= j < |cells| && j != i ==> cells[j] == old(cells)[j]
      ensures cells[i] == old(cells)[i] || fresh(cells[i])
    {
      hide Count;
      if cells[i].uses > 1 {
        var copy := new Cell(cells[i].entry);
        Replace(i, copy, world);
      } else {
        CountAtLeast(ShapeOf(world), this, cells[i]);
      }
    }

    /** Writes through a cell that no other collection holds. */
    method Write(i: nat, e: Entry, ghost world: set<Resources>)
      requires Sound(world) && this in world && i < |cells| && cells[i].uses == 1
      modifies cells[i]
      ensures Sound(world) && Isolated(world, this)
      ensures cells == old(cells) && Contents() == old(Contents())[i := e]
    {
      hide Count;
      forall r, j | r in world && 0 <= j < |r.cells| && r.cells[j] == cells[i] ensures r == this && j == i {
        SoleHolder(world, i, r, j);
      }
      cells[i].entry := e;
    }

    /** Copy-on-write: changes one entry of this collection and of no other. */
    method Update(i: nat, e: Entry, ghost world: set<Resources>)
      requires Sound(world) && this in world && i < |cells|
      modifies this, cells
      ensures Sound(world) && Isolated(world, this)
      ensures |cells| == |old(cells)| && Contents() == old(Contents())[i := e]
      ensures forall j :: 0 <= j < |cells| ==> cells[j] in old(cells) || fresh(cells[j])
    {
      hide Count, Sound;
      MakeExclusive(i, world);
      Write(i, e, world);
    }

    method Push(e: Entry, ghost world: set<Resources>)
      requires Sound(world) && this in world
      modifies this
      ensures Sound(world) && Isolated(world, this)
      ensures |cells| == |old(cells)| + 1 && cells[..|old(cells)|] == old(cells) && fresh(cells[|old(cells)|])
      ensures Contents() == old(Contents()) + [e]
    {
      hide Count;
      ghost var shape := ShapeOf(world);
      var c := new Cell(e);
      NotHeld(shape, c);
      cells := cells + [c];
      assert ShapeOf(world) == shape[this := cells];
      forall r, j | r in world && 0 <= j < |r.cells|
        ensures r.cells[j].uses == Count(ShapeOf(world), r.cells[j])
      {
        CountUpdate(shape, this, cells, r.cells[j]);
        assert r.cells[j] != c ==> r.cells[j] == old(r.cells)[j];
      }
    }

    /** Becomes one more holder of a cell. */
    method PushShared(c: Cell, ghost world: set<Resources>)
      requires Sound(world) && this in world && c in AllCells(world)
      modifies this, c
      ensures Sound(world) && Isolated(world, this)
      ensures cells == old(cells) + [c] && Contents() == old(Contents()) + [c.entry] && c.entry == old(c.entry)
    {
      hide Count;
      ghost var shape := ShapeOf(world);
      ghost var holder, place :| holder in world && 0 <= place < |holder.cells| && holder.cells[place] == c;
      cells := cells + [c];
      c.uses := c.uses + 1;
      assert ShapeOf(world) == shape[this := cells];
      forall r, j | r in world && 0 <= j < |r.cells|
        ensures r.cells[j].uses == Count(ShapeOf(world), r.cells[j])
      {
        CountUpdate(shape, this, cells, r.cells[j]);
        assert r.cells[j] == c || r.cells[j] == old(r.cells)[j];
        assert old(holder.cells)[place] == c;
      }
    }

    /** Moves the last cell into the place of the one at `i`, which loses a holder. */
    method Release(i: nat, ghost world: set<Resources>)
      requires Sound(world) && this in world && i < |cells|
      modifies this, cells
      ensures Sound(world) && cells == old(cells)[i := old(cells)[|old(cells)| - 1]][..|old(cells)| - 1]
      ensures forall c :: c in old(cells) ==> c.entry == old(c.entry)
    {
      hide Count;
      ghost var shape := ShapeOf(world);
      var n := |cells| - 1;
      var c := cells[i];
      CountAtLeast(shape, this, c);
      c.uses := c.uses - 1;
      cells := cells[i := cells[n]][..n];
      assert ShapeOf(world) == shape[this := cells];
      forall r, j | r in world && 0 <= j < |r.cells|
        ensures r.cells[j].uses == Count(ShapeOf(world), r.cells[j])
      {
        CountReleased(shape, this, i, r.cells[j]);
        assert r.cells[j] == old(r.cells)[if r == this && j == i then n else j];
      }
    }

    method Remove(i: nat, ghost world: set<Resources>)
      requires Sound(world) && this in world && i < |cells|
      modifies this, cells
      ensures Sound(world) && Isolated(world, this)
      ensures |cells| == |old(cells)| - 1 && Contents() == RemoveAt(old(Contents()), i)
      ensures forall j :: 0 <= j < |cells| ==> cells[j] == old(cells)[if j == i then |cells| else j]
    {
      hide Count, Sound;
      Release(i, world);
    }

    // ----- the operations of `Resources`

    /** Adds a value: merged into the first entry it can be added to, or appended. */
    method AddEntry(e: Entry, ghost world: set<Resources>)
      requires Sound(world) && this in world
      modifies this, cells
      ensures Sound(world) && Isolated(world, this)
      ensures Contents() == Add(old(Contents()), e)
      ensures forall j :: 0 <= j < |cells| ==> cells[j] in old(cells) || fresh(cells[j])
    {
      hide Count, Sound;
      if IsEmpty(e) {
        return;
      }
      for i := 0 to |cells|
        invariant cells == old(cells) && Contents() == old(Contents())
        invariant forall j :: 0 <= j < i ==> !Addable(Contents()[j].r, e.r)
        invariant Sound(world) && Isolated(world, this)
      {
        if Addable(cells[i].entry.r, e.r) {
          AddToFirst(Contents(), i, e);
          Update(i, EntryAdd(cells[i].entry, e), world);
          return;
        }
      }
      AddToEnd(Contents(), e);
      Push(e, world);
    }

    /** Adds a shared entry: where it cannot be merged, it is shared and not copied. */
    method AddShared(c: Cell, ghost world: set<Resources>)
      requires Sound(world) && this in world && c in AllCells(world)
      modifies this, cells, c
      ensures Sound(world) && Isolated(world, this)
      ensures Contents() == Add(old(Contents()), old(c.entry))
      ensures forall j :: 0 <= j < |cells| ==> cells[j] in old(cells) || cells[j] == c || fresh(cells[j])
    {
      hide Count, Sound;
      var e := c.entry;
      if IsEmpty(e) {
        return;
      }
      for i := 0 to |cells|
        invariant cells == old(cells) && Contents() == old(Contents())
        invariant forall j :: 0 <= j < i ==> !Addable(Contents()[j].r, e.r)
        invariant Sound(world) && Isolated(world, this)
      {
        if Addable(cells[i].entry.r, e.r) {
          AddToFirst(Contents(), i, e);
          Update(i, EntryAdd(cells[i].entry, e), world);
          return;
        }
      }
      AddToEnd(Contents(), e);
      PushShared(c, world);
    }

    method SubtractEntry(e: Entry, ghost world: set<Resources>)
      requires Sound(world) && this in world
      modifies this, cells
      ensures Sound(world) && Isolated(world, this)
      ensures Contents() == Subtract(old(Contents()), e)
      ensures forall j :: 0 <= j < |cells| ==> cells[j] in old(cells) || fresh(cells[j])
    {
      hide Count, Sound;
      if IsEmpty(e) {
        return;
      }
      var i := 0;
      while i < |cells| && !Subtractable(cells[i].entry.r, e.r)
        invariant i <= |cells|
        invariant forall j :: 0 <= j < i ==> !Subtractable(Contents()[j].r, e.r)
      {
        i := i + 1;
      }
      FindFirst(Contents(), i, e.r);
      if i < |cells| {
        var left := EntrySubtract(cells[i].entry, e);
        Update(i, left, world);
        if IsNegative(left) || IsEmpty(left) {
          RemoveAfterUpdate(old(Contents()), i, left);
          Remove(i, world);
        }
      }
    }

    /** Allocates every resource to the role. */
    method Allocate(role: string, ghost world: set<Resources>)
      requires Sound(world) && this in world
      modifies this, cells
      ensures Sound(world) && Isolated(world, this) && |cells| == |old(cells)|
      ensures forall i :: 0 <= i < |cells| ==> Contents()[i] == Allocated(old(Contents())[i], Some(role))
    {
      SetAllocation(Some(role), world);
    }

    method Unallocate(ghost world: set<Resources>)
      requires Sound(world) && this in world
      modifies this, cells
      ensures Sound(world) && Isolated(world, this) && |cells| == |old(cells)|
      ensures forall i :: 0 <= i < |cells| ==> Contents()[i] == Allocated(old(Contents())[i], None)
    {
      SetAllocation(None, world);
    }

    method SetAllocation(role: Option<string>, ghost world: set<Resources>)
      requires Sound(world) && this in world
      modifies this, cells
      ensures Sound(world) && Isolated(world, this) && |cells| == |old(cells)|
      ensures forall i :: 0 <= i < |cells| ==> Contents()[i] == Allocated(old(Contents())[i], role)
    {
      hide Count, Sound;
      for i := 0 to |cells|
        invariant |cells| == |old(cells)|
        invariant Sound(world) && Isolated(world, this)
        invariant forall j :: 0 <= j < i ==> Contents()[j] == Allocated(old(Contents())[j], role)
        invariant forall j :: i <= j < |cells| ==> Contents()[j] == old(Contents())[j]
        invariant forall j :: 0 <= j < |cells| ==> cells[j] in old(cells) || fresh(cells[j])
      {
        if role.Some? || cells[i].entry.r.meta.allocation.Some? {
          Update(i, Allocated(cells[i].entry, role), world);
        }
      }
    }

    /** `operator+=`. */
    method AddFrom(that: Resources, ghost world: set<Resources>)
      requires Sound(world) && this in world && that in world && that != this
      modifies this, cells, that.cells
      ensures Sound(world) && Isolated(world, this)
      ensures Contents() == AddAll(old(Contents()), old(that.Contents()))
    {
      hide Count, Sound;
      ghost var es := that.Contents();
      for i := 0 to |that.cells|
        invariant that.cells == old(that.cells) && that.Contents() == es
        invariant Sound(world) && Isolated(world, this)
        invariant Contents() == AddAll(old(Contents()), es[..i])
        invariant forall j :: 0 <= j < |cells| ==> cells[j] in old(cells) || cells[j] in that.cells || fresh(cells[j])
      {
        assert that.cells[i] in AllCells(world);
        AddShared(that.cells[i], world);
        assert es[..i + 1][..i] == es[..i];
      }
      assert es[..|es|] == es;
    }

    /** `operator-=`. */
    method SubtractFrom(that: Resources, ghost world: set<Resources>)
      requires Sound(world) && this in world && that in world && that != this
      modifies this, cells
      ensures Sound(world) && Isolated(world, this)
      ensures Contents() == SubtractAll(old(Contents()), old(that.Contents()))
    {
      hide Count, Sound;
      ghost var es := that.Contents();
      for i := 0 to |that.cells|
        invariant that.cells == old(that.cells) && that.Contents() == es
        invariant Sound(world) && Isolated(world, this)
        invariant Contents() == SubtractAll(old(Contents()), es[..i])
        invariant forall j :: 0 <= j < |cells| ==> cells[j] in old(cells) || fresh(cells[j])
      {
        SubtractEntry(that.cells[i].entry, world);
        assert es[..i + 1][..i] == es[..i];
      }
      assert es[..|es|] == es;
    }
  }

  /** Copying a collection copies pointers: the copy holds the same cells. */
  method CopyOf(that: Resources, ghost world: set<Resources>) returns (r: Resources)
    requires Sound(world) && that in world
    modifies that.cells
    ensures fresh(r) && Sound(world + {r}) && Isolated(world, r)
    ensures r.cells == that.cells && r.Contents() == old(that.Contents())
  {
    hide Count;
    r := new Resources();
    ghost var larger := world + {r};
    EmptyIsSound(world, r);
    hide Sound;
    for i := 0 to |that.cells|
      invariant that.cells == old(that.cells) && that.Contents() == old(that.Contents())
      invariant Sound(larger) && Isolated(world, r) && r.cells == that.cells[..i]
    {
      assert that.cells[i] in AllCells(larger);
      r.PushShared(that.cells[i], larger);
    }
  }

  lemma EmptyIsSound(world: set<Resources>, r: Resources)
    requires Sound(world) && r !in world && r.cells == []
    ensures Sound(world + {r})
  {
    var larger := world + {r};
    forall q, i | q in larger && 0 <= i < |q.cells| ensures q.cells[i].uses == Count(ShapeOf(larger), q.cells[i]) {
      assert Holders(ShapeOf(larger), q.cells[i]) == Holders(ShapeOf(world), q.cells[i]);
    }
  }

  function Allocated(e: Entry, role: Option<string>): Entry {
    e.(r := e.r.(meta := e.r.meta.(allocation := role)))
  }

  lemma {:induction false} AddToFirst(es: seq<Entry>, i: nat, e: Entry)
    requires i < |es| && Addable(es[i].r, e.r) && forall j :: 0 <= j < i ==> !Addable(es[j].r, e.r)
    ensures AddTo(es, e) == es[i := EntryAdd(es[i], e)]
  {
    if i > 0 {
      AddToFirst(es[1..], i - 1, e);
    }
  }

  lemma FindFirst(es: seq<Entry>, i: nat, r: Resource)
    requires i <= |es| && (i < |es| ==> Subtractable(es[i].r, r))
    requires forall j :: 0 <= j < i ==> !Subtractable(es[j].r, r)
    ensures Find(es, r) == i
  {
  }

  lemma RemoveAfterUpdate(es: seq<Entry>, i: nat, e: Entry)
    requires i < |es|
    ensures RemoveAt(es[i := e], i) == RemoveAt(es, i)
  {
  }

  lemma RemovedCells(cells: seq<Cell>, i: nat)
    requires i < |cells|
    ensures var out := cells[i := cells[|cells| - 1]][..|cells| - 1];
      multiset(out) == multiset(cells) - multiset{cells[i]} && cells[i] in multiset(cells)
  {
    var n := |cells| - 1;
    var out := cells[i := cells[n]][..n];
    assert cells == cells[..n] + [cells[n]];
    if i < n {
      assert out == cells[..n][i := cells[n]];
    } else {
      assert out == cells[..n];
    }
  }
}
