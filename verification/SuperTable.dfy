/**
  The logical-partition table of Super, and the metadata builder that edits a copy of it.
  A partition owns a sequence of Super blocks; sizes are whole numbers of blocks.
 */
module SuperTable {
  import opened Wrappers

  datatype Partition = Partition(group: string, attributes: nat, extents: seq<nat>)

  /** Group limits in bytes (0 means unlimited) and partitions, both by name. */
  datatype Table = Table(groups: map<string, nat>, parts: map<string, Partition>)

  datatype Geometry = Geometry(blockBytes: nat, blocks: nat)

  /** Blocks a partition of `bytes` bytes occupies: sizes round up to the logical block. */
  function BlocksFor(geo: Geometry, bytes: nat): nat
    requires geo.blockBytes > 0
  {
    (bytes + geo.blockBytes - 1) / geo.blockBytes
  }

  function SizeOf(geo: Geometry, p: Partition): nat {
    |p.extents| * geo.blockBytes
  }

  /** Comparing bytes with a current size is comparing the rounded block counts. */
  lemma {:induction false} BlocksForCompare(geo: Geometry, bytes: nat, n: nat)
    requires geo.blockBytes > 0
    ensures bytes < n * geo.blockBytes ==> BlocksFor(geo, bytes) <= n
    ensures bytes == n * geo.blockBytes ==> BlocksFor(geo, bytes) == n
    ensures bytes > n * geo.blockBytes ==> BlocksFor(geo, bytes) > n
  {
    DivisionBounds(bytes + geo.blockBytes - 1, geo.blockBytes);
    QuotientCompare(BlocksFor(geo, bytes), n, geo.blockBytes, bytes);
  }

  lemma {:induction false} DivisionBounds(x: nat, d: nat)
    requires d > 0
    ensures x / d * d <= x < x / d * d + d
  {
  }

  lemma {:induction false} QuotientCompare(q: nat, n: nat, d: nat, bytes: nat)
    requires q * d <= bytes + d - 1 < q * d + d
    ensures bytes < n * d ==> q <= n
    ensures bytes == n * d ==> q == n
    ensures bytes > n * d ==> q > n
  {
    if q < n {
      assert (q + 1) * d <= n * d;
    } else if q > n {
      assert (n + 1) * d <= q * d;
    }
  }

  // ----- space accounting -----

  datatype Shape = Shape(group: string, blocks: nat)

  ghost function Shapes(parts: map<string, Partition>): map<string, Shape> {
    map n | n in parts :: Shape(parts[n].group, |parts[n].extents|)
  }

  ghost function Weight(s: Shape, group: Option<string>): nat {
    if group.None? || group.value == s.group then s.blocks else 0
  }

  ghost function Pick(shapes: map<string, Shape>): (n: string)
    requires |shapes| > 0
    ensures n in shapes
  {
    var n :| n in shapes; n
  }

  /** Blocks used by one group, or by the whole of Super when `group` is None. */
  ghost function Total(shapes: map<string, Shape>, group: Option<string>): nat
    decreases |shapes|
  {
    if |shapes| == 0 then 0 else
      var n := Pick(shapes);
      Weight(shapes[n], group) + Total(shapes - {n}, group)
  }

  lemma {:induction false} TotalRemove(shapes: map<string, Shape>, group: Option<string>, n: string)
    requires n in shapes
    ensures Total(shapes, group) == Weight(shapes[n], group) + Total(shapes - {n}, group)
    decreases |shapes|
  {
    var k := Pick(shapes);
    if k != n {
      TotalRemove(shapes - {k}, group, n);
      TotalRemove(shapes - {n}, group, k);
      assert shapes - {k} - {n} == shapes - {n} - {k};
    }
  }

  lemma {:induction false} TotalUpdate(shapes: map<string, Shape>, group: Option<string>, n: string, s: Shape)
    requires n in shapes
    ensures Total(shapes[n := s], group) == Total(shapes, group) - Weight(shapes[n], group) + Weight(s, group)
  {
    TotalRemove(shapes, group, n);
    TotalRemove(shapes[n := s], group, n);
    assert shapes[n := s] - {n} == shapes - {n};
  }

  /** Fewer and smaller partitions never use more space. */
  lemma {:induction false} TotalMonotone(a: map<string, Shape>, b: map<string, Shape>, group: Option<string>)
    requires a.Keys <= b.Keys
    requires forall n :: n in a ==> Weight(a[n], group) <= Weight(b[n], group)
    ensures Total(a, group) <= Total(b, group)
    decreases |b|
  {
    if |b| == 0 {
      assert a.Keys == {};
    } else {
      var n :| n in b;
      TotalRemove(b, group, n);
      if n in a {
        TotalRemove(a, group, n);
        TotalMonotone(a - {n}, b - {n}, group);
      } else {
        TotalMonotone(a, b - {n}, group);
      }
    }
  }

  /** True when a group whose limit is `limit` bytes may hold `blocks` blocks. */
  predicate GroupAllows(geo: Geometry, limit: nat, blocks: nat)
    requires geo.blockBytes > 0
  {
    limit == 0 || blocks <= limit / geo.blockBytes
  }

  ghost predicate WithinLimits(geo: Geometry, t: Table)
    requires geo.blockBytes > 0
  {
    forall g :: g in t.groups ==> GroupAllows(geo, t.groups[g], Total(Shapes(t.parts), Some(g)))
  }

  // ----- well-formed tables -----

  /** Block `i` of `n` and block `j` of `m` are the same block only if they are one entry. */
  ghost predicate Apart(parts: map<string, Partition>, n: string, i: nat, m: string, j: nat) {
    && n in parts && m in parts
    && i < |parts[n].extents| && j < |parts[m].extents|
    && parts[n].extents[i] == parts[m].extents[j]
    ==> n == m && i == j
  }

  ghost predicate NoSharedBlock(parts: map<string, Partition>) {
    forall n, i: nat, m, j: nat :: Apart(parts, n, i, m, j)
  }

  ghost predicate Inside(geo: Geometry, p: Partition) {
    forall i :: 0 <= i < |p.extents| ==> p.extents[i] < geo.blocks
  }

  ghost predicate InsideSuper(geo: Geometry, parts: map<string, Partition>) {
    forall n :: n in parts ==> Inside(geo, parts[n])
  }

  ghost predicate GroupsExist(t: Table) {
    forall n :: n in t.parts ==> t.parts[n].group in t.groups
  }

  ghost predicate WellFormed(geo: Geometry, t: Table) {
    && geo.blockBytes > 0
    && GroupsExist(t)
    && InsideSuper(geo, t.parts)
    && NoSharedBlock(t.parts)
    && Total(Shapes(t.parts), None) <= geo.blocks
  }

  function BlockSet(s: seq<nat>): set<nat> {
    set i | 0 <= i < |s| :: s[i]
  }

  ghost function UsedBlocks(parts: map<string, Partition>): set<nat> {
    set n, i | n in parts && 0 <= i < |parts[n].extents| :: parts[n].extents[i]
  }

  lemma {:induction false} BlockSetSize(s: seq<nat>)
    ensures |BlockSet(s)| <= |s|
  {
    if |s| > 0 {
      var init := s[..|s| - 1];
      BlockSetSize(init);
      assert BlockSet(s) == BlockSet(init) + {s[|s| - 1]} by {
        forall b | b in BlockSet(s) ensures b in BlockSet(init) + {s[|s| - 1]} {
          var i :| 0 <= i < |s| && s[i] == b;
          assert i < |s| - 1 ==> init[i] == b;
        }
        forall b | b in BlockSet(init) ensures b in BlockSet(s) {
          var i :| 0 <= i < |init| && init[i] == b;
          assert s[i] == b;
        }
      }
    }
  }

  lemma {:induction false} UsedBlocksSize(parts: map<string, Partition>)
    ensures |UsedBlocks(parts)| <= Total(Shapes(parts), None)
    decreases |parts|
  {
    if |parts| == 0 {
      assert UsedBlocks(parts) == {};
    } else {
      var n :| n in parts;
      var rest := parts - {n};
      UsedBlocksSize(rest);
      BlockSetSize(parts[n].extents);
      assert UsedBlocks(parts) <= UsedBlocks(rest) + BlockSet(parts[n].extents) by {
        forall b | b in UsedBlocks(parts) ensures b in UsedBlocks(rest) + BlockSet(parts[n].extents) {
          var m, i :| m in parts && 0 <= i < |parts[m].extents| && parts[m].extents[i] == b;
          assert m != n ==> rest[m].extents[i] == b;
        }
      }
      SubsetSize(UsedBlocks(parts), UsedBlocks(rest) + BlockSet(parts[n].extents));
      assert Shapes(parts) - {n} == Shapes(rest);
      TotalRemove(Shapes(parts), None, n);
    }
  }

  lemma {:induction false} SubsetSize(a: set<nat>, b: set<nat>)
    requires a <= b
    ensures |a| <= |b|
  {
    if a != {} {
      var x :| x in a;
      SubsetSize(a - {x}, b - {x});
    }
  }

  /** A set smaller than `n` misses a number below `n`. */
  lemma {:induction false} FreeBlockExists(taken: set<nat>, n: nat)
    requires |taken| < n
    ensures exists b: nat :: b < n && b !in taken
  {
    if n - 1 in taken {
      FreeBlockExists(taken - {n - 1}, n - 1);
    }
  }

  // ----- resizing one partition -----

  /** The builder refuses a growth exactly when the group limit or the free space is short. */
  ghost predicate ResizeFits(geo: Geometry, t: Table, name: string, blocks: nat)
    requires geo.blockBytes > 0 && GroupsExist(t) && name in t.parts
  {
    var p := t.parts[name];
    var cur := |p.extents|;
    blocks <= cur ||
    (&& GroupAllows(geo, t.groups[p.group], Total(Shapes(t.parts), Some(p.group)) + blocks - cur)
     && Total(Shapes(t.parts), None) + blocks - cur <= geo.blocks)
  }

  /** `to` is `from` cut to `blocks` blocks, or `from` followed by new blocks. */
  ghost predicate Stretched(from: seq<nat>, to: seq<nat>, blocks: nat) {
    |to| == blocks && if blocks <= |from| then to == from[..blocks] else from <= to
  }

  ghost predicate Resized(t: Table, t': Table, name: string, blocks: nat)
    requires name in t.parts
  {
    && name in t'.parts
    && t' == t.(parts := t.parts[name := t.parts[name].(extents := t'.parts[name].extents)])
    && Stretched(t.parts[name].extents, t'.parts[name].extents, blocks)
  }

  lemma {:induction false} ShapesUpdate(parts: map<string, Partition>, name: string, p: Partition)
    ensures Shapes(parts[name := p]) == Shapes(parts)[name := Shape(p.group, |p.extents|)]
  {
  }

  lemma {:induction false} NoSharedBlockUpdate(parts: map<string, Partition>, name: string, p: Partition)
    requires NoSharedBlock(parts) && name in parts
    requires forall i, j :: 0 <= i < j < |p.extents| ==> p.extents[i] != p.extents[j]
    requires forall i :: 0 <= i < |p.extents| ==>
      p.extents[i] in parts[name].extents || p.extents[i] !in UsedBlocks(parts)
    ensures NoSharedBlock(parts[name := p])
  {
    forall m, j: nat, i: nat | m in parts && m != name && j < |parts[m].extents| && i < |p.extents|
      ensures parts[m].extents[j] != p.extents[i]
    {
      if p.extents[i] in parts[name].extents {
        var k: nat :| k < |parts[name].extents| && parts[name].extents[k] == p.extents[i];
        assert Apart(parts, name, k, m, j);
      }
    }
    var after := parts[name := p];
    forall n, i: nat, m, j: nat ensures Apart(after, n, i, m, j) {
      assert Apart(parts, n, i, m, j);
    }
  }

  /** Cutting partitions or dropping them creates no shared block. */
  lemma {:induction false} WellFormedCut(geo: Geometry, t: Table, parts: map<string, Partition>)
    requires WellFormed(geo, t)
    requires forall n :: n in parts ==>
      n in t.parts && parts[n].group == t.parts[n].group && parts[n].extents <= t.parts[n].extents
    ensures WellFormed(geo, t.(parts := parts))
  {
    forall n, i: nat, m, j: nat ensures Apart(parts, n, i, m, j) {
      assert Apart(t.parts, n, i, m, j);
    }
    TotalMonotone(Shapes(parts), Shapes(t.parts), None);
  }

  lemma {:induction false} OwnBlocksDistinct(parts: map<string, Partition>, name: string, i: nat, j: nat)
    requires NoSharedBlock(parts) && name in parts && i < j < |parts[name].extents|
    ensures parts[name].extents[i] != parts[name].extents[j]
  {
    assert Apart(parts, name, i, name, j);
  }

  lemma {:induction false} WellFormedGrow(geo: Geometry, t: Table, name: string, extra: seq<nat>)
    requires WellFormed(geo, t) && name in t.parts
    requires forall i, j :: 0 <= i < j < |extra| ==> extra[i] != extra[j]
    requires forall i :: 0 <= i < |extra| ==> extra[i] < geo.blocks && extra[i] !in UsedBlocks(t.parts)
    requires Total(Shapes(t.parts), None) + |extra| <= geo.blocks
    ensures WellFormed(geo, t.(parts := t.parts[name := t.parts[name].(extents := t.parts[name].extents + extra)]))
  {
    var own := t.parts[name].extents;
    var p' := t.parts[name].(extents := own + extra);
    forall i, j | 0 <= i < j < |p'.extents| ensures p'.extents[i] != p'.extents[j] {
      if j < |own| {
        OwnBlocksDistinct(t.parts, name, i, j);
      } else if i < |own| {
        assert own[i] in UsedBlocks(t.parts);
      }
    }
    NoSharedBlockUpdate(t.parts, name, p');
    ShapesUpdate(t.parts, name, p');
    TotalUpdate(Shapes(t.parts), None, name, Shape(p'.group, |p'.extents|));
  }

  /** Adding an empty partition, or changing only a label, keeps every block where it is. */
  lemma {:induction false} WellFormedRelabel(geo: Geometry, t: Table, name: string, p: Partition)
    requires WellFormed(geo, t) && p.group in t.groups
    requires p.extents == if name in t.parts then t.parts[name].extents else []
    ensures WellFormed(geo, t.(parts := t.parts[name := p]))
  {
    var after := t.parts[name := p];
    forall n, i: nat, m, j: nat ensures Apart(after, n, i, m, j) {
      assert Apart(t.parts, n, i, m, j);
    }
    RelabelTotal(t.parts, name, p);
  }

  lemma {:induction false} RelabelTotal(parts: map<string, Partition>, name: string, p: Partition)
    requires p.extents == if name in parts then parts[name].extents else []
    ensures Total(Shapes(parts[name := p]), None) == Total(Shapes(parts), None)
  {
    var shape := Shape(p.group, |p.extents|);
    ShapesUpdate(parts, name, p);
    if name in parts {
      TotalUpdate(Shapes(parts), None, name, shape);
    } else {
      var after := Shapes(parts)[name := shape];
      TotalRemove(after, None, name);
      assert after - {name} == Shapes(parts);
    }
  }

  /** The in-memory builder of liblp, reduced to the operations the planners use. */
  class MetadataBuilder {
    const geometry: Geometry
    var table: Table

    ghost predicate Valid()
      reads this
    {
      WellFormed(geometry, table)
    }

    constructor (geo: Geometry, t: Table)
      requires WellFormed(geo, t)
      ensures Valid() && table == t && geometry == geo
    {
      geometry := geo;
      table := t;
    }

    /** TotalSizeOfGroup, in blocks. */
    method CountBlocks(group: Option<string>) returns (n: nat)
      ensures n == Total(Shapes(table.parts), group)
    {
      n := 0;
      var left := table.parts;
      while left.Keys != {}
        invariant n + Total(Shapes(left), group) == Total(Shapes(table.parts), group)
        decreases |left|
      {
        var k :| k in left.Keys;
        TotalRemove(Shapes(left), group, k);
        assert Shapes(left) - {k} == Shapes(left - {k});
        if group.None? || group.value == left[k].group {
          n := n + |left[k].extents|;
        }
        left := left - {k};
      }
      assert |Shapes(left)| == 0;
    }

    method RemovePartition(name: string)
      requires Valid()
      modifies this`table
      ensures Valid()
      ensures table == old(table).(parts := old(table).parts - {name})
    {
      WellFormedCut(geometry, table, table.parts - {name});
      table := table.(parts := table.parts - {name});
    }

    /** Some block that is neither in use nor in `extra`; which one is the allocator's own business. */
    method PickFree(extra: seq<nat>) returns (b: nat)
      requires Valid() && Total(Shapes(table.parts), None) + |extra| < geometry.blocks
      ensures b < geometry.blocks && b !in extra && b !in UsedBlocks(table.parts)
    {
      ghost var used := UsedBlocks(table.parts);
      assert exists b: nat :: b < geometry.blocks && b !in used && b !in extra by {
        UsedBlocksSize(table.parts);
        BlockSetSize(extra);
        var taken := used + BlockSet(extra);
        assert |taken| <= |used| + |BlockSet(extra)|;
        FreeBlockExists(taken, geometry.blocks);
        var b: nat :| b < geometry.blocks && b !in taken;
        assert b !in extra;
      }
      b :| b < geometry.blocks && b !in extra &&
        forall n, i :: n in table.parts && 0 <= i < |table.parts[n].extents| ==> table.parts[n].extents[i] != b;
    }

    method Allocate(count: nat) returns (extra: seq<nat>)
      requires Valid()
      requires Total(Shapes(table.parts), None) + count <= geometry.blocks
      ensures |extra| == count
      ensures forall i, j :: 0 <= i < j < |extra| ==> extra[i] != extra[j]
      ensures forall i :: 0 <= i < |extra| ==> extra[i] < geometry.blocks && extra[i] !in UsedBlocks(table.parts)
    {
      extra := [];
      while |extra| < count
        invariant |extra| <= count
        invariant forall i, j :: 0 <= i < j < |extra| ==> extra[i] != extra[j]
        invariant forall i :: 0 <= i < |extra| ==> extra[i] < geometry.blocks && extra[i] !in UsedBlocks(table.parts)
      {
        var b := PickFree(extra);
        extra := extra + [b];
      }
    }

    method ResizePartition(name: string, bytes: nat) returns (ok: bool)
      requires Valid() && name in table.parts
      modifies this`table
      ensures Valid()
      ensures ok <==> ResizeFits(geometry, old(table), name, BlocksFor(geometry, bytes))
      ensures !ok ==> table == old(table)
      ensures ok ==> Resized(old(table), table, name, BlocksFor(geometry, bytes))
    {
      var p := table.parts[name];
      var cur, want := |p.extents|, BlocksFor(geometry, bytes);
      if want <= cur {
        var p' := p.(extents := p.extents[..want]);
        WellFormedCut(geometry, table, table.parts[name := p']);
        table := table.(parts := table.parts[name := p']);
        return true;
      }
      var inGroup := CountBlocks(Some(p.group));
      var inSuper := CountBlocks(None);
      if !GroupAllows(geometry, table.groups[p.group], inGroup + want - cur) ||
         inSuper + want - cur > geometry.blocks {
        return false;
      }
      var extra := Allocate(want - cur);
      WellFormedGrow(geometry, table, name, extra);
      table := table.(parts := table.parts[name := p.(extents := p.extents + extra)]);
      ok := true;
    }

    method AddGroup(name: string, maximumBytes: nat) returns (ok: bool)
      requires Valid()
      modifies this`table
      ensures Valid()
      ensures ok <==> name !in old(table).groups
      ensures table == if ok then old(table).(groups := old(table).groups[name := maximumBytes]) else old(table)
    {
      ok := name !in table.groups;
      if ok {
        table := table.(groups := table.groups[name := maximumBytes]);
      }
    }

    /** The limit of the built-in group cannot be changed. */
    method ChangeGroupSize(name: string, maximumBytes: nat) returns (ok: bool)
      requires Valid()
      modifies this`table
      ensures Valid()
      ensures ok <==> name in old(table).groups && name != "default"
      ensures table == if ok then old(table).(groups := old(table).groups[name := maximumBytes]) else old(table)
    {
      ok := name in table.groups && name != "default";
      if ok {
        table := table.(groups := table.groups[name := maximumBytes]);
      }
    }

    /** A new partition starts without blocks. */
    method AddPartition(name: string, group: string, attributes: nat) returns (ok: bool)
      requires Valid()
      modifies this`table
      ensures Valid()
      ensures ok <==> name != "" && name !in old(table).parts && group in old(table).groups
      ensures table == if ok then old(table).(parts := old(table).parts[name := Partition(group, attributes, [])])
                             else old(table)
    {
      ok := name != "" && name !in table.parts && group in table.groups;
      if ok {
        WellFormedRelabel(geometry, table, name, Partition(group, attributes, []));
        table := table.(parts := table.parts[name := Partition(group, attributes, [])]);
      }
    }

    method ChangePartitionGroup(name: string, group: string) returns (ok: bool)
      requires Valid() && name in table.parts
      modifies this`table
      ensures Valid()
      ensures ok <==> group in old(table).groups
      ensures table ==
        if ok then old(table).(parts := old(table).parts[name := old(table).parts[name].(group := group)])
        else old(table)
    {
      ok := group in table.groups;
      if ok {
        WellFormedRelabel(geometry, table, name, table.parts[name].(group := group));
        table := table.(parts := table.parts[name := table.parts[name].(group := group)]);
      }
    }

    method SetAttributes(name: string, attributes: nat)
      requires Valid() && name in table.parts
      modifies this`table
      ensures Valid()
      ensures table == old(table).(parts := old(table).parts[name := old(table).parts[name].(attributes := attributes)])
    {
      WellFormedRelabel(geometry, table, name, table.parts[name].(attributes := attributes));
      table := table.(parts := table.parts[name := table.parts[name].(attributes := attributes)]);
    }

    method GroupIsEmpty(group: string) returns (empty: bool)
      ensures empty <==> forall n :: n in table.parts ==> table.parts[n].group != group
    {
      empty := forall n :: n in table.parts ==> table.parts[n].group != group;
    }

    method RemoveGroupAndPartitions(group: string)
      requires Valid()
      modifies this`table
      ensures Valid()
      ensures table.parts == map n | n in old(table).parts && old(table).parts[n].group != group :: old(table).parts[n]
      ensures table.groups == old(table).groups - {group}
    {
      var parts := map n | n in table.parts && table.parts[n].group != group :: table.parts[n];
      WellFormedCut(geometry, table, parts);
      table := Table(table.groups - {group}, parts);
    }

    /** Export: refused exactly when some group holds more than its limit. */
    method Export() returns (updated: Option<Table>)
      requires Valid()
      ensures updated == if WithinLimits(geometry, table) then Some(table) else None
    {
      var left := table.groups.Keys;
      while left != {}
        invariant left <= table.groups.Keys
        invariant forall g :: g in table.groups.Keys - left ==>
          GroupAllows(geometry, table.groups[g], Total(Shapes(table.parts), Some(g)))
      {
        var g :| g in left;
        var n := CountBlocks(Some(g));
        if !GroupAllows(geometry, table.groups[g], n) {
          return None;
        }
        left := left - {g};
      }
      updated := Some(table);
    }
  }
}
