/** Grouping protected polygons into crops that never touch (service/mosaic.py, _group_polygons). */
module Grouping {
  import opened Raster

  /** One crop and the polygons computed in it. */
  datatype Group = Group(crop: Rect, members: seq<Polygon>)

  /** The frame pixels a polygon's mask can change: its bounds widened by `reach` and clipped. */
  function Reached(polygon: Polygon, reach: nat, width: nat, height: nat): Rect
    requires polygon != []
  {
    BoundingBox(polygon).Widen(reach).Meet(Frame(width, height))
  }

  function Reaches(polygons: seq<Polygon>, reach: nat, width: nat, height: nat): seq<Rect>
    requires forall i :: 0 <= i < |polygons| ==> polygons[i] != []
  {
    seq(|polygons|, i requires 0 <= i < |polygons| && polygons[i] != [] => Reached(polygons[i], reach, width, height))
  }

  // ---- What a grouping is -------------------------------------------------------------

  /** `outer` contains every rectangle whose index is in `block`. */
  ghost predicate Encloses(rects: seq<Rect>, block: set<nat>, outer: Rect) {
    forall i :: i in block ==> i < |rects| && rects[i].Within(outer)
  }

  /** `hull` is the smallest rectangle around the rectangles whose indices are in `block`. */
  ghost predicate IsHull(rects: seq<Rect>, block: set<nat>, hull: Rect) {
    && Encloses(rects, block, hull)
    && forall outer :: Encloses(rects, block, outer) ==> hull.Within(outer)
  }

  /** The indices below `n`. */
  ghost function Indices(n: nat): (s: set<nat>)
    ensures forall i: nat {:trigger i in s} :: i in s <==> i < n
  {
    if n == 0 then {} else Indices(n - 1) + {n - 1}
  }

  /** `blocks` splits the indices below `n` into non-empty, disjoint parts. */
  ghost predicate Partition(n: nat, blocks: seq<set<nat>>) {
    && (forall k :: 0 <= k < |blocks| ==> blocks[k] != {} && blocks[k] <= Indices(n))
    && (forall j, k :: 0 <= j < k < |blocks| ==> blocks[j] !! blocks[k])
    && (forall i :: i in Indices(n) ==> InSome(blocks, i))
  }

  ghost predicate InSome(blocks: seq<set<nat>>, i: nat) {
    exists k :: 0 <= k < |blocks| && i in blocks[k]
  }

  /** The hulls of two blocks do not overlap. */
  ghost predicate Apart(rects: seq<Rect>, a: set<nat>, b: set<nat>) {
    forall h, g :: IsHull(rects, a, h) && IsHull(rects, b, g) ==> !h.Overlaps(g)
  }

  /** A partition whose hulls do not overlap each other. */
  ghost predicate SeparatePartition(rects: seq<Rect>, blocks: seq<set<nat>>) {
    && Partition(|rects|, blocks)
    && forall j, k :: 0 <= j < |blocks| && 0 <= k < |blocks| && j != k ==> Apart(rects, blocks[j], blocks[k])
  }

  /** Some part of `blocks` contains all of `block`. */
  ghost predicate InOnePart(blocks: seq<set<nat>>, block: set<nat>) {
    exists k :: 0 <= k < |blocks| && block <= blocks[k]
  }

  /** Every separate partition keeps `block` in one piece. */
  ghost predicate Inseparable(rects: seq<Rect>, block: set<nat>) {
    forall other :: SeparatePartition(rects, other) ==> InOnePart(other, block)
  }

  /** The finest separate partition: every other one only glues its blocks together. */
  ghost predicate Finest(rects: seq<Rect>, blocks: seq<set<nat>>) {
    SeparatePartition(rects, blocks) && forall k :: 0 <= k < |blocks| ==> Inseparable(rects, blocks[k])
  }

  // ---- Hulls ---------------------------------------------------------------------------

  lemma HullExists(rects: seq<Rect>, block: set<nat>) returns (hull: Rect)
    requires block != {} && forall i :: i in block ==> i < |rects|
    ensures IsHull(rects, block, hull)
    decreases |block|
  {
    var i :| i in block;
    if block == {i} {
      hull := rects[i];
    } else {
      var rest := HullExists(rects, block - {i});
      assert IsHull(rects, {i}, rects[i]);
      hull := rest.Hull(rects[i]);
      HullUnion(rects, block - {i}, rest, {i}, rects[i]);
      assert block - {i} + {i} == block;
    }
  }

  lemma HullUnion(rects: seq<Rect>, a: set<nat>, ha: Rect, b: set<nat>, hb: Rect)
    requires IsHull(rects, a, ha) && IsHull(rects, b, hb)
    ensures IsHull(rects, a + b, ha.Hull(hb))
  {
    forall outer | Encloses(rects, a + b, outer) ensures ha.Hull(hb).Within(outer) {
      assert Encloses(rects, a, outer) && Encloses(rects, b, outer);
    }
  }

  lemma HullMonotone(rects: seq<Rect>, a: set<nat>, ha: Rect, b: set<nat>, hb: Rect)
    requires a <= b && IsHull(rects, a, ha) && IsHull(rects, b, hb)
    ensures ha.Within(hb)
  {
    assert Encloses(rects, a, hb);
  }

  // ---- Why merging is forced -----------------------------------------------------------

  /** Two inseparable blocks whose hulls overlap cannot be kept apart by any separate partition. */
  lemma OverlapForcesMerge(rects: seq<Rect>, a: set<nat>, ha: Rect, b: set<nat>, hb: Rect)
    requires Inseparable(rects, a) && Inseparable(rects, b)
    requires IsHull(rects, a, ha) && IsHull(rects, b, hb) && ha.Overlaps(hb)
    ensures Inseparable(rects, a + b)
  {
    forall other | SeparatePartition(rects, other)
      ensures InOnePart(other, a + b)
    {
      var i :| 0 <= i < |other| && a <= other[i];
      var j :| 0 <= j < |other| && b <= other[j];
      if i != j {
        var hi := HullExists(rects, other[i]);
        var hj := HullExists(rects, other[j]);
        HullMonotone(rects, a, ha, other[i], hi);
        HullMonotone(rects, b, hb, other[j], hj);
        assert hi.Overlaps(hj);
      }
      assert a + b <= other[i];
    }
  }

  lemma SingletonInseparable(rects: seq<Rect>, i: nat)
    requires i < |rects|
    ensures Inseparable(rects, {i}) && IsHull(rects, {i}, rects[i])
  {
    forall other | SeparatePartition(rects, other)
      ensures InOnePart(other, {i})
    {
      assert i in Indices(|rects|);
      var k :| 0 <= k < |other| && i in other[k];
      assert {i} <= other[k];
    }
  }

  // ---- Uniqueness and independence of input order --------------------------------------

  lemma PartAround(blocks: seq<set<nat>>, block: set<nat>) returns (k: nat)
    requires InOnePart(blocks, block)
    ensures k < |blocks| && block <= blocks[k]
  {
    k :| 0 <= k < |blocks| && block <= blocks[k];
  }

  lemma FinestPart(rects: seq<Rect>, a: seq<set<nat>>, b: seq<set<nat>>, i: nat) returns (j: nat)
    requires Finest(rects, a) && SeparatePartition(rects, b) && i < |a|
    ensures j < |b| && a[i] <= b[j]
  {
    assert Inseparable(rects, a[i]);
    j := PartAround(b, a[i]);
  }

  lemma SamePart(n: nat, a: seq<set<nat>>, i: nat, k: nat)
    requires Partition(n, a) && i < |a| && k < |a| && a[i] <= a[k]
    ensures i == k
  {
    hide InSome;
    var x :| x in a[i];
    assert x in a[k];
    assert a[i] * a[k] != {};
  }

  lemma FinestBlockMatches(rects: seq<Rect>, a: seq<set<nat>>, b: seq<set<nat>>, i: nat)
    requires Finest(rects, a) && Finest(rects, b) && i < |a|
    ensures a[i] in b
  {
    hide *;
    assert SeparatePartition(rects, a) && SeparatePartition(rects, b) && Partition(|rects|, a) by {
      FinestIsSeparate(rects, a);
      FinestIsSeparate(rects, b);
    }
    var j := FinestPart(rects, a, b, i);
    var k := FinestPart(rects, b, a, j);
    SamePart(|rects|, a, i, k);
    assert a[i] == b[j];
  }

  lemma FinestIsSeparate(rects: seq<Rect>, a: seq<set<nat>>)
    requires Finest(rects, a)
    ensures SeparatePartition(rects, a) && Partition(|rects|, a)
  {
  }

  /** There is only one finest separate partition. */
  lemma FinestIsUnique(rects: seq<Rect>, a: seq<set<nat>>, b: seq<set<nat>>)
    requires Finest(rects, a) && Finest(rects, b)
    ensures (set s | s in a) == (set s | s in b)
  {
    forall i | 0 <= i < |a| ensures a[i] in b { FinestBlockMatches(rects, a, b, i); }
    forall i | 0 <= i < |b| ensures b[i] in a { FinestBlockMatches(rects, b, a, i); }
  }

  /** `there` renames the positions of `mine` to those of `yours`, and `back` undoes it. */
  ghost predicate Renaming(mine: seq<Rect>, yours: seq<Rect>, there: seq<nat>, back: seq<nat>) {
    && |mine| == |yours| == |there|
    && Inverse(there, back)
    && (forall i :: 0 <= i < |mine| ==> mine[i] == yours[there[i]])
  }

  ghost function Renamed(there: seq<nat>, block: set<nat>): set<nat> {
    set i | i in block && i < |there| :: there[i]
  }

  ghost function AllRenamed(there: seq<nat>, blocks: seq<set<nat>>): seq<set<nat>> {
    seq(|blocks|, k requires 0 <= k < |blocks| => Renamed(there, blocks[k]))
  }

  lemma RenamedHull(mine: seq<Rect>, yours: seq<Rect>, there: seq<nat>, back: seq<nat>, block: set<nat>, hull: Rect)
    requires Renaming(mine, yours, there, back)
    requires forall i :: i in block ==> i < |mine|
    requires IsHull(yours, Renamed(there, block), hull)
    ensures IsHull(mine, block, hull)
  {
    forall outer | Encloses(mine, block, outer) ensures hull.Within(outer) {
      assert Encloses(yours, Renamed(there, block), outer);
    }
    forall i | i in block ensures mine[i].Within(hull) {
      assert there[i] in Renamed(there, block);
    }
  }

  lemma RenamedApart(mine: seq<Rect>, yours: seq<Rect>, there: seq<nat>, back: seq<nat>, a: set<nat>, b: set<nat>)
    requires Renaming(mine, yours, there, back)
    requires a <= Indices(|mine|) && b <= Indices(|mine|) && Apart(mine, a, b)
    ensures Apart(yours, Renamed(there, a), Renamed(there, b))
  {
    forall h, g | IsHull(yours, Renamed(there, a), h) && IsHull(yours, Renamed(there, b), g)
      ensures !h.Overlaps(g)
    {
      RenamedHull(mine, yours, there, back, a, h);
      RenamedHull(mine, yours, there, back, b, g);
    }
  }

  ghost predicate Inverse(there: seq<nat>, back: seq<nat>) {
    && |there| == |back|
    && (forall i :: 0 <= i < |there| ==> there[i] < |there| && back[there[i]] == i)
    && (forall i :: 0 <= i < |there| ==> back[i] < |there| && there[back[i]] == i)
  }

  lemma RenamedBlock(there: seq<nat>, back: seq<nat>, block: set<nat>)
    requires Inverse(there, back) && block <= Indices(|there|)
    ensures Renamed(there, block) <= Indices(|there|)
    ensures forall i :: i in Indices(|there|) ==> (i in Renamed(there, block) <==> back[i] in block)
    ensures block != {} ==> Renamed(there, block) != {}
  {
    forall i | i in Indices(|there|) && back[i] in block ensures i in Renamed(there, block) {
      assert there[back[i]] == i;
    }
    if block != {} {
      var x :| x in block;
      assert x in Indices(|there|);
      assert there[x] in Renamed(there, block);
    }
  }

  lemma RenamedCovers(there: seq<nat>, back: seq<nat>, blocks: seq<set<nat>>, i: nat)
    requires Inverse(there, back) && i in Indices(|there|) && InSome(blocks, back[i])
    ensures InSome(AllRenamed(there, blocks), i)
  {
    var k :| 0 <= k < |blocks| && back[i] in blocks[k];
    assert there[back[i]] in Renamed(there, blocks[k]);
    assert i in AllRenamed(there, blocks)[k];
  }

  lemma RenamedDisjoint(there: seq<nat>, back: seq<nat>, a: set<nat>, b: set<nat>)
    requires Inverse(there, back) && a <= Indices(|there|) && b <= Indices(|there|) && a !! b
    ensures Renamed(there, a) !! Renamed(there, b)
  {
    RenamedBlock(there, back, a);
    RenamedBlock(there, back, b);
  }

  lemma RenamedParts(there: seq<nat>, back: seq<nat>, blocks: seq<set<nat>>)
    requires Inverse(there, back) && Partition(|there|, blocks)
    ensures Partition(|there|, AllRenamed(there, blocks))
  {
    hide InSome;
    hide Renamed;
    var moved := AllRenamed(there, blocks);
    forall k | 0 <= k < |moved| ensures moved[k] != {} && moved[k] <= Indices(|there|) {
      RenamedBlock(there, back, blocks[k]);
    }
    forall i | i in Indices(|there|) ensures InSome(moved, i) {
      assert back[i] in Indices(|there|);
      RenamedCovers(there, back, blocks, i);
    }
    forall j, k | 0 <= j < k < |moved| ensures moved[j] !! moved[k] {
      RenamedDisjoint(there, back, blocks[j], blocks[k]);
    }
  }

  lemma RenamedPartition(mine: seq<Rect>, yours: seq<Rect>, there: seq<nat>, back: seq<nat>, blocks: seq<set<nat>>)
    requires Renaming(mine, yours, there, back) && SeparatePartition(mine, blocks)
    ensures SeparatePartition(yours, AllRenamed(there, blocks))
  {
    RenamedParts(there, back, blocks);
    forall j, k | 0 <= j < |blocks| && 0 <= k < |blocks| && j != k
      ensures Apart(yours, Renamed(there, blocks[j]), Renamed(there, blocks[k]))
    {
      RenamedApart(mine, yours, there, back, blocks[j], blocks[k]);
    }
  }

  lemma RenamingBack(mine: seq<Rect>, yours: seq<Rect>, there: seq<nat>, back: seq<nat>)
    requires Renaming(mine, yours, there, back)
    ensures Renaming(yours, mine, back, there) && |mine| == |yours| == |there| == |back|
  {
  }

  lemma InseparableIn(rects: seq<Rect>, block: set<nat>, parts: seq<set<nat>>) returns (k: nat)
    requires Inseparable(rects, block) && SeparatePartition(rects, parts)
    ensures k < |parts| && block <= parts[k]
  {
    hide SeparatePartition;
    k := PartAround(parts, block);
  }

  /** A block that stays in one piece still does once renamed, whatever the partition. */
  lemma RenamedStaysWhole(mine: seq<Rect>, yours: seq<Rect>, there: seq<nat>, back: seq<nat>, block: set<nat>,
                          other: seq<set<nat>>)
    requires Renaming(mine, yours, there, back) && Inseparable(mine, block) && block <= Indices(|mine|)
    requires SeparatePartition(yours, other)
    ensures InOnePart(other, Renamed(there, block))
  {
    RenamingBack(mine, yours, there, back);
    RenamedPartition(yours, mine, back, there, other);
    hide Apart, Renamed, Inseparable;
    var k := InseparableIn(mine, block, AllRenamed(back, other));
    RenamedPart(there, back, other[k], block);
  }

  lemma RenamedInseparable(mine: seq<Rect>, yours: seq<Rect>, there: seq<nat>, back: seq<nat>, block: set<nat>)
    requires Renaming(mine, yours, there, back) && Inseparable(mine, block)
    requires block <= Indices(|mine|)
    ensures Inseparable(yours, Renamed(there, block))
  {
    hide Renaming, Renamed, SeparatePartition, InOnePart;
    forall other | SeparatePartition(yours, other) ensures InOnePart(other, Renamed(there, block)) {
      hide Inseparable;
      RenamedStaysWhole(mine, yours, there, back, block, other);
    }
  }

  /** A block inside a renamed part comes back inside that part. */
  lemma RenamedPart(there: seq<nat>, back: seq<nat>, part: set<nat>, block: set<nat>)
    requires Inverse(there, back) && part <= Indices(|there|) && block <= Indices(|there|)
             && block <= Renamed(back, part)
    ensures Renamed(there, block) <= part
  {
    RenamedBlock(back, there, part);
    RenamedBlock(there, back, block);
  }

  /** Listing the same polygons in another order gives the same groups. */
  lemma GroupingIgnoresOrder(mine: seq<Rect>, yours: seq<Rect>, there: seq<nat>, back: seq<nat>, a: seq<set<nat>>,
                             b: seq<set<nat>>)
    requires Renaming(mine, yours, there, back)
    requires Finest(mine, a) && Finest(yours, b)
    ensures (set s | s in AllRenamed(there, a)) == (set s | s in b)
  {
    var moved := AllRenamed(there, a);
    RenamedPartition(mine, yours, there, back, a);
    forall k | 0 <= k < |moved| ensures Inseparable(yours, moved[k]) {
      RenamedInseparable(mine, yours, there, back, a[k]);
    }
    FinestIsUnique(yours, moved, b);
  }

  // ---- The algorithm -------------------------------------------------------------------

  ghost function Block(ids: seq<nat>): set<nat> {
    set i | i in ids
  }

  ghost function Blocks(ids: seq<seq<nat>>): seq<set<nat>> {
    seq(|ids|, k requires 0 <= k < |ids| => Block(ids[k]))
  }

  /** `group` carries exactly the polygons numbered `ids`, each once, in their hull. */
  ghost predicate Carries(polygons: seq<Polygon>, rects: seq<Rect>, group: Group, ids: seq<nat>) {
    && |group.members| == |ids|
    && (forall j :: 0 <= j < |ids| ==> ids[j] < |polygons| && group.members[j] == polygons[ids[j]])
    && (forall i, j :: 0 <= i < j < |ids| ==> ids[i] != ids[j])
    && IsHull(rects, Block(ids), group.crop)
  }

  ghost predicate Consistent(polygons: seq<Polygon>, rects: seq<Rect>, groups: seq<Group>, ids: seq<seq<nat>>) {
    && |groups| == |ids|
    && (forall k :: 0 <= k < |ids| ==> Carries(polygons, rects, groups[k], ids[k]) && Inseparable(rects, Block(ids[k])))
    && (forall j, k :: 0 <= j < k < |ids| ==>
        Block(ids[j]) !! Block(ids[k]) && !groups[j].crop.Overlaps(groups[k].crop))
  }

  ghost function Numbered(ids: seq<seq<nat>>): set<nat> {
    set k, i | 0 <= k < |ids| && i in ids[k] :: i
  }

  lemma NumberedWithout(ids: seq<seq<nat>>, k: nat)
    requires k < |ids|
    ensures Numbered(ids) == Numbered(ids[..k] + ids[k + 1..]) + Block(ids[k])
  {
    var rest := ids[..k] + ids[k + 1..];
    forall i | i in Numbered(ids) ensures i in Numbered(rest) + Block(ids[k]) {
      var j :| 0 <= j < |ids| && i in ids[j];
      if j < k { assert rest[j] == ids[j]; }
      if j > k { assert rest[j - 1] == ids[j]; }
    }
    forall i | i in Numbered(rest) ensures i in Numbered(ids) {
      var j :| 0 <= j < |rest| && i in rest[j];
      assert rest[j] == ids[if j < k then j else j + 1];
    }
  }

  lemma NumberedMore(ids: seq<seq<nat>>, more: seq<nat>)
    ensures Numbered(ids + [more]) == Numbered(ids) + Block(more)
  {
    NumberedWithout(ids + [more], |ids|);
    assert (ids + [more])[..|ids|] + (ids + [more])[|ids| + 1..] == ids;
  }

  lemma ConsistentWithout(polygons: seq<Polygon>, rects: seq<Rect>, groups: seq<Group>, ids: seq<seq<nat>>, k: nat)
    requires Consistent(polygons, rects, groups, ids) && k < |ids|
    ensures Consistent(polygons, rects, groups[..k] + groups[k + 1..], ids[..k] + ids[k + 1..])
    ensures Block(ids[k]) !! Numbered(ids[..k] + ids[k + 1..])
  {
    hide Carries, Inseparable;
    var rest := ids[..k] + ids[k + 1..];
    var kept := groups[..k] + groups[k + 1..];
    forall j | 0 <= j < |rest|
      ensures var j' := if j < k then j else j + 1; rest[j] == ids[j'] && kept[j] == groups[j']
    {
    }
    forall j, l | 0 <= j < l < |rest| ensures Block(rest[j]) !! Block(rest[l]) && !kept[j].crop.Overlaps(kept[l].crop) {
      var j', l' := if j < k then j else j + 1, if l < k then l else l + 1;
      assert Block(ids[j']) !! Block(ids[l']);
    }
    forall i | i in Numbered(rest) ensures i !in Block(ids[k]) {
      var j :| 0 <= j < |rest| && i in rest[j];
      var j' := if j < k then j else j + 1;
      assert i in Block(ids[j']);
      assert j' < k ==> Block(ids[j']) !! Block(ids[k]);
    }
  }

  lemma ConsistentMore(polygons: seq<Polygon>, rects: seq<Rect>, groups: seq<Group>, ids: seq<seq<nat>>, group: Group,
                       more: seq<nat>)
    requires Consistent(polygons, rects, groups, ids)
    requires Carries(polygons, rects, group, more) && Inseparable(rects, Block(more))
    requires Block(more) !! Numbered(ids)
    requires forall k :: 0 <= k < |groups| ==> !group.crop.Overlaps(groups[k].crop)
    ensures Consistent(polygons, rects, groups + [group], ids + [more])
  {
    forall j | 0 <= j < |ids| ensures Block(ids[j]) !! Block(more) {
      assert Block(ids[j]) <= Numbered(ids);
    }
  }

  lemma CarriesMerged(polygons: seq<Polygon>, rects: seq<Rect>, a: Group, ia: seq<nat>, b: Group, ib: seq<nat>)
    requires Carries(polygons, rects, a, ia) && Carries(polygons, rects, b, ib)
    requires Block(ia) !! Block(ib)
    requires Inseparable(rects, Block(ia)) && Inseparable(rects, Block(ib)) && b.crop.Overlaps(a.crop)
    ensures Carries(polygons, rects, Group(b.crop.Hull(a.crop), a.members + b.members), ia + ib)
    ensures Inseparable(rects, Block(ia + ib))
    ensures Block(ia + ib) == Block(ia) + Block(ib)
  {
    forall i, j | 0 <= i < j < |ia + ib| ensures (ia + ib)[i] != (ia + ib)[j] {
      if i < |ia| <= j {
        assert (ia + ib)[i] in Block(ia) && (ia + ib)[j] in Block(ib);
      }
    }
    assert Block(ia + ib) == Block(ia) + Block(ib);
    assert a.crop.Hull(b.crop) == b.crop.Hull(a.crop);
    HullUnion(rects, Block(ia), a.crop, Block(ib), b.crop);
    OverlapForcesMerge(rects, Block(ia), a.crop, Block(ib), b.crop);
  }

  lemma ConsistentIsFinest(polygons: seq<Polygon>, rects: seq<Rect>, groups: seq<Group>, ids: seq<seq<nat>>)
    requires Consistent(polygons, rects, groups, ids) && |polygons| == |rects|
    requires Numbered(ids) == Indices(|polygons|)
    ensures Finest(rects, Blocks(ids))
  {
    hide *;
    CarriedParts(polygons, rects, groups, ids);
    CarriedApart(polygons, rects, groups, ids);
    CarriedInseparable(polygons, rects, groups, ids);
    FinestOf(rects, Blocks(ids));
  }

  lemma FinestOf(rects: seq<Rect>, blocks: seq<set<nat>>)
    requires Partition(|rects|, blocks)
    requires forall j, k :: 0 <= j < |blocks| && 0 <= k < |blocks| && j != k ==> Apart(rects, blocks[j], blocks[k])
    requires forall k :: 0 <= k < |blocks| ==> Inseparable(rects, blocks[k])
    ensures Finest(rects, blocks)
  {
  }

  lemma CarriedInseparable(polygons: seq<Polygon>, rects: seq<Rect>, groups: seq<Group>, ids: seq<seq<nat>>)
    requires Consistent(polygons, rects, groups, ids)
    ensures |Blocks(ids)| == |ids|
    ensures forall k :: 0 <= k < |ids| ==> Inseparable(rects, Blocks(ids)[k])
  {
    hide Inseparable;
  }

  lemma CarriedApart(polygons: seq<Polygon>, rects: seq<Rect>, groups: seq<Group>, ids: seq<seq<nat>>)
    requires Consistent(polygons, rects, groups, ids)
    ensures |Blocks(ids)| == |ids|
    ensures forall j, k :: 0 <= j < |ids| && 0 <= k < |ids| && j != k ==> Apart(rects, Blocks(ids)[j], Blocks(ids)[k])
  {
    hide Apart, Inseparable, IsHull;
    forall j, k | 0 <= j < |ids| && 0 <= k < |ids| && j != k ensures Apart(rects, Blocks(ids)[j], Blocks(ids)[k]) {
      assert Carries(polygons, rects, groups[j], ids[j]) && Carries(polygons, rects, groups[k], ids[k]);
      CropsApart(rects, Block(ids[j]), groups[j].crop, Block(ids[k]), groups[k].crop);
    }
  }

  lemma CarriedParts(polygons: seq<Polygon>, rects: seq<Rect>, groups: seq<Group>, ids: seq<seq<nat>>)
    requires Consistent(polygons, rects, groups, ids) && |polygons| == |rects|
    requires Numbered(ids) == Indices(|polygons|)
    ensures Partition(|rects|, Blocks(ids))
  {
    hide InSome, Inseparable, IsHull;
    var blocks := Blocks(ids);
    forall i | i in Indices(|rects|) ensures InSome(blocks, i) {
      BlockAround(ids, i);
    }
    forall k | 0 <= k < |blocks| ensures blocks[k] != {} && blocks[k] <= Indices(|rects|) {
      assert Carries(polygons, rects, groups[k], ids[k]);
      HullIsOfSomething(rects, blocks[k], groups[k].crop);
    }
  }

  lemma BlockAround(ids: seq<seq<nat>>, i: nat)
    requires i in Numbered(ids)
    ensures InSome(Blocks(ids), i)
  {
    var k :| 0 <= k < |ids| && i in ids[k];
    assert i in Blocks(ids)[k];
  }

  /** An empty block has no smallest enclosing rectangle. */
  lemma HullIsOfSomething(rects: seq<Rect>, block: set<nat>, hull: Rect)
    requires IsHull(rects, block, hull)
    ensures block != {}
  {
    if block == {} {
      assert Encloses(rects, block, Rect(hull.left + 1, 0, 0, 0));
    }
  }

  lemma CropsApart(rects: seq<Rect>, a: set<nat>, ha: Rect, b: set<nat>, hb: Rect)
    requires IsHull(rects, a, ha) && IsHull(rects, b, hb) && !ha.Overlaps(hb)
    ensures Apart(rects, a, b)
  {
    forall h, g | IsHull(rects, a, h) && IsHull(rects, b, g) ensures !h.Overlaps(g) {
      HullMonotone(rects, a, h, a, ha);
      HullMonotone(rects, b, g, b, hb);
    }
  }

  /** Absorbs every earlier group the new polygon's area overlaps, until none does. */
  method GroupPolygons(polygons: seq<Polygon>, reach: nat, width: nat, height: nat)
    returns (groups: seq<Group>, ghost ids: seq<seq<nat>>)
    requires forall i :: 0 <= i < |polygons| ==> polygons[i] != []
    ensures |groups| == |ids|
    ensures Finest(Reaches(polygons, reach, width, height), Blocks(ids))
    ensures forall k :: 0 <= k < |groups| ==>
            Carries(polygons, Reaches(polygons, reach, width, height), groups[k], ids[k])
    ensures forall j, k :: 0 <= j < k < |groups| ==> !groups[j].crop.Overlaps(groups[k].crop)
  {
    ghost var rects := Reaches(polygons, reach, width, height);
    groups, ids := [], [];
    for next := 0 to |polygons|
      invariant Consistent(polygons, rects, groups, ids)
      invariant Numbered(ids) == Indices(next)
    {
      var current := Group(Reached(polygons[next], reach, width, height), [polygons[next]]);
      ghost var mine: seq<nat> := [next];
      SingletonInseparable(rects, next);
      assert Block(mine) == {next as nat};
      var merged := true;
      while merged
        invariant Consistent(polygons, rects, groups, ids)
        invariant Carries(polygons, rects, current, mine) && Inseparable(rects, Block(mine))
        invariant Block(mine) !! Numbered(ids)
        invariant Numbered(ids) + Block(mine) == Indices(next + 1)
        invariant !merged ==> forall k :: 0 <= k < |groups| ==> !current.crop.Overlaps(groups[k].crop)
        decreases |groups|, merged
      {
        merged := false;
        var index := 0;
        while index < |groups|
          invariant 0 <= index <= |groups|
          invariant forall k :: 0 <= k < index ==> !current.crop.Overlaps(groups[k].crop)
        {
          if current.crop.Overlaps(groups[index].crop) {
            NumberedWithout(ids, index);
            ConsistentWithout(polygons, rects, groups, ids, index);
            CarriesMerged(polygons, rects, groups[index], ids[index], current, mine);
            current := Group(current.crop.Hull(groups[index].crop), groups[index].members + current.members);
            mine := ids[index] + mine;
            groups := groups[..index] + groups[index + 1..];
            ids := ids[..index] + ids[index + 1..];
            merged := true;
            break;
          }
          index := index + 1;
        }
      }
      ConsistentMore(polygons, rects, groups, ids, current, mine);
      NumberedMore(ids, mine);
      groups := groups + [current];
      ids := ids + [mine];
    }
    ConsistentIsFinest(polygons, rects, groups, ids);
  }
}
