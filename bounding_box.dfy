/** An inclusive, block-granular, axis-aligned box over Java `int` coordinates.
    `Box` is the value of the six bounds and carries the algebra; `BoundingBox` is the
    mutable object whose methods overwrite its six fields in place. */
module BoundingBoxes {
  import opened Wrappers
  import opened JavaInt

  /** A block position. */
  datatype Point = Point(x: int32, y: int32, z: int32)

  /** The six bounds as stored. Boxes built through the normalising paths have
      min <= max on every axis; `Normalised` says so. */
  datatype Box = Box(minX: int32, minY: int32, minZ: int32, maxX: int32, maxY: int32, maxZ: int32)
  {
    predicate Normalised()
    {
      minX <= maxX && minY <= maxY && minZ <= maxZ
    }

    // ----- size getters (Java `int`/`long` arithmetic, which wraps) -----

    function Length(): (r: int32)
      ensures (r - (maxX - minX + 1)) % TWO_32 == 0
      ensures Normalised() && InInt32(maxX - minX + 1) ==> r >= 1
    {
      Wrap32(maxX - minX + 1)
    }

    function Height(): (r: int32)
      ensures (r - (maxY - minY + 1)) % TWO_32 == 0
      ensures Normalised() && InInt32(maxY - minY + 1) ==> r >= 1
    {
      Wrap32(maxY - minY + 1)
    }

    function Width(): (r: int32)
      ensures (r - (maxZ - minZ + 1)) % TWO_32 == 0
      ensures Normalised() && InInt32(maxZ - minZ + 1) ==> r >= 1
    {
      Wrap32(maxZ - minZ + 1)
    }

    /** The base area: widening one factor to `long` makes the product exact. */
    function Area(): (r: int64)
      ensures r == Length() as int * Width() as int
    {
      ProductOfIntsFitsLong(Length(), Width());
      Wrap64(Length() as int * Width() as int)
    }

    function Volume(): (r: int64)
      ensures (r - Area() as int * Height() as int) % TWO_64 == 0
    {
      Wrap64(Area() as int * Height() as int)
    }

    // ----- containment -----

    predicate Contains2d(x: int, z: int)
    {
      minX <= x <= maxX && minZ <= z <= maxZ
    }

    predicate Contains(x: int, y: int, z: int)
    {
      Contains2d(x, z) && minY <= y <= maxY
    }

    predicate ContainsPoint(p: Point)
    {
      Contains(p.x, p.y, p.z)
    }

    /** `contains(BoundingBox)`: the other box's bounds lie within this one's. */
    predicate ContainsBox(o: Box)
    {
      minX <= o.minX && o.maxX <= maxX && minZ <= o.minZ && o.maxZ <= maxZ
      && minY <= o.minY && o.maxY <= maxY
    }

    /** `contains2d(BoundingBox)`: the XZ bounds only. */
    predicate Contains2dBox(o: Box)
    {
      minX <= o.minX && o.maxX <= maxX && minZ <= o.minZ && o.maxZ <= maxZ
    }

    /** `contains2d(x1, z1, x2, z2)`: the rectangle with these corners, in either order. */
    predicate Contains2dRect(x1: int32, z1: int32, x2: int32, z2: int32)
    {
      Contains2dBox(Normalise(x1, 0, z1, x2, 0, z2))
    }

    /** `contains(x1, y1, z1, x2, y2, z2)`: the box with these corners, in either order. */
    predicate ContainsRegion(x1: int32, y1: int32, z1: int32, x2: int32, y2: int32, z2: int32)
    {
      ContainsBox(Normalise(x1, y1, z1, x2, y2, z2))
    }

    predicate Intersects(o: Box)
    {
      minX <= o.maxX && maxX >= o.minX && minY <= o.maxY && maxY >= o.minY
      && minZ <= o.maxZ && maxZ >= o.minZ
    }

    predicate Intersects2d(o: Box)
    {
      minX <= o.maxX && maxX >= o.minX && minZ <= o.maxZ && maxZ >= o.minZ
    }

    /** `intersection`: None (Java null) when the boxes do not intersect, otherwise
        exactly the points the two boxes share. */
    function Intersection(o: Box): (r: Option<Box>)
      ensures r.None? <==> !Intersects(o)
      ensures r.Some? ==> ContainsBox(r.value) && o.ContainsBox(r.value)
      ensures r.Some? && Normalised() && o.Normalised() ==> r.value.Normalised()
      ensures r.Some? ==> forall x, y, z :: r.value.Contains(x, y, z) <==> Contains(x, y, z) && o.Contains(x, y, z)
    {
      if !Intersects(o) then None
      else Some(Box(Max(minX, o.minX), Max(minY, o.minY), Max(minZ, o.minZ),
                    Min(maxX, o.maxX), Min(maxY, o.maxY), Min(maxZ, o.maxZ)))
    }

    // ----- the values the mutators of BoundingBox produce -----

    /** `setX`/`verifyX`: new X bounds in either order, Y and Z untouched. */
    function WithX(x1: int32, x2: int32): (r: Box)
      ensures r.minX <= r.maxX && {r.minX, r.maxX} == {x1, x2}
      ensures r == this.(minX := r.minX, maxX := r.maxX)
    {
      if x1 < x2 then this.(minX := x1, maxX := x2) else this.(minX := x2, maxX := x1)
    }

    function WithY(y1: int32, y2: int32): (r: Box)
      ensures r.minY <= r.maxY && {r.minY, r.maxY} == {y1, y2}
      ensures r == this.(minY := r.minY, maxY := r.maxY)
    {
      if y1 < y2 then this.(minY := y1, maxY := y2) else this.(minY := y2, maxY := y1)
    }

    function WithZ(z1: int32, z2: int32): (r: Box)
      ensures r.minZ <= r.maxZ && {r.minZ, r.maxZ} == {z1, z2}
      ensures r == this.(minZ := r.minZ, maxZ := r.maxZ)
    {
      if z1 < z2 then this.(minZ := z1, maxZ := z2) else this.(minZ := z2, maxZ := z1)
    }

    /** `expandX`: both X bounds pushed outwards by x; a negative x re-normalises the axis. */
    function ExpandX(x: int32): (r: Box)
      requires InInt32(minX - x) && InInt32(maxX + x)
      ensures r == this.(minX := r.minX, maxX := r.maxX)
      ensures x >= 0 ==> r.minX == minX - x && r.maxX == maxX + x
      ensures x < 0 ==> r.minX <= r.maxX && {r.minX, r.maxX} == {minX - x, maxX + x}
    {
      var e := this.(minX := minX - x, maxX := maxX + x);
      if x < 0 then e.WithX(e.minX, e.maxX) else e
    }

    function ExpandY(y: int32): (r: Box)
      requires InInt32(minY - y) && InInt32(maxY + y)
      ensures r == this.(minY := r.minY, maxY := r.maxY)
      ensures y >= 0 ==> r.minY == minY - y && r.maxY == maxY + y
      ensures y < 0 ==> r.minY <= r.maxY && {r.minY, r.maxY} == {minY - y, maxY + y}
    {
      var e := this.(minY := minY - y, maxY := maxY + y);
      if y < 0 then e.WithY(e.minY, e.maxY) else e
    }

    function ExpandZ(z: int32): (r: Box)
      requires InInt32(minZ - z) && InInt32(maxZ + z)
      ensures r == this.(minZ := r.minZ, maxZ := r.maxZ)
      ensures z >= 0 ==> r.minZ == minZ - z && r.maxZ == maxZ + z
      ensures z < 0 ==> r.minZ <= r.maxZ && {r.minZ, r.maxZ} == {minZ - z, maxZ + z}
    {
      var e := this.(minZ := minZ - z, maxZ := maxZ + z);
      if z < 0 then e.WithZ(e.minZ, e.maxZ) else e
    }

    predicate CanExpand3(x: int32, y: int32, z: int32)
    {
      InInt32(minX - x) && InInt32(maxX + x) && InInt32(minY - y) && InInt32(maxY + y)
      && InInt32(minZ - z) && InInt32(maxZ + z)
    }

    /** `expand(x, y, z)`: expandX, then expandY, then expandZ. */
    function Expand3(x: int32, y: int32, z: int32): (r: Box)
      requires CanExpand3(x, y, z)
    {
      ExpandX(x).ExpandY(y).ExpandZ(z)
    }

    predicate CanExpand(nx: int32, ny: int32, nz: int32, px: int32, py: int32, pz: int32)
    {
      InInt32(minX - nx) && InInt32(minY - ny) && InInt32(minZ - nz)
      && InInt32(maxX + px) && InInt32(maxY + py) && InInt32(maxZ + pz)
    }

    /** `expand(6 ints)`: resize to (min - negative, max + positive). */
    function Expand(nx: int32, ny: int32, nz: int32, px: int32, py: int32, pz: int32): (r: Box)
      requires CanExpand(nx, ny, nz, px, py, pz)
      ensures r.Normalised()
    {
      Normalise(minX - nx, minY - ny, minZ - nz, maxX + px, maxY + py, maxZ + pz)
    }

    /** `set(6 ints, true)`: every new min is capped by the current max and every new max
        is floored by the current min. The result is not re-normalised. */
    function SetClamped(x1: int32, y1: int32, z1: int32, x2: int32, y2: int32, z2: int32): (r: Box)
      ensures r.minX <= maxX && r.minY <= maxY && r.minZ <= maxZ
      ensures r.maxX >= minX && r.maxY >= minY && r.maxZ >= minZ
      ensures (x1 <= maxX ==> r.minX == x1) && (x2 >= minX ==> r.maxX == x2)
      ensures (y1 <= maxY ==> r.minY == y1) && (y2 >= minY ==> r.maxY == y2)
      ensures (z1 <= maxZ ==> r.minZ == z1) && (z2 >= minZ ==> r.maxZ == z2)
    {
      Box(Min(maxX, x1), Min(maxY, y1), Min(maxZ, z1), Max(minX, x2), Max(minY, y2), Max(minZ, z2))
    }

    predicate CanMove(dx: int32, dy: int32, dz: int32)
    {
      InInt32(minX + dx) && InInt32(minY + dy) && InInt32(minZ + dz)
      && InInt32(maxX + dx) && InInt32(maxY + dy) && InInt32(maxZ + dz)
    }

    /** `move(x, y, z)`: resize to both corners shifted by the delta. */
    function Move(dx: int32, dy: int32, dz: int32): (r: Box)
      requires CanMove(dx, dy, dz)
      ensures r.Normalised()
    {
      Normalise(minX + dx, minY + dy, minZ + dz, maxX + dx, maxY + dy, maxZ + dz)
    }

    /** `union(x, y, z)`: the per-axis min/max with the point. */
    function UnionPoint(x: int32, y: int32, z: int32): (r: Box)
      ensures r.minX == Min(x, minX) && r.maxX == Max(x, maxX)
      ensures r.minY == Min(y, minY) && r.maxY == Max(y, maxY)
      ensures r.minZ == Min(z, minZ) && r.maxZ == Max(z, maxZ)
    {
      Box(Min(x, minX), Min(y, minY), Min(z, minZ), Max(x, maxX), Max(y, maxY), Max(z, maxZ))
    }

    /** `union(BoundingBox)`: the per-axis min/max with the other box. */
    function UnionBox(o: Box): (r: Box)
      ensures r.minX == Min(minX, o.minX) && r.maxX == Max(maxX, o.maxX)
      ensures r.minY == Min(minY, o.minY) && r.maxY == Max(maxY, o.maxY)
      ensures r.minZ == Min(minZ, o.minZ) && r.maxZ == Max(maxZ, o.maxZ)
    {
      Box(Min(minX, o.minX), Min(minY, o.minY), Min(minZ, o.minZ),
          Max(maxX, o.maxX), Max(maxY, o.maxY), Max(maxZ, o.maxZ))
    }
  }

  /** The normalising constructor (`verify`) and `resize(6 ints)`: per axis, the
      smaller coordinate becomes the min and the larger the max. */
  function Normalise(x1: int32, y1: int32, z1: int32, x2: int32, y2: int32, z2: int32): (b: Box)
    ensures b.Normalised()
    ensures b.minX == Min(x1, x2) && b.maxX == Max(x1, x2)
    ensures b.minY == Min(y1, y2) && b.maxY == Max(y1, y2)
    ensures b.minZ == Min(z1, z2) && b.maxZ == Max(z1, z2)
  {
    Box(0, 0, 0, 0, 0, 0).WithX(x1, x2).WithY(y1, y2).WithZ(z1, z2)
  }

  /** The single-block box a `Block` constructs, without verification. */
  function OfPoint(p: Point): (b: Box)
    ensures b.Normalised() && b.ContainsPoint(p)
    ensures forall q: Point :: b.ContainsPoint(q) <==> q == p
  {
    Box(p.x, p.y, p.z, p.x, p.y, p.z)
  }

  // ----- lemmas -----

  /** The product of two Java `int`s always fits in a `long`. */
  lemma ProductOfIntsFitsLong(a: int32, b: int32)
    ensures InInt64(a as int * b as int)
  {
    var ua: int := if a < 0 then -(a as int) else a;
    var ub: int := if b < 0 then -(b as int) else b;
    assert ua * ub <= 0x8000_0000 * ub by { MulMonotone(ua, 0x8000_0000, ub); }
    assert 0x8000_0000 * ub <= 0x8000_0000 * 0x8000_0000 by { MulMonotone(ub, 0x8000_0000, 0x8000_0000); }
    assert a as int * b as int == ua * ub || a as int * b as int == -(ua * ub);
  }

  lemma MulMonotone(x: int, y: int, k: int)
    requires 0 <= x <= y && 0 <= k
    ensures x * k <= y * k
  {
  }

  /** Points of a normalised box are exactly the integer points between its bounds,
      and `ContainsBox` means containing every point of the other (normalised) box. */
  lemma ContainsBoxMeansAllPoints(a: Box, b: Box)
    requires b.Normalised()
    ensures a.ContainsBox(b) <==> (forall x, y, z :: b.Contains(x, y, z) ==> a.Contains(x, y, z))
  {
    if forall x, y, z :: b.Contains(x, y, z) ==> a.Contains(x, y, z) {
      assert b.Contains(b.minX, b.minY, b.minZ);
      assert b.Contains(b.maxX, b.maxY, b.maxZ);
    }
  }

  /** `v` lies between the two ends, taken in either order. */
  predicate Between(v: int, e1: int, e2: int)
  {
    Min(e1, e2) <= v <= Max(e1, e2)
  }

  /** `contains(x1, y1, z1, x2, y2, z2)` holds exactly when every block of the region
      with these corners, in either order, is in the box. */
  lemma ContainsRegionMeans(a: Box, x1: int32, y1: int32, z1: int32, x2: int32, y2: int32, z2: int32)
    ensures a.ContainsRegion(x1, y1, z1, x2, y2, z2) <==>
      forall x, y, z :: Between(x, x1, x2) && Between(y, y1, y2) && Between(z, z1, z2) ==> a.Contains(x, y, z)
  {
    ContainsBoxMeansAllPoints(a, Normalise(x1, y1, z1, x2, y2, z2));
  }

  /** `contains2d(x1, z1, x2, z2)` holds exactly when every column of the rectangle
      with these corners, in either order, is in the box. */
  lemma Contains2dRectMeans(a: Box, x1: int32, z1: int32, x2: int32, z2: int32)
    ensures a.Contains2dRect(x1, z1, x2, z2) <==>
      forall x, z :: Between(x, x1, x2) && Between(z, z1, z2) ==> a.Contains2d(x, z)
  {
    if forall x, z :: Between(x, x1, x2) && Between(z, z1, z2) ==> a.Contains2d(x, z) {
      assert a.Contains2d(Min(x1, x2), Min(z1, z2));
      assert a.Contains2d(Max(x1, x2), Max(z1, z2));
    }
  }

  lemma ContainsBoxReflexive(a: Box)
    ensures a.ContainsBox(a)
  {
  }

  lemma ContainsBoxTransitive(a: Box, b: Box, c: Box)
    requires a.ContainsBox(b) && b.ContainsBox(c)
    ensures a.ContainsBox(c)
  {
  }

  /** `contains` on a box implies the XZ containment. */
  lemma ContainsImplies2d(a: Box, b: Box)
    requires a.ContainsBox(b)
    ensures a.Contains2dBox(b)
  {
  }

  lemma IntersectsSymmetric(a: Box, b: Box)
    ensures a.Intersects(b) <==> b.Intersects(a)
    ensures a.Intersects2d(b) <==> b.Intersects2d(a)
  {
  }

  /** For normalised boxes, `intersects` holds iff the boxes share a point, and
      `intersects2d` iff they share a column. */
  lemma IntersectsMeansCommonPoint(a: Box, b: Box)
    requires a.Normalised() && b.Normalised()
    ensures a.Intersects(b) <==> exists x, y, z :: a.Contains(x, y, z) && b.Contains(x, y, z)
    ensures a.Intersects2d(b) <==> exists x, z :: a.Contains2d(x, z) && b.Contains2d(x, z)
  {
    if a.Intersects(b) {
      var c := a.Intersection(b).value;
      assert c.Contains(c.minX, c.minY, c.minZ);
    }
    if a.Intersects2d(b) {
      var x, z := Max(a.minX, b.minX), Max(a.minZ, b.minZ);
      assert a.Contains2d(x, z) && b.Contains2d(x, z);
    }
  }

  /** Union with a point is the least box containing the old box and the point. */
  lemma UnionPointLeast(b: Box, x: int32, y: int32, z: int32, c: Box)
    ensures b.UnionPoint(x, y, z).ContainsBox(b) && b.UnionPoint(x, y, z).Contains(x, y, z)
    ensures c.ContainsBox(b) && c.Contains(x, y, z) ==> c.ContainsBox(b.UnionPoint(x, y, z))
  {
  }

  /** Union with a box is the least box containing both. */
  lemma UnionBoxLeast(a: Box, b: Box, c: Box)
    ensures a.UnionBox(b).ContainsBox(a) && a.UnionBox(b).ContainsBox(b)
    ensures c.ContainsBox(a) && c.ContainsBox(b) ==> c.ContainsBox(a.UnionBox(b))
    ensures a.Normalised() ==> a.UnionBox(b).Normalised()
  {
  }

  /** Moving a normalised box shifts both corners by the delta and keeps every size. */
  lemma MoveShifts(b: Box, dx: int32, dy: int32, dz: int32)
    requires b.Normalised() && b.CanMove(dx, dy, dz)
    ensures var m := b.Move(dx, dy, dz);
      m.minX == b.minX + dx && m.maxX == b.maxX + dx
      && m.minY == b.minY + dy && m.maxY == b.maxY + dy
      && m.minZ == b.minZ + dz && m.maxZ == b.maxZ + dz
      && m.Length() == b.Length() && m.Height() == b.Height() && m.Width() == b.Width()
    ensures forall x, y, z :: b.Move(dx, dy, dz).Contains(x, y, z) <==> b.Contains(x - dx, y - dy, z - dz)
  {
  }

  /** `expand(6 ints)` with non-negative amounts from a normalised box grows it. */
  lemma ExpandGrows(b: Box, nx: int32, ny: int32, nz: int32, px: int32, py: int32, pz: int32)
    requires b.Normalised() && b.CanExpand(nx, ny, nz, px, py, pz)
    requires nx >= 0 && ny >= 0 && nz >= 0 && px >= 0 && py >= 0 && pz >= 0
    ensures b.Expand(nx, ny, nz, px, py, pz).ContainsBox(b)
    ensures b.Expand(nx, ny, nz, px, py, pz) ==
      Box(b.minX - nx, b.minY - ny, b.minZ - nz, b.maxX + px, b.maxY + py, b.maxZ + pz)
  {
  }

  /** Expanding by non-negative amounts contains the old box. */
  lemma Expand3Grows(b: Box, x: int32, y: int32, z: int32)
    requires b.CanExpand3(x, y, z) && x >= 0 && y >= 0 && z >= 0
    ensures b.Expand3(x, y, z).ContainsBox(b)
    ensures b.Expand3(x, y, z) ==
      Box(b.minX - x, b.minY - y, b.minZ - z, b.maxX + x, b.maxY + y, b.maxZ + z)
  {
  }

  /** Expanding a normalised box re-normalises or keeps it normalised, whatever the amounts. */
  lemma Expand3Normalised(b: Box, x: int32, y: int32, z: int32)
    requires b.Normalised() && b.CanExpand3(x, y, z)
    ensures b.Expand3(x, y, z).Normalised()
  {
  }

  /** Clamped `set` on a normalised box with requested bounds in order stays normalised,
      and once the requested bounds lie inside the box it is exactly the requested box. */
  lemma SetClampedInside(b: Box, x1: int32, y1: int32, z1: int32, x2: int32, y2: int32, z2: int32)
    requires b.Normalised()
    requires b.ContainsBox(Box(x1, y1, z1, x2, y2, z2)) && Box(x1, y1, z1, x2, y2, z2).Normalised()
    ensures b.SetClamped(x1, y1, z1, x2, y2, z2) == Box(x1, y1, z1, x2, y2, z2)
  {
  }

  /** The area and volume of the claim geometry agree with the axis sizes when nothing overflows. */
  lemma SizesOfSmallBox(b: Box)
    requires b.Normalised()
    requires InInt32(b.maxX - b.minX + 1) && InInt32(b.maxY - b.minY + 1) && InInt32(b.maxZ - b.minZ + 1)
    requires InInt64((b.maxX - b.minX + 1) * (b.maxZ - b.minZ + 1) * (b.maxY - b.minY + 1))
    ensures b.Length() == b.maxX - b.minX + 1 && b.Height() == b.maxY - b.minY + 1 && b.Width() == b.maxZ - b.minZ + 1
    ensures b.Area() == b.Length() * b.Width()
    ensures b.Volume() == b.Length() * b.Width() * b.Height()
  {
  }

  // ----- ofBlocks -----

  /** The box `ofBlocks` builds: the first block's box, unioned with each further block. */
  function Bounding(blocks: seq<Point>): (b: Box)
    requires |blocks| > 0
    ensures b.Normalised()
    decreases |blocks|
  {
    if |blocks| == 1 then OfPoint(blocks[0])
    else
      var last := blocks[|blocks| - 1];
      Bounding(blocks[..|blocks| - 1]).UnionPoint(last.x, last.y, last.z)
  }

  /** The box contains every block, and is the least box that does. */
  lemma {:induction false} BoundingLeast(blocks: seq<Point>, c: Box)
    requires |blocks| > 0
    ensures forall i :: 0 <= i < |blocks| ==> Bounding(blocks).ContainsPoint(blocks[i])
    ensures (forall i :: 0 <= i < |blocks| ==> c.ContainsPoint(blocks[i])) ==> c.ContainsBox(Bounding(blocks))
    decreases |blocks|
  {
    if |blocks| > 1 {
      var init := blocks[..|blocks| - 1];
      var last := blocks[|blocks| - 1];
      BoundingLeast(init, c);
      assert forall i :: 0 <= i < |init| ==> init[i] == blocks[i];
      UnionPointLeast(Bounding(init), last.x, last.y, last.z, c);
      forall i | 0 <= i < |blocks|
        ensures Bounding(blocks).ContainsPoint(blocks[i])
      {
        if i < |init| {
          assert Bounding(init).ContainsPoint(init[i]);
        }
      }
    }
  }

  /** The mutable box. Every method is specified by the `Box` value it leaves behind. */
  class BoundingBox {
    var minX: int32
    var minY: int32
    var minZ: int32
    var maxX: int32
    var maxY: int32
    var maxZ: int32

    function Value(): Box
      reads this
    {
      Box(minX, minY, minZ, maxX, maxY, maxZ)
    }

    /** The public six-int constructor: normalises. */
    constructor (x1: int32, y1: int32, z1: int32, x2: int32, y2: int32, z2: int32)
      ensures Value() == Normalise(x1, y1, z1, x2, y2, z2)
    {
      var b := Normalise(x1, y1, z1, x2, y2, z2);
      minX, minY, minZ, maxX, maxY, maxZ := b.minX, b.minY, b.minZ, b.maxX, b.maxY, b.maxZ;
    }

    /** The protected constructor: normalises only when asked to. */
    constructor Init(x1: int32, y1: int32, z1: int32, x2: int32, y2: int32, z2: int32, verify: bool)
      ensures verify ==> Value() == Normalise(x1, y1, z1, x2, y2, z2)
      ensures !verify ==> Value() == Box(x1, y1, z1, x2, y2, z2)
    {
      var b := if verify then Normalise(x1, y1, z1, x2, y2, z2) else Box(x1, y1, z1, x2, y2, z2);
      minX, minY, minZ, maxX, maxY, maxZ := b.minX, b.minY, b.minZ, b.maxX, b.maxY, b.maxZ;
    }

    /** The `Block` constructor: the single block. */
    constructor OfBlock(p: Point)
      ensures Value() == OfPoint(p)
    {
      minX, minY, minZ, maxX, maxY, maxZ := p.x, p.y, p.z, p.x, p.y, p.z;
    }

    /** `copy(Claim)`: the box takes over the bounds of a claim's box value. */
    method Assign(b: Box)
      modifies this
      ensures Value() == b
    {
      minX, minY, minZ, maxX, maxY, maxZ := b.minX, b.minY, b.minZ, b.maxX, b.maxY, b.maxZ;
    }

    method Copy(other: BoundingBox)
      modifies this
      ensures Value() == old(other.Value())
    {
      minX, minY, minZ, maxX, maxY, maxZ := other.minX, other.minY, other.minZ, other.maxX, other.maxY, other.maxZ;
    }

    method Expand(nx: int32, ny: int32, nz: int32, px: int32, py: int32, pz: int32)
      requires Value().CanExpand(nx, ny, nz, px, py, pz)
      modifies this
      ensures Value() == old(Value()).Expand(nx, ny, nz, px, py, pz)
    {
      Resize(minX - nx, minY - ny, minZ - nz, maxX + px, maxY + py, maxZ + pz);
    }

    method ExpandX(x: int32)
      requires InInt32(minX - x) && InInt32(maxX + x)
      modifies this
      ensures Value() == old(Value()).ExpandX(x)
    {
      minX := minX - x;
      maxX := maxX + x;
      if x < 0 { SetX(minX, maxX); }
    }

    method ExpandY(y: int32)
      requires InInt32(minY - y) && InInt32(maxY + y)
      modifies this
      ensures Value() == old(Value()).ExpandY(y)
    {
      minY := minY - y;
      maxY := maxY + y;
      if y < 0 { SetY(minY, maxY); }
    }

    method ExpandZ(z: int32)
      requires InInt32(minZ - z) && InInt32(maxZ + z)
      modifies this
      ensures Value() == old(Value()).ExpandZ(z)
    {
      minZ := minZ - z;
      maxZ := maxZ + z;
      if z < 0 { SetZ(minZ, maxZ); }
    }

    method Expand3(x: int32, y: int32, z: int32)
      requires Value().CanExpand3(x, y, z)
      modifies this
      ensures Value() == old(Value()).Expand3(x, y, z)
    {
      ExpandX(x);
      ExpandY(y);
      ExpandZ(z);
    }

    /** `expand(int)`: the same amount on every axis. */
    method ExpandAll(e: int32)
      requires Value().CanExpand3(e, e, e)
      modifies this
      ensures Value() == old(Value()).Expand3(e, e, e)
    {
      Expand3(e, e, e);
    }

    method SetX(x1: int32, x2: int32)
      modifies this
      ensures Value() == old(Value()).WithX(x1, x2)
    {
      if x1 < x2 { minX, maxX := x1, x2; } else { minX, maxX := x2, x1; }
    }

    method SetY(y1: int32, y2: int32)
      modifies this
      ensures Value() == old(Value()).WithY(y1, y2)
    {
      if y1 < y2 { minY, maxY := y1, y2; } else { minY, maxY := y2, y1; }
    }

    method SetZ(z1: int32, z2: int32)
      modifies this
      ensures Value() == old(Value()).WithZ(z1, z2)
    {
      if z1 < z2 { minZ, maxZ := z1, z2; } else { minZ, maxZ := z2, z1; }
    }

    /** `set(6 ints, clamp)`. */
    method Set(x1: int32, y1: int32, z1: int32, x2: int32, y2: int32, z2: int32, clamp: bool)
      modifies this
      ensures clamp ==> Value() == old(Value()).SetClamped(x1, y1, z1, x2, y2, z2)
      ensures !clamp ==> Value() == Normalise(x1, y1, z1, x2, y2, z2)
    {
      var a1, b1, c1, a2, b2, c2 := x1, y1, z1, x2, y2, z2;
      if clamp {
        a1, b1, c1 := Min(maxX, a1), Min(maxY, b1), Min(maxZ, c1);
        a2, b2, c2 := Max(minX, a2), Max(minY, b2), Max(minZ, c2);
      }
      minX, minY, minZ, maxX, maxY, maxZ := a1, b1, c1, a2, b2, c2;
      if !clamp {
        SetX(a1, a2);
        SetY(b1, b2);
        SetZ(c1, c2);
      }
    }

    method Resize(x1: int32, y1: int32, z1: int32, x2: int32, y2: int32, z2: int32)
      modifies this
      ensures Value() == Normalise(x1, y1, z1, x2, y2, z2)
    {
      minX, minY, minZ := Min(x1, x2), Min(y1, y2), Min(z1, z2);
      maxX, maxY, maxZ := Max(x1, x2), Max(y1, y2), Max(z1, z2);
    }

    method Move(dx: int32, dy: int32, dz: int32)
      requires Value().CanMove(dx, dy, dz)
      modifies this
      ensures Value() == old(Value()).Move(dx, dy, dz)
    {
      Resize(minX + dx, minY + dy, minZ + dz, maxX + dx, maxY + dy, maxZ + dz);
    }

    method UnionPoint(x: int32, y: int32, z: int32)
      modifies this
      ensures Value() == old(Value()).UnionPoint(x, y, z)
    {
      minX, maxX := Min(x, minX), Max(x, maxX);
      minY, maxY := Min(y, minY), Max(y, maxY);
      minZ, maxZ := Min(z, minZ), Max(z, maxZ);
    }

    method UnionBox(other: BoundingBox)
      modifies this
      ensures Value() == old(Value()).UnionBox(old(other.Value()))
    {
      var o := other.Value();
      minX, maxX := Min(minX, o.minX), Max(maxX, o.maxX);
      minY, maxY := Min(minY, o.minY), Max(maxY, o.maxY);
      minZ, maxZ := Min(minZ, o.minZ), Max(maxZ, o.maxZ);
    }

    /** `intersection`: a fresh, unverified box, or null. */
    method Intersection(other: BoundingBox) returns (r: BoundingBox?)
      ensures r == null <==> !Value().Intersects(other.Value())
      ensures r != null ==> fresh(r) && Value().Intersection(other.Value()) == Some(r.Value())
    {
      var i := Value().Intersection(other.Value());
      if i.None? {
        r := null;
      } else {
        var b := i.value;
        r := new BoundingBox.Init(b.minX, b.minY, b.minZ, b.maxX, b.maxY, b.maxZ, false);
      }
    }

    method Clone() returns (r: BoundingBox)
      ensures fresh(r) && r.Value() == Value()
    {
      r := new BoundingBox.Init(minX, minY, minZ, maxX, maxY, maxZ, false);
    }

    /** `equals`: the same six bounds. */
    predicate Equals(o: BoundingBox)
      reads this, o
    {
      Value() == o.Value()
    }
  }

  /** `ofBlocks`: None where Java throws for an empty collection, otherwise a fresh box
      built by unioning the blocks in order. */
  method OfBlocks(blocks: seq<Point>) returns (r: Option<BoundingBox>)
    ensures r.None? <==> |blocks| == 0
    ensures r.Some? ==> fresh(r.value) && r.value.Value() == Bounding(blocks)
  {
    if |blocks| == 0 {
      return None;
    }
    var box := new BoundingBox.OfBlock(blocks[0]);
    var i := 1;
    while i < |blocks|
      invariant 1 <= i <= |blocks|
      invariant fresh(box)
      invariant box.Value() == Bounding(blocks[..i])
    {
      assert blocks[..i + 1][..i] == blocks[..i];
      box.UnionPoint(blocks[i].x, blocks[i].y, blocks[i].z);
      i := i + 1;
    }
    assert blocks[..|blocks|] == blocks;
    r := Some(box);
  }
}
