/** The chunk index of the data store: the 64-bit chunk hash, the hashes of the
    chunks a box covers, and the bucket updates `addToChunkClaimMap` and
    `removeFromChunkClaimMap` make to the hash-to-claims map. */
module ChunkIndex {
  import opened Wrappers
  import opened JavaInt
  import opened BoundingBoxes
  import opened Claims

  /** `getChunkHash(chunkx, chunkz)`, that is `chunkz ^ (chunkx << 32)` on longs: the
      low word holds chunkz's bits, and the high word chunkx's bits, inverted when
      chunkz is negative (its sign extension is all ones). */
  function ChunkHash(chunkx: int32, chunkz: int32): (h: int64)
    ensures h % TWO_32 == chunkz as int % TWO_32
    ensures h / TWO_32 == HighWord(chunkx, chunkz)
  {
    var high := HighWord(chunkx, chunkz);
    var low := chunkz as int % TWO_32;
    WordsSplit(high, low);
    high * TWO_32 + low
  }

  /** The high word of the hash: chunkx, XORed with chunkz's sign extension. */
  function HighWord(chunkx: int32, chunkz: int32): (w: int32)
    ensures chunkz >= 0 ==> w == chunkx
    ensures chunkz < 0 ==> w == -(chunkx as int) - 1
  {
    if chunkz >= 0 then chunkx else -(chunkx as int) - 1
  }

  /** A signed high word and an unsigned low word make one long, from which the words
      come back by division and remainder. */
  lemma WordsSplit(high: int32, low: int)
    requires 0 <= low < TWO_32
    ensures InInt64(high * TWO_32 + low)
    ensures (high * TWO_32 + low) % TWO_32 == low && (high * TWO_32 + low) / TWO_32 == high
  {
    assert -0x8000_0000 * TWO_32 <= high * TWO_32 <= 0x7FFF_FFFF * TWO_32;
  }

  /** The hash never maps two chunks to the same long; the Java comment at
      `getChunkHash` calls it only "almost-unique". */
  lemma ChunkHashInjective(x1: int32, z1: int32, x2: int32, z2: int32)
    requires ChunkHash(x1, z1) == ChunkHash(x2, z2)
    ensures x1 == x2 && z1 == z2
  {
    assert z1 as int % TWO_32 == z2 as int % TWO_32;
    SameLowWord(z1, z2);
    assert HighWord(x1, z1) == HighWord(x2, z2);
  }

  /** Two ints with the same 32 low bits are equal. */
  lemma SameLowWord(a: int32, b: int32)
    requires a as int % TWO_32 == b as int % TWO_32
    ensures a == b
  {
    var qa, qb := a as int / TWO_32, b as int / TWO_32;
    assert a as int == qa * TWO_32 + a as int % TWO_32;
    assert b as int == qb * TWO_32 + b as int % TWO_32;
    assert -1 <= qa <= 0 && -1 <= qb <= 0;
    assert a as int - b as int == (qa - qb) * TWO_32;
  }

  /** The low 32 bits of the hash are chunkz. */
  lemma ChunkHashLowBits(x: int32, z: int32)
    ensures Wrap32(ChunkHash(x, z)) == z
  {
    var h := ChunkHash(x, z) as int;
    assert (Wrap32(h) - h) % TWO_32 == 0;
    ModCongruent(Wrap32(h), h);
    SameLowWord(Wrap32(h), z);
  }

  lemma ModCongruent(a: int, b: int)
    requires (a - b) % TWO_32 == 0
    ensures a % TWO_32 == b % TWO_32
  {
    var k := (a - b) / TWO_32;
    assert a == b + k * TWO_32;
  }

  /** `getChunkHash(Location)`: the hash of the chunk holding the block. */
  function LocationChunkHash(loc: Location): int64
  {
    ChunkHash(ShiftRight4(loc.x), ShiftRight4(loc.z))
  }

  // ----- the chunks a box covers -----

  /** The hashes `getChunkHashes` appends for chunk column x, chunk rows z0 up to z1. */
  function Row(x: int32, z0: int32, z1: int): (r: seq<int>)
    requires z1 < 0x8000_0000
    decreases z1 - z0
  {
    if z1 < z0 then [] else Row(x, z0, z1 - 1) + [ChunkHash(x, z1 as int32)]
  }

  /** The hashes `getChunkHashes` lists for chunk columns x0 up to x1, column by column. */
  function Grid(x0: int32, x1: int, z0: int32, z1: int32): (r: seq<int>)
    requires x1 < 0x8000_0000
    decreases x1 - x0
  {
    if x1 < x0 then [] else Grid(x0, x1 - 1, z0, z1) + Row(x1 as int32, z0, z1)
  }

  /** `getChunkHashes(box)`: every chunk the box's XZ extent touches. */
  function ChunkHashes(b: Box): seq<int>
  {
    Grid(ShiftRight4(b.minX), ShiftRight4(b.maxX), ShiftRight4(b.minZ), ShiftRight4(b.maxZ))
  }

  predicate Distinct(s: seq<int>)
  {
    forall i, j :: 0 <= i < j < |s| ==> s[i] != s[j]
  }

  lemma {:induction false} RowMembership(x: int32, z0: int32, z1: int, k: int)
    requires z1 < 0x8000_0000
    ensures k in Row(x, z0, z1) <==> exists z: int32 :: z0 <= z <= z1 && k == ChunkHash(x, z)
    decreases z1 - z0
  {
    if z1 >= z0 {
      RowMembership(x, z0, z1 - 1, k);
      if k == ChunkHash(x, z1 as int32) {
        assert k in Row(x, z0, z1);
      }
    }
  }

  lemma {:induction false} RowDistinct(x: int32, z0: int32, z1: int)
    requires z1 < 0x8000_0000
    ensures Distinct(Row(x, z0, z1))
    decreases z1 - z0
  {
    if z1 >= z0 {
      RowDistinct(x, z0, z1 - 1);
      var last := ChunkHash(x, z1 as int32);
      if last in Row(x, z0, z1 - 1) {
        RowMembership(x, z0, z1 - 1, last);
        var z: int32 :| z0 <= z <= z1 - 1 && last == ChunkHash(x, z);
        ChunkHashInjective(x, z, x, z1 as int32);
      }
      DistinctAppend(Row(x, z0, z1 - 1), [last]);
    }
  }

  lemma DistinctAppend(a: seq<int>, b: seq<int>)
    requires Distinct(a) && Distinct(b)
    requires forall k :: k in a ==> k !in b
    ensures Distinct(a + b)
  {
    var s := a + b;
    forall i, j | 0 <= i < j < |s|
      ensures s[i] != s[j]
    {
      if j < |a| {
        assert s[i] == a[i] && s[j] == a[j];
      } else if i >= |a| {
        assert s[i] == b[i - |a|] && s[j] == b[j - |a|];
      } else {
        assert s[i] in a && s[j] in b;
      }
    }
  }

  /** A hash is listed for the grid exactly when it is the hash of a chunk inside it. */
  lemma {:induction false} GridMembership(x0: int32, x1: int, z0: int32, z1: int32, k: int)
    requires x1 < 0x8000_0000
    ensures k in Grid(x0, x1, z0, z1) <==>
      exists x: int32, z: int32 :: x0 <= x <= x1 && z0 <= z <= z1 && k == ChunkHash(x, z)
    decreases x1 - x0
  {
    if x1 >= x0 {
      GridMembership(x0, x1 - 1, z0, z1, k);
      RowMembership(x1 as int32, z0, z1, k);
      assert k in Grid(x0, x1, z0, z1) <==> k in Grid(x0, x1 - 1, z0, z1) || k in Row(x1 as int32, z0, z1);
    }
  }

  /** No chunk is listed twice. */
  lemma {:induction false} GridDistinct(x0: int32, x1: int, z0: int32, z1: int32)
    requires x1 < 0x8000_0000
    ensures Distinct(Grid(x0, x1, z0, z1))
    decreases x1 - x0
  {
    if x1 >= x0 {
      GridDistinct(x0, x1 - 1, z0, z1);
      RowDistinct(x1 as int32, z0, z1);
      var g := Grid(x0, x1 - 1, z0, z1);
      forall i | 0 <= i < |g|
        ensures g[i] !in Row(x1 as int32, z0, z1)
      {
        var k := g[i];
        GridMembership(x0, x1 - 1, z0, z1, k);
        var x: int32, z: int32 :| x0 <= x <= x1 - 1 && z0 <= z <= z1 && k == ChunkHash(x, z);
        if k in Row(x1 as int32, z0, z1) {
          RowMembership(x1 as int32, z0, z1, k);
          var z': int32 :| z0 <= z' <= z1 && k == ChunkHash(x1 as int32, z');
          ChunkHashInjective(x, z, x1 as int32, z');
        }
      }
      DistinctAppend(Grid(x0, x1 - 1, z0, z1), Row(x1 as int32, z0, z1));
    }
  }

  /** `getChunkHashes(box)` lists each chunk the box's XZ extent touches exactly once,
      and nothing else. */
  lemma ChunkHashesExactlyOnce(b: Box, k: int)
    ensures Distinct(ChunkHashes(b))
    ensures k in ChunkHashes(b) <==>
      exists x: int32, z: int32 :: ShiftRight4(b.minX) <= x <= ShiftRight4(b.maxX)
                                && ShiftRight4(b.minZ) <= z <= ShiftRight4(b.maxZ) && k == ChunkHash(x, z)
  {
    GridDistinct(ShiftRight4(b.minX), ShiftRight4(b.maxX), ShiftRight4(b.minZ), ShiftRight4(b.maxZ));
    GridMembership(ShiftRight4(b.minX), ShiftRight4(b.maxX), ShiftRight4(b.minZ), ShiftRight4(b.maxZ), k);
  }

  /** The chunk of any block in the box's XZ extent is one of the box's chunks. */
  lemma LocationChunkListed(b: Box, loc: Location)
    requires b.Contains2d(loc.x, loc.z)
    ensures LocationChunkHash(loc) in ChunkHashes(b)
  {
    ShiftRight4Monotone(b.minX, loc.x);
    ShiftRight4Monotone(loc.x, b.maxX);
    ShiftRight4Monotone(b.minZ, loc.z);
    ShiftRight4Monotone(loc.z, b.maxZ);
    ChunkHashesExactlyOnce(b, LocationChunkHash(loc));
  }

  /** `getChunkHashes(box)`, the nested loop over chunk columns and rows. */
  method GetChunkHashes(box: Box) returns (hashes: seq<int>)
    ensures hashes == ChunkHashes(box)
  {
    hashes := [];
    var smallX, smallZ := ShiftRight4(box.minX), ShiftRight4(box.minZ);
    var largeX, largeZ := ShiftRight4(box.maxX), ShiftRight4(box.maxZ);
    var x: int := smallX;
    while x <= largeX
      invariant smallX <= x <= largeX + 1 || (x == smallX && largeX < smallX)
      invariant hashes == Grid(smallX, x - 1, smallZ, largeZ)
      decreases largeX - x
    {
      var z: int := smallZ;
      while z <= largeZ
        invariant smallZ <= z <= largeZ + 1 || (z == smallZ && largeZ < smallZ)
        invariant hashes == Grid(smallX, x - 1, smallZ, largeZ) + Row(x as int32, smallZ, z - 1)
        decreases largeZ - z
      {
        hashes := hashes + [ChunkHash(x as int32, z as int32)];
        z := z + 1;
      }
      x := x + 1;
    }
  }

  // ----- the buckets -----

  /** `chunksToClaimsMap`: chunk hash to the top-level claims touching that chunk. */
  type Index = map<int, seq<Ref>>

  /** The bucket of a chunk; a missing bucket reads as empty. */
  function Bucket(index: Index, k: int): seq<Ref>
  {
    if k in index then index[k] else []
  }

  /** Every claim the index holds is an object of the heap. */
  predicate IndexIn(index: Index, h: Heap)
  {
    forall k, j :: k in index && 0 <= j < |index[k]| ==> index[k][j] in h
  }

  /** No bucket is kept empty. */
  predicate NoEmptyBucket(index: Index)
  {
    forall k :: k in index ==> |index[k]| > 0
  }

  /** `addToChunkClaimMap`'s loop: r appended to the bucket of each hash in turn, a
      bucket created where there was none. */
  function AddHashes(index: Index, hashes: seq<int>, r: Ref): Index
    decreases |hashes|
  {
    if hashes == [] then index
    else
      var idx := AddHashes(index, hashes[..|hashes| - 1], r);
      var k := hashes[|hashes| - 1];
      idx[k := Bucket(idx, k) + [r]]
  }

  /** After the loop r is in the bucket of each of the hashes. */
  lemma {:induction false} AddHashesCovers(index: Index, hashes: seq<int>, r: Ref)
    ensures forall k :: k in hashes ==> k in AddHashes(index, hashes, r) && r in Bucket(AddHashes(index, hashes, r), k)
    decreases |hashes|
  {
    if hashes != [] {
      var init := hashes[..|hashes| - 1];
      AddHashesCovers(index, init, r);
      assert hashes == init + [hashes[|hashes| - 1]];
    }
  }

  /** Only the buckets of the hashes change. */
  lemma {:induction false} AddHashesElsewhere(index: Index, hashes: seq<int>, r: Ref)
    ensures forall k :: k !in hashes ==>
      (k in AddHashes(index, hashes, r) <==> k in index) && Bucket(AddHashes(index, hashes, r), k) == Bucket(index, k)
    decreases |hashes|
  {
    if hashes != [] {
      var init := hashes[..|hashes| - 1];
      AddHashesElsewhere(index, init, r);
      assert hashes == init + [hashes[|hashes| - 1]];
    }
  }

  /** With distinct hashes each of their buckets gains r exactly once, at its end. */
  lemma {:induction false} AddHashesOnce(index: Index, hashes: seq<int>, r: Ref)
    requires Distinct(hashes)
    ensures forall k :: k in hashes ==> Bucket(AddHashes(index, hashes, r), k) == Bucket(index, k) + [r]
    decreases |hashes|
  {
    if hashes != [] {
      var init := hashes[..|hashes| - 1];
      var k := hashes[|hashes| - 1];
      assert hashes == init + [k];
      DistinctInit(hashes);
      AddHashesOnce(index, init, r);
      AddHashesElsewhere(index, init, r);
    }
  }

  /** Adding never leaves a bucket empty. */
  lemma {:induction false} AddHashesNonEmpty(index: Index, hashes: seq<int>, r: Ref)
    requires NoEmptyBucket(index)
    ensures NoEmptyBucket(AddHashes(index, hashes, r))
    decreases |hashes|
  {
    if hashes != [] {
      AddHashesNonEmpty(index, hashes[..|hashes| - 1], r);
    }
  }

  /** Dropping the last of distinct hashes leaves them distinct and without it. */
  lemma DistinctInit(hashes: seq<int>)
    requires Distinct(hashes) && hashes != []
    ensures Distinct(hashes[..|hashes| - 1]) && hashes[|hashes| - 1] !in hashes[..|hashes| - 1]
  {
    var init := hashes[..|hashes| - 1];
    forall i, j | 0 <= i < j < |init| ensures init[i] != init[j] {
      assert init[i] == hashes[i] && init[j] == hashes[j];
    }
    forall i | 0 <= i < |init| ensures init[i] != hashes[|hashes| - 1] {
      assert init[i] == hashes[i];
    }
  }

  lemma AddHashesIn(index: Index, hashes: seq<int>, r: Ref, h: Heap)
    requires IndexIn(index, h) && r in h
    ensures IndexIn(AddHashes(index, hashes, r), h)
    decreases |hashes|
  {
    if hashes != [] {
      AddHashesIn(index, hashes[..|hashes| - 1], r, h);
    }
  }

  /** `removeFromChunkClaimMap`'s inner loop: the first claim of the bucket with the
      given id leaves it. */
  function RemoveFirstWithId(b: seq<Ref>, h: Heap, id: Option<int>): (r: seq<Ref>)
    requires forall j :: 0 <= j < |b| ==> b[j] in h
    ensures forall j :: 0 <= j < |r| ==> r[j] in h && r[j] in b
    ensures (forall j :: 0 <= j < |b| ==> h[b[j]].id != id) ==> r == b
    ensures (exists j :: 0 <= j < |b| && h[b[j]].id == id) ==> |r| == |b| - 1
    ensures |r| == |b| ==> r == b
    decreases |b|
  {
    if b == [] then []
    else if h[b[0]].id == id then b[1..]
    else
      var rest := RemoveFirstWithId(b[1..], h, id);
      assert forall j :: 1 <= j < |b| ==> b[j] == b[1..][j - 1];
      [b[0]] + rest
  }

  /** The removal looks at the bucket's claims for their ids only. */
  lemma {:induction false} RemoveFirstWithIdSameIds(b: seq<Ref>, h: Heap, h': Heap, id: Option<int>)
    requires forall j :: 0 <= j < |b| ==> b[j] in h && b[j] in h' && h'[b[j]].id == h[b[j]].id
    ensures RemoveFirstWithId(b, h', id) == RemoveFirstWithId(b, h, id)
    decreases |b|
  {
    if b != [] && h[b[0]].id != id {
      assert forall j :: 0 <= j < |b[1..]| ==> b[1..][j] == b[j + 1];
      RemoveFirstWithIdSameIds(b[1..], h, h', id);
    }
  }

  /** When the bucket holds r and no other claim with r's id, the removal takes out r
      and nothing else. */
  lemma {:induction false} RemoveFirstWithIdTakes(b: seq<Ref>, h: Heap, r: Ref)
    requires forall j :: 0 <= j < |b| ==> b[j] in h
    requires r in h && r in b
    requires forall j :: 0 <= j < |b| && h[b[j]].id == h[r].id ==> b[j] == r
    ensures multiset(RemoveFirstWithId(b, h, h[r].id)) + multiset{r} == multiset(b)
    decreases |b|
  {
    assert b == [b[0]] + b[1..];
    if h[b[0]].id != h[r].id {
      assert forall j :: 0 <= j < |b[1..]| ==> b[1..][j] == b[j + 1];
      RemoveFirstWithIdTakes(b[1..], h, r);
    }
  }

  /** A claim of the bucket with another id stays in it. */
  lemma {:induction false} RemoveFirstWithIdKeeps(b: seq<Ref>, h: Heap, id: Option<int>, x: Ref)
    requires forall j :: 0 <= j < |b| ==> b[j] in h
    requires x in b && x in h && h[x].id != id
    ensures x in RemoveFirstWithId(b, h, id)
    decreases |b|
  {
    if b[0] != x && h[b[0]].id != id {
      assert forall j :: 0 <= j < |b[1..]| ==> b[1..][j] == b[j + 1];
      assert x in b[1..];
      RemoveFirstWithIdKeeps(b[1..], h, id, x);
    }
  }

  /** When at most one claim of the bucket has the id, none is left with it. */
  lemma {:induction false} RemoveOnlyWithId(b: seq<Ref>, h: Heap, id: Option<int>)
    requires forall j :: 0 <= j < |b| ==> b[j] in h
    requires forall i, j :: 0 <= i < j < |b| && h[b[i]].id == id ==> h[b[j]].id != id
    ensures forall j :: 0 <= j < |RemoveFirstWithId(b, h, id)| ==> h[RemoveFirstWithId(b, h, id)[j]].id != id
    decreases |b|
  {
    if b != [] {
      if h[b[0]].id == id {
        assert forall j :: 0 <= j < |b[1..]| ==> b[1..][j] == b[j + 1];
      } else {
        RemoveOnlyWithId(b[1..], h, id);
      }
    }
  }

  /** The bucket update for one hash: remove the first same-id claim, and drop the
      bucket once empty. */
  function RemoveAt(idx: Index, h: Heap, k: int, id: Option<int>): Index
    requires IndexIn(idx, h)
  {
    if k in idx then
      var b := RemoveFirstWithId(idx[k], h, id);
      if b == [] then idx - {k} else idx[k := b]
    else idx
  }

  lemma RemoveAtIn(idx: Index, h: Heap, k: int, id: Option<int>)
    requires IndexIn(idx, h)
    ensures IndexIn(RemoveAt(idx, h, k, id), h)
    ensures forall k' :: k' != k ==>
      (k' in RemoveAt(idx, h, k, id) <==> k' in idx) && Bucket(RemoveAt(idx, h, k, id), k') == Bucket(idx, k')
    ensures Bucket(RemoveAt(idx, h, k, id), k) == RemoveFirstWithId(Bucket(idx, k), h, id)
    ensures k in RemoveAt(idx, h, k, id) ==> |RemoveAt(idx, h, k, id)[k]| > 0
  {
  }

  /** `removeFromChunkClaimMap`'s loop over the claim's hashes. */
  function RemoveHashes(index: Index, h: Heap, hashes: seq<int>, id: Option<int>): (idx: Index)
    requires IndexIn(index, h)
    ensures IndexIn(idx, h)
    decreases |hashes|
  {
    if hashes == [] then index
    else
      var idx := RemoveHashes(index, h, hashes[..|hashes| - 1], id);
      RemoveAtIn(idx, h, hashes[|hashes| - 1], id);
      RemoveAt(idx, h, hashes[|hashes| - 1], id)
  }

  /** After the loop only the buckets of the hashes changed, none of them is left
      empty, and with distinct hashes each lost just its first claim with the id. */
  lemma RemoveHashesEffect(index: Index, h: Heap, hashes: seq<int>, id: Option<int>)
    requires IndexIn(index, h)
    ensures var idx := RemoveHashes(index, h, hashes, id);
      (forall k :: k !in hashes ==> (k in idx <==> k in index) && Bucket(idx, k) == Bucket(index, k))
      && (forall k :: k in hashes && k in idx ==> |idx[k]| > 0)
      && (Distinct(hashes) ==> forall k :: k in hashes ==> Bucket(idx, k) == RemoveFirstWithId(Bucket(index, k), h, id))
      && (NoEmptyBucket(index) ==> NoEmptyBucket(idx))
  {
    RemoveHashesElsewhere(index, h, hashes, id);
    RemoveHashesLeavesNonEmpty(index, h, hashes, id);
    if Distinct(hashes) {
      RemoveHashesOnce(index, h, hashes, id);
    }
    if NoEmptyBucket(index) {
      RemoveHashesNoEmpty(index, h, hashes, id);
    }
  }

  /** The loop changes no bucket outside the hashes. */
  lemma {:induction false} RemoveHashesElsewhere(index: Index, h: Heap, hashes: seq<int>, id: Option<int>)
    requires IndexIn(index, h)
    ensures var idx := RemoveHashes(index, h, hashes, id);
      forall k :: k !in hashes ==> (k in idx <==> k in index) && Bucket(idx, k) == Bucket(index, k)
    decreases |hashes|
  {
    if hashes != [] {
      var init := hashes[..|hashes| - 1];
      RemoveHashesElsewhere(index, h, init, id);
      RemoveAtIn(RemoveHashes(index, h, init, id), h, hashes[|hashes| - 1], id);
      assert hashes == init + [hashes[|hashes| - 1]];
    }
  }

  /** No bucket of the hashes that the loop keeps is empty. */
  lemma {:induction false} RemoveHashesLeavesNonEmpty(index: Index, h: Heap, hashes: seq<int>, id: Option<int>)
    requires IndexIn(index, h)
    ensures var idx := RemoveHashes(index, h, hashes, id);
      forall k :: k in hashes && k in idx ==> |idx[k]| > 0
    decreases |hashes|
  {
    if hashes != [] {
      var init := hashes[..|hashes| - 1];
      RemoveHashesLeavesNonEmpty(index, h, init, id);
      RemoveAtIn(RemoveHashes(index, h, init, id), h, hashes[|hashes| - 1], id);
      assert hashes == init + [hashes[|hashes| - 1]];
    }
  }

  /** With distinct hashes each of their buckets loses just its first claim with the id. */
  lemma {:induction false} RemoveHashesOnce(index: Index, h: Heap, hashes: seq<int>, id: Option<int>)
    requires IndexIn(index, h) && Distinct(hashes)
    ensures var idx := RemoveHashes(index, h, hashes, id);
      forall k :: k in hashes ==> Bucket(idx, k) == RemoveFirstWithId(Bucket(index, k), h, id)
    decreases |hashes|
  {
    if hashes != [] {
      var init := hashes[..|hashes| - 1];
      var k := hashes[|hashes| - 1];
      DistinctInit(hashes);
      RemoveHashesOnce(index, h, init, id);
      RemoveHashesElsewhere(index, h, init, id);
      RemoveAtIn(RemoveHashes(index, h, init, id), h, k, id);
      assert hashes == init + [k];
    }
  }

  /** The loop leaves no bucket empty when none was. */
  lemma {:induction false} RemoveHashesNoEmpty(index: Index, h: Heap, hashes: seq<int>, id: Option<int>)
    requires IndexIn(index, h) && NoEmptyBucket(index)
    ensures NoEmptyBucket(RemoveHashes(index, h, hashes, id))
    decreases |hashes|
  {
    if hashes != [] {
      var init := hashes[..|hashes| - 1];
      RemoveHashesNoEmpty(index, h, init, id);
      RemoveAtIn(RemoveHashes(index, h, init, id), h, hashes[|hashes| - 1], id);
    }
  }

  /** The loop takes entries away and never adds one. */
  lemma {:induction false} RemoveHashesShrinks(index: Index, h: Heap, hashes: seq<int>, id: Option<int>)
    requires IndexIn(index, h)
    ensures forall k, q :: q in Bucket(RemoveHashes(index, h, hashes, id), k) ==> q in Bucket(index, k)
    decreases |hashes|
  {
    if hashes != [] {
      var init := hashes[..|hashes| - 1];
      var prev := RemoveHashes(index, h, init, id);
      RemoveHashesShrinks(index, h, init, id);
      RemoveAtIn(prev, h, hashes[|hashes| - 1], id);
    }
  }

  /** Removing an id no bucket of the given hashes holds leaves the index as it was. */
  lemma {:induction false} RemoveHashesAbsent(index: Index, h: Heap, hashes: seq<int>, id: Option<int>)
    requires IndexIn(index, h) && NoEmptyBucket(index)
    requires forall k, j :: k in hashes && 0 <= j < |Bucket(index, k)| ==> h[Bucket(index, k)[j]].id != id
    ensures RemoveHashes(index, h, hashes, id) == index
    decreases |hashes|
  {
    if hashes != [] {
      var init := hashes[..|hashes| - 1];
      var k := hashes[|hashes| - 1];
      assert forall k' :: k' in init ==> k' in hashes;
      RemoveHashesAbsent(index, h, init, id);
      if k in index {
        assert Bucket(index, k) == index[k];
      }
    }
  }
}
