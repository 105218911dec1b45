/** The read-only queries of `DataStore` over the claim state: the claim at a location
    (`getClaimAt`), the claim with an id (`getClaim`), the claims of a box's chunks
    (`getChunkClaims`), and the repair of the id counter at start-up. */
module Lookups {
  import opened Wrappers
  import opened JavaInt
  import opened BoundingBoxes
  import opened Claims
  import opened ChunkIndex
  import opened Stores

  // ----- getClaimAt -----

  /** All references of the sequence are objects of the heap. */
  predicate AllIn(h: Heap, rs: seq<Ref>)
  {
    forall k :: 0 <= k < |rs| ==> rs[k] in h
  }

  /** The test a claim passes to be answered for the location: in the store and, with
      the height ignored only for a 2D claim, containing it. */
  predicate Holds(h: Heap, c: Ref, loc: Location, ignoreHeight: bool)
    requires WellFormed(h) && c in h
  {
    h[c].inDataStore && InClaim(h, c, loc, !h[c].Is3D() && ignoreHeight, false)
  }

  /** The cached claim answers without a search: it is in the store, it is top-level
      when subdivisions are ignored, and it contains the location — not counting its
      subdivisions' parts unless subdivisions are ignored. */
  predicate CacheHit(h: Heap, c: Ref, loc: Location, ignoreHeight: bool, ignoreSubclaims: bool)
    requires WellFormed(h) && c in h
  {
    h[c].inDataStore && (h[c].parent.None? || !ignoreSubclaims)
    && InClaim(h, c, loc, !h[c].Is3D() && ignoreHeight, !ignoreSubclaims)
  }

  /** The inner loop of `getClaimAt`: the first subdivision from position j on that
      holds the location. */
  function SubdivisionAt(h: Heap, kids: seq<Ref>, loc: Location, ignoreHeight: bool, j: nat): (r: Option<Ref>)
    requires WellFormed(h) && AllIn(h, kids) && j <= |kids|
    ensures r.Some? ==> exists k :: j <= k < |kids| && kids[k] == r.value && Holds(h, kids[k], loc, ignoreHeight)
    ensures r.None? <==> forall k :: j <= k < |kids| ==> !Holds(h, kids[k], loc, ignoreHeight)
    decreases |kids| - j
  {
    if j == |kids| then None
    else if Holds(h, kids[j], loc, ignoreHeight) then Some(kids[j])
    else SubdivisionAt(h, kids, loc, ignoreHeight, j + 1)
  }

  /** The outer loop of `getClaimAt` over the bucket, from position i on: the first
      claim in the store whose columns hold the location; a subdivision of it holding
      the location wins over it, unless subdivisions are ignored; if neither it nor a
      subdivision holds the location (it is 3D and the height is off), the search goes
      on. */
  function BucketSearch(h: Heap, b: seq<Ref>, loc: Location, ignoreHeight: bool, ignoreSubclaims: bool, i: nat)
    : (r: Option<Ref>)
    requires WellFormed(h) && AllIn(h, b) && i <= |b|
    ensures r.Some? ==> r.value in h && Holds(h, r.value, loc, ignoreHeight)
    ensures r.Some? ==> exists k :: i <= k < |b| && (b[k] == r.value || (!ignoreSubclaims && r.value in h[b[k]].children))
    ensures r.None? ==> forall k :: i <= k < |b| ==> !Holds(h, b[k], loc, ignoreHeight)
    ensures r.None? && !ignoreSubclaims ==>
      forall k :: i <= k < |b| && h[b[k]].inDataStore && InClaim(h, b[k], loc, true, false) ==>
        SubdivisionAt(h, h[b[k]].children, loc, ignoreHeight, 0).None?
    decreases |b| - i
  {
    if i == |b| then None
    else
      var c := b[i];
      if h[c].inDataStore && InClaim(h, c, loc, true, false) then
        var sub := if ignoreSubclaims then None else SubdivisionAt(h, h[c].children, loc, ignoreHeight, 0);
        if sub.Some? then sub
        else if InClaim(h, c, loc, !h[c].Is3D() && ignoreHeight, false) then Some(c)
        else BucketSearch(h, b, loc, ignoreHeight, ignoreSubclaims, i + 1)
      else BucketSearch(h, b, loc, ignoreHeight, ignoreSubclaims, i + 1)
  }

  /** `getClaimAt(location, ignoreHeight, ignoreSubclaims, cachedClaim)`. */
  function ClaimAt(s: Store, loc: Location, ignoreHeight: bool, ignoreSubclaims: bool, cached: Option<Ref>)
    : (r: Option<Ref>)
    requires Coherent(s) && (cached.Some? ==> cached.value in s.heap)
  {
    if cached.Some? && CacheHit(s.heap, cached.value, loc, ignoreHeight, ignoreSubclaims) then cached
    else
      var k := LocationChunkHash(loc);
      if k !in s.index then None
      else BucketSearch(s.heap, s.index[k], loc, ignoreHeight, ignoreSubclaims, 0)
  }

  /** Without subdivisions to mask, `contains` on the full 3D box implies it on the
      columns. */
  lemma InClaimColumns(h: Heap, c: Ref, loc: Location, ignoreHeight: bool, exclude: bool)
    requires WellFormed(h) && c in h
    requires InClaim(h, c, loc, ignoreHeight, exclude)
    ensures InClaim(h, c, loc, true, false)
  {
    InClaimMeans(h, c, loc, ignoreHeight, exclude, 0);
    InClaimMeans(h, c, loc, true, false, 0);
  }

  /** What `getClaimAt` promises: a claim it answers is in the store, in the location's
      world and contains the location's column; with `ignoreSubclaims` it is a
      top-level claim; when the cached claim does not answer and the location's chunk
      has no bucket, there is no answer; and, the index being complete for the list,
      there is an answer whenever a claim of the list in the store contains the
      location. */
  lemma ClaimAtMeans(s: Store, loc: Location, ignoreHeight: bool, ignoreSubclaims: bool, cached: Option<Ref>)
    requires Valid(s) && (cached.Some? ==> cached.value in s.heap)
    ensures var r := ClaimAt(s, loc, ignoreHeight, ignoreSubclaims, cached);
      (r.Some? ==> r.value in s.heap && s.heap[r.value].inDataStore && s.heap[r.value].world == loc.world
                   && s.heap[r.value].bounds.Contains2d(loc.x, loc.z))
      && (r.Some? && ignoreSubclaims ==> s.heap[r.value].parent.None?)
      && (((cached.None? || !CacheHit(s.heap, cached.value, loc, ignoreHeight, ignoreSubclaims))
           && LocationChunkHash(loc) !in s.index) ==> r.None?)
      && (Indexed(s) ==>
            forall i :: (0 <= i < |s.claims| && s.heap[s.claims[i]].inDataStore
              && InClaim(s.heap, s.claims[i], loc, !s.heap[s.claims[i]].Is3D() && ignoreHeight, false)) ==> r.Some?)
  {
    var r := ClaimAt(s, loc, ignoreHeight, ignoreSubclaims, cached);
    if Indexed(s) {
      forall i | 0 <= i < |s.claims| && s.heap[s.claims[i]].inDataStore
        && InClaim(s.heap, s.claims[i], loc, !s.heap[s.claims[i]].Is3D() && ignoreHeight, false)
        ensures r.Some?
      {
        ClaimAtFinds(s, loc, ignoreHeight, ignoreSubclaims, cached, i);
      }
    }
    if r.Some? {
      var c := r.value;
      if cached.Some? && CacheHit(s.heap, cached.value, loc, ignoreHeight, ignoreSubclaims) {
        InClaimColumns(s.heap, c, loc, !s.heap[c].Is3D() && ignoreHeight, !ignoreSubclaims);
      } else {
        var b := s.index[LocationChunkHash(loc)];
        assert AllIn(s.heap, b);
        InClaimColumns(s.heap, c, loc, !s.heap[c].Is3D() && ignoreHeight, false);
        if ignoreSubclaims {
          var k :| 0 <= k < |b| && b[k] == c;
          assert s.heap[b[k]].parent.None?;
        }
      }
      InClaimMeans(s.heap, c, loc, true, false, 0);
    }
  }

  /** A claim of the list in the store that contains the location is in the bucket of
      the location's chunk, where the search answers it or something before it. */
  lemma ClaimAtFinds(s: Store, loc: Location, ignoreHeight: bool, ignoreSubclaims: bool, cached: Option<Ref>, i: nat)
    requires Valid(s) && Indexed(s) && (cached.Some? ==> cached.value in s.heap)
    requires i < |s.claims| && s.heap[s.claims[i]].inDataStore
    requires InClaim(s.heap, s.claims[i], loc, !s.heap[s.claims[i]].Is3D() && ignoreHeight, false)
    ensures ClaimAt(s, loc, ignoreHeight, ignoreSubclaims, cached).Some?
  {
    var c := s.claims[i];
    var k := LocationChunkHash(loc);
    InClaimColumns(s.heap, c, loc, !s.heap[c].Is3D() && ignoreHeight, false);
    InClaimMeans(s.heap, c, loc, true, false, 0);
    LocationChunkListed(s.heap[c].bounds, loc);
    assert c in Bucket(s.index, k);
    if !(cached.Some? && CacheHit(s.heap, cached.value, loc, ignoreHeight, ignoreSubclaims)) {
      var b := s.index[k];
      assert AllIn(s.heap, b);
      var j :| 0 <= j < |b| && b[j] == c;
      assert Holds(s.heap, b[j], loc, ignoreHeight);
    }
  }

  /** A top-level claim found in the bucket is answered only when none of its
      subdivisions in the store holds the location. */
  lemma SubdivisionsWin(h: Heap, b: seq<Ref>, loc: Location, ignoreHeight: bool, i: nat)
    requires WellFormed(h) && AllIn(h, b) && i <= |b|
    requires forall k :: 0 <= k < |b| ==> h[b[k]].parent.None?
    ensures var r := BucketSearch(h, b, loc, ignoreHeight, false, i);
      r.Some? && h[r.value].parent.None? ==>
        forall j :: 0 <= j < |h[r.value].children| ==> !Holds(h, h[r.value].children[j], loc, ignoreHeight)
    decreases |b| - i
  {
    if i < |b| {
      var c := b[i];
      if h[c].inDataStore && InClaim(h, c, loc, true, false) {
        var sub := SubdivisionAt(h, h[c].children, loc, ignoreHeight, 0);
        if sub.None? && !InClaim(h, c, loc, !h[c].Is3D() && ignoreHeight, false) {
          SubdivisionsWin(h, b, loc, ignoreHeight, i + 1);
        }
      } else {
        SubdivisionsWin(h, b, loc, ignoreHeight, i + 1);
      }
    }
  }

  // ----- getClaim -----

  /** The inner loop of `getClaim`: the first subdivision from position j on with the
      id. The subdivision's own `inDataStore` is not consulted. */
  function ChildWithId(h: Heap, kids: seq<Ref>, id: int, j: nat): (r: Option<Ref>)
    requires AllIn(h, kids) && j <= |kids|
    ensures r.Some? ==> r.value in kids[j..] && h[r.value].id == Some(id)
    ensures r.None? <==> forall k :: j <= k < |kids| ==> h[kids[k]].id != Some(id)
    decreases |kids| - j
  {
    if j == |kids| then None
    else if h[kids[j]].id == Some(id) then Some(kids[j])
    else ChildWithId(h, kids, id, j + 1)
  }

  /** `getClaim(id)`, from list position i on: for each top-level claim in the store,
      the claim itself when it has the id, else its first subdivision with the id. */
  function ClaimWithId(h: Heap, list: seq<Ref>, id: int, i: nat): (r: Option<Ref>)
    requires WellFormed(h) && AllIn(h, list) && i <= |list|
    ensures r.Some? ==> r.value in h && h[r.value].id == Some(id)
    ensures r.Some? ==> exists k :: i <= k < |list| && h[list[k]].inDataStore
                                   && (r.value == list[k] || r.value in h[list[k]].children)
    ensures r.None? <==> forall k :: i <= k < |list| && h[list[k]].inDataStore ==>
                           h[list[k]].id != Some(id) && ChildWithId(h, h[list[k]].children, id, 0).None?
    decreases |list| - i
  {
    if i == |list| then None
    else
      var c := list[i];
      if h[c].inDataStore && h[c].id == Some(id) then Some(c)
      else if h[c].inDataStore && ChildWithId(h, h[c].children, id, 0).Some? then
        ChildWithId(h, h[c].children, id, 0)
      else ClaimWithId(h, list, id, i + 1)
  }

  /** What `getClaim` promises: it answers exactly when a top-level claim in the store,
      or a subdivision of one, has the id, and what it answers has the id. */
  lemma ClaimWithIdMeans(s: Store, id: int)
    requires Valid(s)
    ensures var r := ClaimWithId(s.heap, s.claims, id, 0);
      (r.Some? ==> s.heap[r.value].id == Some(id))
      && (r.None? <==>
            forall k :: 0 <= k < |s.claims| && s.heap[s.claims[k]].inDataStore ==>
              s.heap[s.claims[k]].id != Some(id)
              && forall j :: 0 <= j < |s.heap[s.claims[k]].children| ==> s.heap[s.heap[s.claims[k]].children[j]].id != Some(id))
  {
    var r := ClaimWithId(s.heap, s.claims, id, 0);
    if r.None? {
      forall k, j | 0 <= k < |s.claims| && s.heap[s.claims[k]].inDataStore && 0 <= j < |s.heap[s.claims[k]].children|
        ensures s.heap[s.heap[s.claims[k]].children[j]].id != Some(id)
      {
        assert ChildWithId(s.heap, s.heap[s.claims[k]].children, id, 0).None?;
      }
    } else {
      var k :| 0 <= k < |s.claims| && s.heap[s.claims[k]].inDataStore
               && (r.value == s.claims[k] || r.value in s.heap[s.claims[k]].children);
      if r.value != s.claims[k] {
        var j :| 0 <= j < |s.heap[s.claims[k]].children| && s.heap[s.claims[k]].children[j] == r.value;
        assert s.heap[s.heap[s.claims[k]].children[j]].id == Some(id);
      } else {
        assert s.heap[s.claims[k]].id == Some(id);
      }
    }
  }

  // ----- getChunkClaims -----

  /** The claims of one bucket `getChunkClaims` keeps: in the store and in the world. */
  function BucketClaims(h: Heap, bucket: seq<Ref>, world: World): (cs: set<Ref>)
    ensures forall c :: c in cs <==> c in bucket && c in h && h[c].inDataStore && h[c].world == world
  {
    set c | c in bucket && c in h && h[c].inDataStore && h[c].world == world
  }

  /** The claims of the buckets of the given hashes. */
  function ClaimsOfChunks(h: Heap, index: Index, hashes: seq<int>, world: World): (cs: set<Ref>)
    decreases |hashes|
  {
    if hashes == [] then {}
    else ClaimsOfChunks(h, index, hashes[..|hashes| - 1], world) + BucketClaims(h, Bucket(index, hashes[|hashes| - 1]), world)
  }

  /** A claim is collected exactly when it is in the store, in the world and in the
      bucket of one of the hashes. */
  lemma {:induction false} ClaimsOfChunksMeans(h: Heap, index: Index, hashes: seq<int>, world: World)
    ensures forall c :: c in ClaimsOfChunks(h, index, hashes, world) <==>
      c in h && h[c].inDataStore && h[c].world == world && exists k :: k in hashes && c in Bucket(index, k)
    decreases |hashes|
  {
    if hashes != [] {
      var front := hashes[..|hashes| - 1];
      ClaimsOfChunksMeans(h, index, front, world);
      assert forall k :: k in hashes <==> k in front || k == hashes[|hashes| - 1];
    }
  }

  /** `getChunkClaims(world, box)`: every claim in the store and in the world that the
      bucket of one of the box's chunks holds. */
  function ChunkClaims(s: Store, world: World, box: Box): (cs: set<Ref>)
  {
    ClaimsOfChunks(s.heap, s.index, ChunkHashes(box), world)
  }

  /** What `getChunkClaims` promises: a claim is returned exactly when it is in the
      store, in the world, and in the bucket of a chunk column the box's XZ extent
      touches. */
  lemma ChunkClaimsMeans(s: Store, world: World, box: Box, c: Ref)
    ensures c in ChunkClaims(s, world, box) <==>
      c in s.heap && s.heap[c].inDataStore && s.heap[c].world == world
      && exists x: int32, z: int32 :: ShiftRight4(box.minX) <= x <= ShiftRight4(box.maxX)
           && ShiftRight4(box.minZ) <= z <= ShiftRight4(box.maxZ) && c in Bucket(s.index, ChunkHash(x, z))
  {
    ClaimsOfChunksMeans(s.heap, s.index, ChunkHashes(box), world);
    if c in ChunkClaims(s, world, box) {
      var k :| k in ChunkHashes(box) && c in Bucket(s.index, k);
      ChunkHashesExactlyOnce(box, k);
    }
    if c in s.heap && s.heap[c].inDataStore && s.heap[c].world == world
       && exists x: int32, z: int32 :: ShiftRight4(box.minX) <= x <= ShiftRight4(box.maxX)
           && ShiftRight4(box.minZ) <= z <= ShiftRight4(box.maxZ) && c in Bucket(s.index, ChunkHash(x, z)) {
      var x: int32, z: int32 :| ShiftRight4(box.minX) <= x <= ShiftRight4(box.maxX)
           && ShiftRight4(box.minZ) <= z <= ShiftRight4(box.maxZ) && c in Bucket(s.index, ChunkHash(x, z));
      ChunkHashesExactlyOnce(box, ChunkHash(x, z));
    }
  }

  // ----- the nextClaimID repair -----

  /** The start-up repair loop, from list position i on with counter n: a claim whose id
      is at least the counter moves the counter past it. A claim without an id is
      passed over. */
  function RepairedNextId(h: Heap, list: seq<Ref>, n: int, i: nat): (m: int)
    requires AllIn(h, list) && i <= |list|
    ensures m >= n
    ensures forall k :: i <= k < |list| && h[list[k]].id.Some? ==> h[list[k]].id.value < m
    ensures m == n || exists k :: i <= k < |list| && h[list[k]].id == Some(m - 1)
    decreases |list| - i
  {
    if i == |list| then n
    else
      var id := h[list[i]].id;
      RepairedNextId(h, list, if id.Some? && id.value >= n then id.value + 1 else n, i + 1)
  }

  /** A counter already above every id is left as it is. */
  lemma {:induction false} RepairNeedless(h: Heap, list: seq<Ref>, n: int, i: nat)
    requires AllIn(h, list) && i <= |list|
    requires forall k :: i <= k < |list| && h[list[k]].id.Some? ==> h[list[k]].id.value < n
    ensures RepairedNextId(h, list, n, i) == n
    decreases |list| - i
  {
    if i < |list| {
      RepairNeedless(h, list, n, i + 1);
    }
  }
}
