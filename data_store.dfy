/** The `DataStore` object: the claim list, the chunk index and the id counter as fields
    that its methods update in place. The claim objects live in `heap`, so that a claim
    reachable from the list, the index and a parent's children is one object. */
module DataStores {
  import opened Wrappers
  import opened JavaInt
  import opened BoundingBoxes
  import opened Claims
  import opened ChunkIndex
  import opened Stores
  import opened Lookups
  import opened Purging
  import opened Depths
  import opened Creation
  import opened Resizing
  import opened Uuids
  import opened PlayerRecords
  import opened MessageText
  import opened Transfers
  import opened JavaString

  // ----- facts the methods need about the store functions -----

  /** The bucket loop over the hashes reads only the ids of the claims it passes. */
  lemma {:induction false} RemoveHashesSameIds(index: Index, h: Heap, h': Heap, hashes: seq<int>, id: Option<int>)
    requires IndexIn(index, h) && SameIdentity(h, h')
    ensures IndexIn(index, h')
    ensures RemoveHashes(index, h', hashes, id) == RemoveHashes(index, h, hashes, id)
    decreases |hashes|
  {
    if hashes != [] {
      var init := hashes[..|hashes| - 1];
      var k := hashes[|hashes| - 1];
      RemoveHashesSameIds(index, h, h', init, id);
      var idx := RemoveHashes(index, h, init, id);
      if k in idx {
        RemoveFirstWithIdSameIds(idx[k], h, h', id);
      }
    }
  }

  /** The parts `deleteClaim` computes one after the other, on the objects already
      unlinked and marked, make up the detached store. */
  lemma DetachParts(s: Store, r: Ref, h': Heap, claims': seq<Ref>, index': Index)
    requires Coherent(s) && r in s.heap && h' == DetachHeap(s.heap, r) && SameIdentity(s.heap, h')
    requires AllIn(h', s.claims) && IndexIn(s.index, h')
    requires claims' == RemoveFirstWithId(s.claims, h', s.heap[r].id) && index' == RemoveFromIndex(s.index, h', r)
    ensures Detach(s, r) == Store(h', claims', index', s.nextClaimID, s.nextRef)
  {
    var id := s.heap[r].id;
    assert h'[r].bounds == s.heap[r].bounds && h'[r].id == id;
    RemoveFirstWithIdSameIds(s.claims, s.heap, h', id);
    RemoveHashesSameIds(s.index, s.heap, h', ChunkHashes(s.heap[r].bounds), id);
  }

  /** Deleting a claim without subdivisions is detaching it. */
  lemma DeletedLeaf(s: Store, c: Ref)
    requires Valid(s) && c in s.heap && s.heap[c].children == []
    ensures Deleted(s, c) == Detach(s, c)
  {
    assert DeleteChildren(s, c, 1) == s;
  }

  /** The removal at the claim with the id: the rest after it stays. */
  lemma RemoveFromHit(b: seq<Ref>, h: Heap, id: Option<int>, i: nat)
    requires AllIn(h, b) && i < |b| && h[b[i]].id == id
    ensures RemoveFirstWithId(b[i..], h, id) == b[i + 1..]
  {
    assert b[i..][0] == b[i] && b[i..][1..] == b[i + 1..];
  }

  /** The removal past a claim with another id: it stays in front. */
  lemma RemoveFromSkip(b: seq<Ref>, h: Heap, id: Option<int>, i: nat)
    requires AllIn(h, b) && i < |b| && h[b[i]].id != id
    ensures RemoveFirstWithId(b[i..], h, id) == [b[i]] + RemoveFirstWithId(b[i + 1..], h, id)
  {
    assert b[i..][0] == b[i] && b[i..][1..] == b[i + 1..];
  }

  lemma PrefixStep<T>(a: seq<T>, i: nat, rest: seq<T>)
    requires i < |a|
    ensures a[..i] + ([a[i]] + rest) == a[..i + 1] + rest
  {
    assert a[..i + 1] == a[..i] + [a[i]];
  }

  /** The removal loop shared by `deleteClaim`'s pass over the list and
      `removeFromChunkClaimMap`'s iterator over a bucket: the first claim with the id
      leaves, and the loop stops. */
  method RemoveFirstWithIdFrom(b: seq<Ref>, h: Heap, id: Option<int>) returns (r: seq<Ref>)
    requires AllIn(h, b)
    ensures r == RemoveFirstWithId(b, h, id)
  {
    var i := 0;
    while i < |b|
      invariant 0 <= i <= |b|
      invariant RemoveFirstWithId(b, h, id) == b[..i] + RemoveFirstWithId(b[i..], h, id)
    {
      if h[b[i]].id == id {
        RemoveFromHit(b, h, id, i);
        return b[..i] + b[i + 1..];
      }
      RemoveFromSkip(b, h, id, i);
      PrefixStep(b, i, RemoveFirstWithId(b[i + 1..], h, id));
      i := i + 1;
    }
    assert b[..i] == b && b[i..] == [];
    return b;
  }

  /** One turn of `deleteClaim`'s child loop: the child at position j - 1 is a
      subdivision, whose deletion is its detaching, and the loop goes on from j + 1 in
      the store without it. */
  lemma DeleteChildStep(s: Store, r: Ref, j: nat)
    requires Valid(s) && r in s.heap && 1 <= j && j - 1 < |s.heap[r].children|
    ensures var c := s.heap[r].children[j - 1];
      c in s.heap && s.heap[c].parent == Some(r) && s.heap[r].parent.None? && Level(s.heap, c) < Level(s.heap, r)
      && DeleteChildren(s, r, j) == DeleteChildren(Deleted(s, c), r, j + 1)
      && r in Deleted(s, c).heap && Deleted(s, c).heap[r].parent == s.heap[r].parent
      && |Deleted(s, c).heap[r].children| < |s.heap[r].children|
  {
    var c := s.heap[r].children[j - 1];
    DeletedLeaf(s, c);
    DetachHeapEffect(s.heap, c);
    assert c in s.heap[r].children;
  }

  /** The child loop ends once j - 1 is past the children. */
  lemma DeleteChildrenDone(s: Store, r: Ref, j: nat)
    requires Coherent(s) && r in s.heap && 1 <= j && j - 1 >= |s.heap[r].children|
    ensures DeleteChildren(s, r, j) == s
  {
  }

  /** What `deleteClaimsInWorld`'s loop keeps: from position i of the current store the
      rest of the deletion arrives at the goal, the whole deletion. */
  predicate WorldLoop(goal: Store, s: Store, world: World, deleteAdminClaims: bool, i: int)
  {
    0 <= i && Valid(s) && goal == WorldDeleted(s, world, deleteAdminClaims, i)
  }

  /** A claim that stays: the loop moves on to the next position. */
  lemma WorldLoopSkip(goal: Store, s: Store, world: World, deleteAdminClaims: bool, i: int)
    requires WorldLoop(goal, s, world, deleteAdminClaims, i) && i < |s.claims|
    requires !(s.heap[s.claims[i]].world == world && (deleteAdminClaims || !IsAdminClaim(s.heap, s.claims[i])))
    ensures WorldLoop(goal, s, world, deleteAdminClaims, i + 1)
  {
  }

  /** A claim that goes: the loop stays at its position, in a shorter list. */
  lemma WorldLoopDelete(goal: Store, s: Store, s': Store, world: World, deleteAdminClaims: bool, i: int)
    requires WorldLoop(goal, s, world, deleteAdminClaims, i) && i < |s.claims| && s.claims[i] in s.heap
    requires s.heap[s.claims[i]].world == world && (deleteAdminClaims || !IsAdminClaim(s.heap, s.claims[i]))
    requires s' == Deleted(s, s.claims[i])
    ensures WorldLoop(goal, s', world, deleteAdminClaims, i) && |s'.claims| < |s.claims|
  {
    DeletedShrinks(s, i);
  }

  /** At the end of the list the loop is done. */
  lemma WorldLoopDone(goal: Store, s: Store, world: World, deleteAdminClaims: bool, i: int)
    requires WorldLoop(goal, s, world, deleteAdminClaims, i) && i >= |s.claims|
    ensures s == goal
  {
  }

  /** `getClaimAt`'s inner loop over a top-level claim's subdivisions. */
  method FindSubdivision(h: Heap, kids: seq<Ref>, loc: Location, ignoreHeight: bool) returns (r: Option<Ref>)
    requires WellFormed(h) && AllIn(h, kids)
    ensures r == SubdivisionAt(h, kids, loc, ignoreHeight, 0)
  {
    var j := 0;
    while j < |kids|
      invariant 0 <= j <= |kids|
      invariant SubdivisionAt(h, kids, loc, ignoreHeight, 0) == SubdivisionAt(h, kids, loc, ignoreHeight, j)
    {
      var subdivision := kids[j];
      if h[subdivision].inDataStore {
        var inside := Contains(h, subdivision, loc, !h[subdivision].Is3D() && ignoreHeight, false);
        if inside {
          return Some(subdivision);
        }
      }
      j := j + 1;
    }
    return None;
  }

  /** `getClaimAt`'s loop over the bucket of the location's chunk. */
  method SearchBucket(h: Heap, b: seq<Ref>, loc: Location, ignoreHeight: bool, ignoreSubclaims: bool)
    returns (r: Option<Ref>)
    requires WellFormed(h) && AllIn(h, b)
    ensures r == BucketSearch(h, b, loc, ignoreHeight, ignoreSubclaims, 0)
  {
    var i := 0;
    while i < |b|
      invariant 0 <= i <= |b|
      invariant BucketSearch(h, b, loc, ignoreHeight, ignoreSubclaims, 0) == BucketSearch(h, b, loc, ignoreHeight, ignoreSubclaims, i)
    {
      var claim := b[i];
      if h[claim].inDataStore {
        var columns := Contains(h, claim, loc, true, false);
        if columns {
          if !ignoreSubclaims {
            assert AllIn(h, h[claim].children);
            var sub := FindSubdivision(h, h[claim].children, loc, ignoreHeight);
            if sub.Some? {
              return sub;
            }
          }
          var inside := Contains(h, claim, loc, !h[claim].Is3D() && ignoreHeight, false);
          if inside {
            return Some(claim);
          }
        }
      }
      i := i + 1;
    }
    return None;
  }

  /** One more chunk row of column x. */
  lemma RowStep(x: int32, z0: int32, z: int32, before: seq<int>)
    requires z0 <= z
    ensures before + Row(x, z0, z) == (before + Row(x, z0, z as int - 1)) + [ChunkHash(x, z)]
  {
    assert Row(x, z0, z) == Row(x, z0, z as int - 1) + [ChunkHash(x, z)];
  }

  /** The state of `getChunkClaims`' row loop at row z of column x. */
  predicate ColumnLoop(h: Heap, index: Index, before: seq<int>, x: int32, z0: int32, z: int, world: World, cs: set<Ref>)
  {
    z <= 0x8000_0000 && cs == ClaimsOfChunks(h, index, before + Row(x, z0, z - 1), world)
  }

  /** The claims of one more bucket join the collected ones. */
  lemma ChunksStep(h: Heap, index: Index, g: seq<int>, k: int, world: World)
    ensures ClaimsOfChunks(h, index, g + [k], world) == ClaimsOfChunks(h, index, g, world) + BucketClaims(h, Bucket(index, k), world)
  {
    assert (g + [k])[..|g|] == g;
  }

  /** `getChunkClaims`' loop over one bucket: its claims in the store and in the world
      are added to the set. */
  method CollectBucket(h: Heap, chunkClaims: seq<Ref>, world: World, cs: set<Ref>) returns (cs': set<Ref>)
    ensures cs' == cs + BucketClaims(h, chunkClaims, world)
  {
    cs' := cs;
    var m := 0;
    while m < |chunkClaims|
      invariant 0 <= m <= |chunkClaims|
      invariant cs' == cs + BucketClaims(h, chunkClaims[..m], world)
    {
      var claim := chunkClaims[m];
      assert chunkClaims[..m + 1] == chunkClaims[..m] + [claim];
      if claim in h && h[claim].inDataStore && world == h[claim].world {
        cs' := cs' + {claim};
      }
      m := m + 1;
    }
    assert chunkClaims[..m] == chunkClaims;
  }

  /** `setNewDepth` is the settling of the depth (with the parent taken down when it
      must be), the claim's own step and the child loop, in that order. */
  lemma DeepenedSteps(s: Store, r: Ref, newDepth: int32, cfg: Config, s1: Store)
    requires WellFormed(s.heap) && r in s.heap
    requires var d := NewDepth(s, r, newDepth, cfg);
      s1 == if ExtendsParent(s, r, d) then Deepened(s, s.heap[r].parent.value, d, cfg) else s
    ensures r in s1.heap && s1.heap[r].children == s.heap[r].children
    ensures var d := NewDepth(s, r, newDepth, cfg);
      var s2 := OwnStep(s1, r, d);
      s2.heap[r].children == s.heap[r].children
      && (forall j :: 0 <= j < |s.heap[r].children| ==> s.heap[r].children[j] in s2.heap)
      && Deepened(s, r, newDepth, cfg) == DeepenChildren(s2, s.heap[r].children, d, 0)
  {
    SameLinksWellFormed(s.heap, s1.heap);
  }

  /** What `setNewDepth`'s child loop keeps: what is left of the loop, run on the
      current store, ends where the whole loop would. */
  predicate ChildLoop(goal: Store, s: Store, kids: seq<Ref>, depth: int32, i: nat)
  {
    i <= |kids| && (forall j :: 0 <= j < |kids| ==> kids[j] in s.heap)
    && goal == DeepenChildren(s, kids, depth, i)
  }

  lemma ChildLoopStep(goal: Store, s: Store, kids: seq<Ref>, depth: int32, i: nat)
    requires ChildLoop(goal, s, kids, depth, i) && i < |kids|
    ensures ChildLoop(goal, DeepenChild(s, kids[i], depth), kids, depth, i + 1)
  {
    DeepenChildrenUnfold(s, kids, depth, i);
  }

  lemma ChildLoopDone(goal: Store, s: Store, kids: seq<Ref>, depth: int32, i: nat)
    requires ChildLoop(goal, s, kids, depth, i) && i >= |kids|
    ensures goal == s
  {
  }

  /** The four ways `createClaim` ends once the new object exists. */
  lemma AdmitPaths(s: Store, c: Claim, floor: int32, depth: int32, dryRun: bool, cancelled: bool, cfg: Config)
    requires Valid(s) && ParentOk(s, c.parent) && c.children == []
    ensures Numbered(s, c) == AssignId(Allocated(s, c), s.nextRef)
    ensures var cands := Candidates(s, c.parent);
      var i := FirstConflict(s.heap, cands, c, 0);
      var o := Admit(s, c, floor, depth, dryRun, cancelled, cfg);
      (i < |cands| ==> o == Created(CreateResult(false, Some(cands[i])), Allocated(s, c)))
      && (i == |cands| && dryRun ==> o == Created(CreateResult(true, Some(s.nextRef)), Allocated(s, c)))
      && (i == |cands| && !dryRun && cancelled ==> o == Created(CreateResult(false, None), Numbered(s, c)))
      && (i == |cands| && !dryRun && !cancelled ==>
            o == Created(CreateResult(true, Some(s.nextRef)), Commit(Numbered(s, c), s.nextRef, floor, depth, cfg)))
  {
  }

  /** The overlap scan of `createClaim`: the position of the first candidate with
      another id, in the store and overlapping the new claim, or the number of
      candidates. */
  method FindConflict(h: Heap, cands: seq<Ref>, c: Claim) returns (i: nat)
    requires forall k :: 0 <= k < |cands| ==> cands[k] in h
    ensures i == FirstConflict(h, cands, c, 0)
  {
    i := 0;
    while i < |cands|
      invariant i <= |cands|
      invariant FirstConflict(h, cands, c, 0) == FirstConflict(h, cands, c, i)
    {
      var other := cands[i];
      if h[other].id != c.id && h[other].inDataStore && h[other].Overlaps(c) {
        return;
      }
      i := i + 1;
    }
  }

  /** The scan sees the same candidates, with the same values, once the new object is
      allocated. */
  lemma CandidatesAllocated(s: Store, c: Claim)
    requires Valid(s) && ParentOk(s, c.parent)
    ensures var h := s.heap[s.nextRef := c];
      var cands := Candidates(s, c.parent);
      (c.parent.Some? ==> cands == h[c.parent.value].children)
      && (forall k :: 0 <= k < |cands| ==> cands[k] in h)
      && FirstConflict(h, cands, c, 0) == FirstConflict(s.heap, cands, c, 0)
  {
    var h := s.heap[s.nextRef := c];
    var cands := Candidates(s, c.parent);
    assert s.nextRef !in s.heap;
    FirstConflictFrame(s.heap, h, cands, c, 0);
  }

  /** The scan reads only the candidates. */
  lemma {:induction false} FirstConflictFrame(h: Heap, h': Heap, cands: seq<Ref>, c: Claim, i: nat)
    requires forall k :: 0 <= k < |cands| ==> cands[k] in h && cands[k] in h' && h'[cands[k]] == h[cands[k]]
    requires i <= |cands|
    ensures FirstConflict(h', cands, c, i) == FirstConflict(h, cands, c, i)
    decreases |cands| - i
  {
    if i < |cands| {
      FirstConflictFrame(h, h', cands, c, i + 1);
    }
  }

  /** Unlinking a subdivision changes no id or box, so the index removal reads the same. */
  lemma UnlinkedIndex(index: Index, h: Heap, c: Ref)
    requires IndexIn(index, h) && c in h && (h[c].parent.Some? ==> h[c].parent.value in h)
    ensures IndexIn(index, Unlinked(h, c))
    ensures RemoveFromIndex(index, Unlinked(h, c), c) == RemoveFromIndex(index, h, c)
  {
    var h' := Unlinked(h, c);
    assert SameIdentity(h, h');
    RemoveHashesSameIds(index, h, h', ChunkHashes(h[c].bounds), h[c].id);
  }

  /** What `truncateSubdivisions`' loop keeps: the store is the first n passes over the
      children as they were before the loop. */
  predicate TruncLoop(s0: Store, s: Store, r: Ref, kids: seq<Ref>, pb: Box, save: bool, n: nat)
  {
    Coherent(s0) && r in s0.heap && kids == s0.heap[r].children && n <= |kids|
    && s == TruncatedAll(s0, r, kids, pb, save, n)
  }

  lemma TruncLoopStep(s0: Store, s: Store, r: Ref, kids: seq<Ref>, pb: Box, save: bool, n: nat)
    requires TruncLoop(s0, s, r, kids, pb, save, n) && n < |kids|
    ensures Coherent(s) && kids[n] in s.heap && s.heap[kids[n]].parent == Some(r)
    ensures TruncLoop(s0, TruncateChild(s, kids[n], pb, save), r, kids, pb, save, n + 1)
  {
    PassStep(s0.heap, s, r, kids, pb, save, n + 1);
    assert s0.heap[kids[n]].parent == Some(r);
  }

  /** The two ways `resizeClaim` ends, by its dry run. */
  lemma ResizePaths(s: Store, r: Ref, x1: int32, x2: int32, y1: int32, y2: int32, z1: int32, z2: int32,
                    border: Location -> bool, cfg: Config)
    requires Valid(s) && r in s.heap
    ensures ParentOk(s, s.heap[r].parent)
    ensures var q := ResizeRequest(s.heap[r], x1, x2, y1, y2, z1, z2);
      var d := Create(s, q, true, border, false, cfg);
      (!d.result.succeeded ==> Resized(s, r, x1, x2, y1, y2, z1, z2, border, cfg) == d)
      && (d.result.succeeded ==>
            d.result.claim.Some? && d.result.claim.value in d.store.heap && r in d.store.heap
            && d.store.heap[r] == s.heap[r] && Valid(d.store)
            && Resized(s, r, x1, x2, y1, y2, z1, z2, border, cfg)
                 == Created(CreateResult(true, Some(r)),
                            Settled(Moved(d.store, r, CappedBox(d.store.heap[d.result.claim.value].bounds, s.heap[r].world), cfg), r)))
  {
    var q := ResizeRequest(s.heap[r], x1, x2, y1, y2, z1, z2);
    CreateValid(s, q, true, border, false, cfg);
    CreateDryRun(s, q, border, false, cfg);
  }

  /** The clamping of one child box in `truncateSubdivisions`: each bound brought inside
      the parent's, noting whether any moved, then the clamped `set`. */
  method ClampToParent(b: Box, pb: Box) returns (t: Box, mod: bool)
    ensures t == Truncated(b, pb) && mod == Clamps(b, pb)
  {
    var clx, cly, clz, cgx, cgy, cgz := b.minX, b.minY, b.minZ, b.maxX, b.maxY, b.maxZ;
    mod := false;
    if clx < pb.minX {
      clx := pb.minX;
      mod := true;
    }
    if cly < pb.minY {
      cly := pb.minY;
      mod := true;
    }
    if clz < pb.minZ {
      clz := pb.minZ;
      mod := true;
    }
    if cgx > pb.maxX {
      cgx := pb.maxX;
      mod := true;
    }
    if cgy > pb.maxY {
      cgy := pb.maxY;
      mod := true;
    }
    if cgz > pb.maxZ {
      cgz := pb.maxZ;
      mod := true;
    }
    t := b.SetClamped(clx, cly, clz, cgx, cgy, cgz);
  }

  /** Settling is the truncation, then the indexing under the new chunks. */
  lemma SettledSteps(s: Store, r: Ref)
    requires Valid(s) && r in s.heap
    ensures Coherent(s)
    ensures var s1 := Truncate(s, r, true);
      Settled(s, r) == s1.(index := AddToIndex(s1.index, s1.heap, r))
  {
  }

  /** The move is `setNewDepth` on the store with the claim out of the index under its
      old chunks and holding the new box. */
  lemma MovedVia(s: Store, r: Ref, nb: Box, cfg: Config, s2: Store)
    requires Valid(s) && r in s.heap
    requires s2 == s.(index := RemoveFromIndex(s.index, s.heap, r), heap := s.heap[r := s.heap[r].(bounds := nb)])
    ensures WellFormed(s2.heap) && r in s2.heap && s2.heap[r].bounds.minY == nb.minY
    ensures Moved(s, r, nb, cfg) == Deepened(s2, r, nb.minY, cfg)
  {
    MovedSteps(s, r, nb, cfg);
  }

  class DataStore {
    /** The claim objects, by reference. */
    var heap: Heap
    /** `claims`: the top-level claims, in list order. */
    var claims: seq<Ref>
    /** `chunksToClaimsMap`. */
    var index: Index
    /** `nextClaimID`. */
    var nextClaimID: int
    /** The reference the next new claim object gets. */
    var nextRef: Ref
    /** `softMuteMap`. */
    var softMuteMap: map<Uuid, bool>
    /** `permissionToBonusBlocksMap`. */
    var permissionToBonusBlocksMap: map<string, int32>
    /** `messages`: the message texts, by the ordinal of their message id. */
    var messages: seq<string>

    /** The claim part of the object, as a value. */
    function State(): Store
      reads this
    {
      Store(heap, claims, index, nextClaimID, nextRef)
    }

    // ----- player records and messages -----

    /** `toggleSoftMute(playerID)`: the flag flips, and the new value is returned. */
    method ToggleSoftMute(playerID: Uuid) returns (newValue: bool)
      modifies this`softMuteMap
      ensures newValue == !SoftMuted(old(softMuteMap), playerID)
      ensures softMuteMap == Toggled(old(softMuteMap), playerID)
    {
      newValue := !(playerID in softMuteMap && softMuteMap[playerID]);
      softMuteMap := softMuteMap[playerID := newValue];
    }

    /** `adjustGroupBonusBlocks(groupName, amount)`: the group's total, 0 when it has
        none, moves by the amount in `int` arithmetic and is returned. */
    method AdjustGroupBonusBlocks(groupName: string, amount: int32) returns (currentValue: int32)
      modifies this`permissionToBonusBlocksMap
      ensures currentValue == Wrap32(BonusOf(old(permissionToBonusBlocksMap), groupName) + amount)
      ensures permissionToBonusBlocksMap == BonusAdjusted(old(permissionToBonusBlocksMap), groupName, amount)
    {
      currentValue := if groupName in permissionToBonusBlocksMap then permissionToBonusBlocksMap[groupName] else 0;
      currentValue := Add32(currentValue, amount);
      permissionToBonusBlocksMap := permissionToBonusBlocksMap[groupName := currentValue];
    }

    /** `getMessage(messageID, args...)`: the message's text with `{i}` replaced by the
        i-th argument, for each argument in turn. */
    method GetMessage(messageID: nat, args: seq<string>) returns (message: string)
      requires messageID < |messages|
      ensures message == Substituted(messages[messageID], args, |args|)
    {
      message := messages[messageID];
      var i := 0;
      while i < |args|
        invariant i <= |args|
        invariant message == Substituted(messages[messageID], args, i)
      {
        var param := args[i];
        message := Replace(message, Placeholder(i), param);
        i := i + 1;
      }
    }

    /** `changeClaimOwner(claim, newOwnerID)`, with the transfer event as it comes back
        from the listeners. A thrown NoTransferException leaves the store as it was. */
    method ChangeClaimOwner(r: Ref, event: TransferEvent) returns (thrown: Option<NoTransferException>)
      requires r in heap
      modifies this`heap, this`nextClaimID
      ensures OwnerChanged(old(State()), r, event) == if thrown.Some? then Failure(thrown.value) else Success(State())
    {
      thrown := None;
      if heap[r].parent.Some? {
        thrown := Some(NoTransferException(SubdivisionTransferMessage));
        return;
      }
      if event.cancelled {
        return;
      }
      heap := heap[r := heap[r].(ownerID := event.newOwner)];
      SaveClaim(r);
    }

    // ----- ids and the index -----

    /** `assignClaimID`: a claim without an id, or with id -1, takes the counter, which
        moves on. */
    method AssignClaimID(r: Ref)
      requires r in heap
      modifies this`heap, this`nextClaimID
      ensures State() == AssignId(old(State()), r)
    {
      if heap[r].id.None? || heap[r].id == Some(-1) {
        heap := heap[r := heap[r].(id := Some(nextClaimID))];
        nextClaimID := nextClaimID + 1;
      }
    }

    /** `saveClaim`: the id is assigned; the write to storage is not modelled. */
    method SaveClaim(r: Ref)
      requires r in heap
      modifies this`heap, this`nextClaimID
      ensures State() == AssignId(old(State()), r)
    {
      AssignClaimID(r);
    }

    /** `addToChunkClaimMap`: nothing for a subdivision; otherwise the claim joins the
        bucket of each of its chunks, a bucket being created where there was none. */
    method AddToChunkClaimMap(r: Ref)
      requires r in heap
      modifies this`index
      ensures index == AddToIndex(old(index), heap, r)
    {
      if heap[r].parent.Some? {
        return;
      }
      var hashes := GetChunkHashes(heap[r].bounds);
      var i := 0;
      while i < |hashes|
        invariant 0 <= i <= |hashes|
        invariant index == AddHashes(old(index), hashes[..i], r)
      {
        var k := hashes[i];
        var bucket := if k in index then index[k] else [];
        index := index[k := bucket + [r]];
        assert hashes[..i + 1][..i] == hashes[..i];
        i := i + 1;
      }
      assert hashes[..i] == hashes;
    }

    /** `removeFromChunkClaimMap`: from the bucket of each of the claim's chunks the
        first claim with its id leaves, and a bucket left empty is dropped. */
    method RemoveFromChunkClaimMap(r: Ref)
      requires r in heap && IndexIn(index, heap)
      modifies this`index
      ensures index == RemoveFromIndex(old(index), heap, r)
    {
      var hashes := GetChunkHashes(heap[r].bounds);
      var id := heap[r].id;
      var i := 0;
      while i < |hashes|
        invariant 0 <= i <= |hashes|
        invariant index == RemoveHashes(old(index), heap, hashes[..i], id)
      {
        var k := hashes[i];
        assert hashes[..i + 1][..i] == hashes[..i];
        if k in index {
          var bucket := RemoveFirstWithIdFrom(index[k], heap, id);
          if bucket == [] {
            index := index - {k};
          } else {
            index := index[k := bucket];
          }
        }
        i := i + 1;
      }
      assert hashes[..i] == hashes;
    }

    // ----- adding and deleting claims -----

    /** `addClaim(claim, writeToStorage)`. */
    method AddClaim(r: Ref, writeToStorage: bool)
      requires Valid(State()) && r in heap
      modifies this`heap, this`claims, this`index, this`nextClaimID
      ensures State() == AddClaimTo(old(State()), r, writeToStorage)
    {
      if heap[r].parent.Some? {
        var p := heap[r].parent.value;
        if r !in heap[p].children {
          heap := heap[p := heap[p].(children := heap[p].children + [r])];
        }
        heap := heap[r := heap[r].(inDataStore := true)];
        if writeToStorage {
          SaveClaim(r);
        }
        return;
      }
      claims := claims + [r];
      AddToChunkClaimMap(r);
      heap := heap[r := heap[r].(inDataStore := true)];
      if writeToStorage {
        SaveClaim(r);
      }
    }

    /** `deleteClaim(claim, …)`: the loop over the children (see `DeleteChildren`), then
        the claim itself leaves the store. */
    method DeleteClaim(r: Ref)
      requires Valid(State()) && r in heap
      modifies this`heap, this`claims, this`index
      ensures State() == Deleted(old(State()), r)
      decreases Level(heap, r)
    {
      var j := 1;
      while j - 1 < |heap[r].children|
        invariant 1 <= j && Valid(State()) && r in heap && heap[r].parent == old(heap)[r].parent
        invariant DeleteChildren(old(State()), r, 1) == DeleteChildren(State(), r, j)
        decreases |heap[r].children| + 1 - j
      {
        DeleteChildStep(State(), r, j);
        DeleteClaim(heap[r].children[j - 1]);
        j := j + 1;
      }
      DeleteChildrenDone(State(), r, j);
      RemoveFromStore(r);
    }

    /** The rest of `deleteClaim`: the claim leaves its parent's children and is marked,
        the pass over the list removes the first top-level claim with its id, and the
        index forgets it. */
    method RemoveFromStore(r: Ref)
      requires Coherent(State()) && r in heap
      modifies this`heap, this`claims, this`index
      ensures State() == Detach(old(State()), r)
    {
      var id := heap[r].id;
      UnlinkAndMark(r);
      claims := RemoveFirstWithIdFrom(claims, heap, id);
      RemoveFromChunkClaimMap(r);
      DetachParts(old(State()), r, heap, claims, index);
    }

    /** `parentClaim.children.remove(claim)` for a subdivision, then
        `claim.inDataStore = false`. */
    method UnlinkAndMark(r: Ref)
      requires r in heap && (heap[r].parent.Some? ==> heap[r].parent.value in heap)
      requires AllIn(heap, claims) && IndexIn(index, heap)
      modifies this`heap
      ensures heap == DetachHeap(old(heap), r) && SameIdentity(old(heap), heap)
      ensures AllIn(heap, claims) && IndexIn(index, heap)
    {
      if heap[r].parent.Some? {
        var p := heap[r].parent.value;
        heap := heap[p := heap[p].(children := RemoveFirst(heap[p].children, r))];
      }
      heap := heap[r := heap[r].(inDataStore := false)];
      DetachHeapEffect(old(heap), r);
    }

    /** `deleteClaimsInWorld(world, deleteAdminClaims)`: after a deletion the position is
        visited again (`i--`), since the next claim moved into it. */
    method DeleteClaimsInWorld(world: World, deleteAdminClaims: bool)
      requires Valid(State())
      modifies this`heap, this`claims, this`index
      ensures State() == WorldDeleted(old(State()), world, deleteAdminClaims, 0)
    {
      ghost var goal := WorldDeleted(State(), world, deleteAdminClaims, 0);
      var i: int := 0;
      while i < |claims|
        invariant WorldLoop(goal, State(), world, deleteAdminClaims, i)
        decreases |claims|, |claims| - i
      {
        i := DeleteClaimsInWorldStep(goal, world, deleteAdminClaims, i);
      }
      WorldLoopDone(goal, State(), world, deleteAdminClaims, i);
    }

    /** The body of `deleteClaimsInWorld`'s loop at position i, with the loop's `i++`:
        a claim of the world is deleted and, by `i--`, its position visited again; a
        claim of another world, or an administrative claim that is kept (`continue`),
        is passed. */
    method DeleteClaimsInWorldStep(ghost goal: Store, world: World, deleteAdminClaims: bool, i: int)
      returns (next: int)
      requires WorldLoop(goal, State(), world, deleteAdminClaims, i) && i < |claims|
      modifies this`heap, this`claims, this`index
      ensures WorldLoop(goal, State(), world, deleteAdminClaims, next)
      ensures |claims| < |old(claims)| || (|claims| == |old(claims)| && next == i + 1)
    {
      ghost var s := State();
      var claim := claims[i];
      if heap[claim].world == world {
        if !deleteAdminClaims && IsAdminClaim(heap, claim) {
          WorldLoopSkip(goal, s, world, deleteAdminClaims, i);
          return i + 1;
        }
        DeleteClaim(claim);
        WorldLoopDelete(goal, s, State(), world, deleteAdminClaims, i);
        return i - 1 + 1;
      }
      WorldLoopSkip(goal, s, world, deleteAdminClaims, i);
      return i + 1;
    }

    // ----- lookups -----

    /** `getClaimAt(location, ignoreHeight, ignoreSubclaims, cachedClaim)`. */
    method GetClaimAt(loc: Location, ignoreHeight: bool, ignoreSubclaims: bool, cachedClaim: Option<Ref>)
      returns (r: Option<Ref>)
      requires Coherent(State()) && (cachedClaim.Some? ==> cachedClaim.value in heap)
      ensures r == ClaimAt(State(), loc, ignoreHeight, ignoreSubclaims, cachedClaim)
    {
      if cachedClaim.Some? {
        var cached := cachedClaim.value;
        if heap[cached].inDataStore && (heap[cached].parent.None? || !ignoreSubclaims) {
          var inside := Contains(heap, cached, loc, !heap[cached].Is3D() && ignoreHeight, !ignoreSubclaims);
          if inside {
            return cachedClaim;
          }
        }
      }
      var chunkID := LocationChunkHash(loc);
      if chunkID !in index {
        return None;
      }
      var claimsInChunk := index[chunkID];
      assert AllIn(heap, claimsInChunk);
      r := SearchBucket(heap, claimsInChunk, loc, ignoreHeight, ignoreSubclaims);
    }

    /** `getClaim(id)`. */
    method GetClaim(id: int) returns (r: Option<Ref>)
      requires WellFormed(heap) && AllIn(heap, claims)
      ensures r == ClaimWithId(heap, claims, id, 0)
    {
      var i := 0;
      while i < |claims|
        invariant 0 <= i <= |claims|
        invariant ClaimWithId(heap, claims, id, 0) == ClaimWithId(heap, claims, id, i)
      {
        var claim := claims[i];
        if heap[claim].inDataStore {
          if heap[claim].id == Some(id) {
            return Some(claim);
          }
          var kids := heap[claim].children;
          assert AllIn(heap, kids);
          var j := 0;
          while j < |kids|
            invariant 0 <= j <= |kids|
            invariant ChildWithId(heap, kids, id, 0) == ChildWithId(heap, kids, id, j)
          {
            if heap[kids[j]].id == Some(id) {
              return Some(kids[j]);
            }
            j := j + 1;
          }
        }
        i := i + 1;
      }
      return None;
    }

    /** `getChunkClaims(world, boundingBox)`: the loops over the chunk columns and rows,
        each bucket's claims in the store and in the world collected in a set. */
    method GetChunkClaims(world: World, box: Box) returns (cs: set<Ref>)
      ensures cs == ChunkClaims(State(), world, box)
    {
      cs := {};
      var smallX, smallZ := ShiftRight4(box.minX), ShiftRight4(box.minZ);
      var largeX, largeZ := ShiftRight4(box.maxX), ShiftRight4(box.maxZ);
      var x: int := smallX;
      while x <= largeX
        invariant smallX <= x <= largeX + 1 || (x == smallX && largeX < smallX)
        invariant cs == ClaimsOfChunks(heap, index, Grid(smallX, x - 1, smallZ, largeZ), world)
        decreases largeX - x
      {
        cs := CollectColumn(x as int32, smallZ, largeZ, world, cs, Grid(smallX, x - 1, smallZ, largeZ));
        x := x + 1;
      }
    }

    /** `getChunkClaims`' loop over the chunk rows of column x. */
    method CollectColumn(x: int32, smallZ: int32, largeZ: int32, world: World, cs: set<Ref>, ghost before: seq<int>)
      returns (cs': set<Ref>)
      requires cs == ClaimsOfChunks(heap, index, before, world)
      ensures cs' == ClaimsOfChunks(heap, index, before + Row(x, smallZ, largeZ), world)
    {
      cs' := cs;
      var z: int := smallZ;
      assert Row(x, smallZ, z - 1) == [] && before + [] == before;
      while z <= largeZ
        invariant smallZ <= z <= largeZ + 1 || (z == smallZ && largeZ < smallZ)
        invariant ColumnLoop(heap, index, before, x, smallZ, z, world, cs')
        decreases largeZ - z
      {
        cs' := CollectChunk(x, smallZ, z as int32, world, cs', before);
        z := z + 1;
      }
    }

    /** The body of that loop for chunk (x, z): the claims of its bucket, if it has one,
        join the set. */
    method CollectChunk(x: int32, smallZ: int32, z: int32, world: World, cs: set<Ref>, ghost before: seq<int>)
      returns (cs': set<Ref>)
      requires smallZ <= z && ColumnLoop(heap, index, before, x, smallZ, z, world, cs)
      ensures ColumnLoop(heap, index, before, x, smallZ, z as int + 1, world, cs')
    {
      var k := ChunkHash(x, z);
      RowStep(x, smallZ, z, before);
      ChunksStep(heap, index, before + Row(x, smallZ, z as int - 1), k, world);
      cs' := cs;
      if k in index {
        cs' := CollectBucket(heap, index[k], world, cs');
      }
    }

    // ----- creating claims -----

    /** `createClaim(world, x1, x2, y1, y2, z1, z2, ownerID, parent, id, player, dryRun)`;
        the world border test and the creation event's verdict are parameters. */
    method CreateClaim(q: Request, dryRun: bool, border: Location -> bool, cancelled: bool, cfg: Config)
      returns (result: CreateResult)
      requires Valid(State()) && ParentOk(State(), q.parent)
      modifies this`heap, this`claims, this`index, this`nextClaimID, this`nextRef
      ensures Created(result, State()) == Create(old(State()), q, dryRun, border, cancelled, cfg)
    {
      var k := OrderCorners(q, cfg);
      if q.parent.Some? {
        var b := heap[q.parent.value].bounds;
        if k.smallx < b.minX || k.smallz < b.minZ || k.bigx > b.maxX || k.bigz > b.maxZ
           || (heap[q.parent.value].Is3D() && (k.smally < b.minY || k.bigy > b.maxY))
        {
          CreateOutsideParent(old(State()), q, dryRun, border, cancelled, cfg);
          return CreateResult(false, q.parent);
        }
      }
      if !border(Location(q.world, k.smallx, k.smally, k.smallz)) || !border(Location(q.world, k.bigx, k.bigy, k.bigz)) {
        CreateOutsideBorder(old(State()), q, dryRun, border, cancelled, cfg);
        return CreateResult(false, None);
      }
      CreateSteps(old(State()), q, dryRun, border, cancelled, cfg);
      var floor := k.smally;
      if cfg.creative(q.world) && k.bigy == TWO_D_HEIGHT {
        floor := q.world.minHeight;
      }
      var newClaim := Claim(q.world, Normalise(k.smallx, k.smally, k.smallz, k.bigx, k.bigy, k.bigz), q.id, q.ownerID,
                            [], map[], false, false, q.parent, false, [], {});
      result := AdmitClaim(newClaim, floor, Sub32(floor, cfg.extendIntoGround), dryRun, cancelled, cfg);
    }

    /** The start of `createClaim`: each axis ordered, the floor sanitised
        (`sanitizeClaimDepth`) and a top that is not the 2D sentinel capped at the
        world's maximum height. */
    method OrderCorners(q: Request, cfg: Config) returns (k: Corners)
      ensures k == RequestedCorners(q, cfg)
    {
      var smallx, bigx := if q.x1 < q.x2 then q.x1 else q.x2, if q.x1 < q.x2 then q.x2 else q.x1;
      var smally, bigy := if q.y1 < q.y2 then q.y1 else q.y2, if q.y1 < q.y2 then q.y2 else q.y1;
      var smallz, bigz := if q.z1 < q.z2 then q.z1 else q.z2, if q.z1 < q.z2 then q.z2 else q.z1;
      smally := Sanitize(smally, q.world, cfg);
      if bigy != TWO_D_HEIGHT {
        bigy := Min(q.world.maxHeight, bigy);
      }
      k := Corners(smallx, smally, smallz, bigx, bigy, bigz);
    }

    /** The rest of `createClaim` once the new object exists: the overlap scan over its
        future siblings, the dry run, the id, the event, the add and the extension of
        the parent down to the new floor. */
    method AdmitClaim(c: Claim, floor: int32, depth: int32, dryRun: bool, cancelled: bool, cfg: Config)
      returns (result: CreateResult)
      requires Valid(State()) && ParentOk(State(), c.parent) && c.children == []
      modifies this`heap, this`claims, this`index, this`nextClaimID, this`nextRef
      ensures Created(result, State()) == Admit(old(State()), c, floor, depth, dryRun, cancelled, cfg)
    {
      ghost var s := State();
      AdmitPaths(s, c, floor, depth, dryRun, cancelled, cfg);
      var r := NewClaimObject(c);
      var cands := if c.parent.Some? then heap[c.parent.value].children else claims;
      CandidatesAllocated(s, c);
      var i := FindConflict(heap, cands, c);
      if i < |cands| {
        return CreateResult(false, Some(cands[i]));
      }
      if dryRun {
        return CreateResult(true, Some(r));
      }
      AssignClaimID(r);
      if cancelled {
        return CreateResult(false, None);
      }
      CommitClaim(r, floor, depth, cfg);
      return CreateResult(true, Some(r));
    }

    /** `new Claim(…)`: the object is allocated at the next reference. */
    method NewClaimObject(c: Claim) returns (r: Ref)
      modifies this`heap, this`nextRef
      ensures r == old(nextRef) && State() == Allocated(old(State()), c)
    {
      r := nextRef;
      heap := heap[r := c];
      nextRef := nextRef + 1;
    }

    /** `addClaim(newClaim, true)`, then, when the new floor is below the parent's,
        `setNewDepth(parent, depth)`. */
    method CommitClaim(r: Ref, floor: int32, depth: int32, cfg: Config)
      requires Valid(State()) && r in heap
      modifies this`heap, this`claims, this`index, this`nextClaimID
      ensures State() == Commit(old(State()), r, floor, depth, cfg)
    {
      var parent := heap[r].parent;
      AddClaimEffect(State(), r, true);
      AddClaim(r, true);
      if parent.Some? && floor < heap[parent.value].bounds.minY {
        var _ := SetNewDepth(parent.value, depth, cfg);
      }
    }

    // ----- resizing -----

    /** `resizeClaim(claim, x1, x2, y1, y2, z1, z2, player)`: a dry-run creation with the
        claim's own owner, parent and id decides; on success the claim leaves the index
        under its old chunks, takes the dry run's box (its top capped when 3D), is
        deepened to the new floor, has its subdivisions truncated, is reported and is
        indexed under its new chunks. */
    method ResizeClaim(r: Ref, x1: int32, x2: int32, y1: int32, y2: int32, z1: int32, z2: int32,
                       border: Location -> bool, cfg: Config) returns (result: CreateResult)
      requires Valid(State()) && r in heap
      modifies this`heap, this`claims, this`index, this`nextClaimID, this`nextRef
      ensures Created(result, State()) == Resized(old(State()), r, x1, x2, y1, y2, z1, z2, border, cfg)
    {
      var c := heap[r];
      ResizePaths(State(), r, x1, x2, y1, y2, z1, z2, border, cfg);
      result := CreateClaim(Request(c.world, x1, x2, y1, y2, z1, z2, c.ownerID, c.parent, c.id), true, border, false, cfg);
      if result.succeeded {
        ApplyResize(r, result.claim.value, cfg);
        result := CreateResult(true, Some(r));
      }
    }

    /** What a successful dry run leads to: the claim is moved to the new box, its
        subdivisions are truncated and it is indexed under its new chunks. */
    method ApplyResize(r: Ref, src: Ref, cfg: Config)
      requires Valid(State()) && r in heap && src in heap
      modifies this`heap, this`index, this`nextClaimID
      ensures State() == Settled(Moved(old(State()), r, CappedBox(old(heap)[src].bounds, old(heap)[r].world), cfg), r)
    {
      MoveClaim(r, src, cfg);
      SettleClaim(r);
    }

    /** The end of `resizeClaim`: `truncateSubdivisions(claim, true)`, then
        `addToChunkClaimMap(claim)`. */
    method SettleClaim(r: Ref)
      requires Valid(State()) && r in heap
      modifies this`heap, this`index, this`nextClaimID
      ensures State() == Settled(old(State()), r)
    {
      SettledSteps(State(), r);
      TruncateSubdivisions(r, true);
      AddToChunkClaimMap(r);
    }

    /** The middle of `resizeClaim`: out of the index under the old chunks, the box of
        the dry run's claim copied, the top capped when 3D, then `setNewDepth` to the
        new floor. */
    method MoveClaim(r: Ref, src: Ref, cfg: Config)
      requires Valid(State()) && r in heap && src in heap
      modifies this`heap, this`index, this`nextClaimID
      ensures State() == Moved(old(State()), r, CappedBox(old(heap)[src].bounds, old(heap)[r].world), cfg)
    {
      ghost var s := State();
      ghost var nb := CappedBox(heap[src].bounds, heap[r].world);
      RemoveFromChunkClaimMap(r);
      CopyBox(r, src);
      MovedVia(s, r, nb, cfg, State());
      var _ := SetNewDepth(r, heap[r].bounds.minY, cfg);
    }

    /** `claim.getBounds().copy(result.claim)`, then, when the copied box is 3D, its top
        capped at the world's maximum height. */
    method CopyBox(r: Ref, src: Ref)
      requires r in heap && src in heap
      modifies this`heap
      ensures heap == old(heap)[r := old(heap)[r].(bounds := CappedBox(old(heap)[src].bounds, old(heap)[r].world))]
    {
      heap := heap[r := heap[r].(bounds := heap[src].bounds)];
      if heap[r].Is3D() {
        var b := heap[r].bounds;
        heap := heap[r := heap[r].(bounds := b.WithY(b.minY, Min(heap[r].world.maxHeight, b.maxY)))];
      }
    }

    /** `truncateSubdivisions(claim, saveIfModified)`: the iterator loop over the
        children, against the claim's box as it was read before the loop. */
    method TruncateSubdivisions(r: Ref, saveIfModified: bool)
      requires Coherent(State()) && r in heap
      modifies this`heap, this`index, this`nextClaimID
      ensures State() == Truncate(old(State()), r, saveIfModified)
    {
      var pb := heap[r].bounds;
      var kids := heap[r].children;
      ghost var s0 := State();
      var n := 0;
      while n < |kids|
        invariant TruncLoop(s0, State(), r, kids, pb, saveIfModified, n)
        decreases |kids| - n
      {
        TruncateStep(s0, r, kids, pb, saveIfModified, n);
        n := n + 1;
      }
    }

    /** The body of that loop for the n-th child. */
    method TruncateStep(ghost s0: Store, r: Ref, kids: seq<Ref>, pb: Box, saveIfModified: bool, n: nat)
      requires TruncLoop(s0, State(), r, kids, pb, saveIfModified, n) && n < |kids|
      modifies this`heap, this`index, this`nextClaimID
      ensures TruncLoop(s0, State(), r, kids, pb, saveIfModified, n + 1)
    {
      TruncLoopStep(s0, State(), r, kids, pb, saveIfModified, n);
      TruncateChildAt(r, kids[n], pb, saveIfModified);
    }

    /** One pass of `truncateSubdivisions`: each bound of the child brought inside the
        claim's, a clamped `set`; a child left outside is removed from the claim's
        children and from the index, and otherwise a changed child is saved when asked. */
    method TruncateChildAt(r: Ref, c: Ref, pb: Box, saveIfModified: bool)
      requires Coherent(State()) && c in heap && heap[c].parent == Some(r)
      modifies this`heap, this`index, this`nextClaimID
      ensures State() == TruncateChild(old(State()), c, pb, saveIfModified)
    {
      var t, mod := ClampToParent(heap[c].bounds, pb);
      TruncateChildSteps(State(), c, pb, saveIfModified);
      heap := heap[c := heap[c].(bounds := t)];
      if !pb.ContainsBox(t) {
        DropChildAt(r, c);
      } else if mod && saveIfModified {
        SaveClaim(c);
      }
    }

    /** `it.remove()`, then `removeFromChunkClaimMap(child)`. */
    method DropChildAt(r: Ref, c: Ref)
      requires IndexIn(index, heap) && c in heap && r in heap && heap[c].parent == Some(r)
      modifies this`heap, this`index
      ensures State() == DropChild(old(State()), c)
    {
      UnlinkedIndex(index, heap, c);
      heap := heap[r := heap[r].(children := RemoveFirst(heap[r].children, c))];
      RemoveFromChunkClaimMap(c);
    }

    // ----- depth -----

    /** `setNewDepth(claim, newDepth)`, returning the depth it settled on. */
    method SetNewDepth(r: Ref, newDepth: int32, cfg: Config) returns (depth: int32)
      requires WellFormed(heap) && r in heap
      modifies this`heap, this`nextClaimID
      ensures State() == Deepened(old(State()), r, newDepth, cfg)
      ensures depth == NewDepth(old(State()), r, newDepth, cfg)
      decreases Depth(heap, r), 1
    {
      depth := SettleDepth(r, newDepth, cfg);
      DeepenedSteps(old(State()), r, newDepth, cfg, State());
      SetOwnDepth(r, depth);
      DeepenChildrenAt(heap[r].children, depth);
    }

    /** The start of `setNewDepth`: the request is sanitised; for a subdivision it is
        raised to the parent's floor, or, for a 3D subdivision of a 2D parent reaching
        below that floor, the parent is taken down first. */
    method SettleDepth(r: Ref, newDepth: int32, cfg: Config) returns (depth: int32)
      requires WellFormed(heap) && r in heap
      modifies this`heap, this`nextClaimID
      ensures depth == NewDepth(old(State()), r, newDepth, cfg)
      ensures State() == if ExtendsParent(old(State()), r, depth)
                         then Deepened(old(State()), old(heap)[r].parent.value, depth, cfg) else old(State())
      decreases Depth(heap, r), 0
    {
      depth := Sanitize(newDepth, heap[r].world, cfg);
      if heap[r].parent.Some? {
        var p := heap[r].parent.value;
        if heap[p].Is3D() || !heap[r].Is3D() {
          depth := Max(heap[p].bounds.minY, depth);
        } else if depth < heap[p].bounds.minY {
          var _ := SetNewDepth(p, depth, cfg);
        }
      }
    }

    /** The claim's own step in `setNewDepth`: floor at the depth, top at or above it,
        then saved. */
    method SetOwnDepth(r: Ref, depth: int32)
      requires r in heap
      modifies this`heap, this`nextClaimID
      ensures State() == OwnStep(old(State()), r, depth)
    {
      var c := heap[r];
      var ly, gy := depth, c.bounds.maxY;
      gy := Max(ly, gy);
      heap := heap[r := c.(bounds := c.bounds.WithY(ly, gy))];
      SaveClaim(r);
    }

    /** `setNewDepth`'s loop over the children. */
    method DeepenChildrenAt(kids: seq<Ref>, depth: int32)
      requires forall j :: 0 <= j < |kids| ==> kids[j] in heap
      modifies this`heap, this`nextClaimID
      ensures State() == DeepenChildren(old(State()), kids, depth, 0)
    {
      ghost var goal := DeepenChildren(State(), kids, depth, 0);
      var i := 0;
      while i < |kids|
        invariant ChildLoop(goal, State(), kids, depth, i)
        decreases |kids| - i
      {
        DeepenChildrenStep(goal, kids, depth, i);
        i := i + 1;
      }
      ChildLoopDone(goal, State(), kids, depth, i);
    }

    /** The body of that loop for the i-th child. */
    method DeepenChildrenStep(ghost goal: Store, kids: seq<Ref>, depth: int32, i: nat)
      requires ChildLoop(goal, State(), kids, depth, i) && i < |kids|
      modifies this`heap, this`nextClaimID
      ensures ChildLoop(goal, State(), kids, depth, i + 1)
    {
      ChildLoopStep(goal, State(), kids, depth, i);
      DeepenChildAt(kids[i], depth);
    }

    /** One pass of `setNewDepth`'s child loop: the floor goes to the depth when it is
        below it or the child is 2D, the top when it is below it, and a changed child is
        saved. */
    method DeepenChildAt(c: Ref, depth: int32)
      requires c in heap
      modifies this`heap, this`nextClaimID
      ensures State() == DeepenChild(old(State()), c, depth)
    {
      var b := heap[c].bounds;
      var mod := false;
      var cly, cgy := b.minY, b.maxY;
      if cly < depth || !heap[c].Is3D() {
        cly := depth;
        mod := true;
      }
      if cgy < depth {
        cgy := depth;
        mod := true;
      }
      heap := heap[c := heap[c].(bounds := b.WithY(cly, cgy))];
      if mod {
        SaveClaim(c);
      }
    }

    /** `extendClaim(claim, newDepth)`; the extend event's verdict and the depth it
        settles on are parameters. */
    method ExtendClaim(r: Ref, newDepth: int32, cancelled: bool, eventDepth: int32, cfg: Config)
      requires WellFormed(heap) && r in heap
      modifies this`heap, this`nextClaimID
      ensures State() == Extended(old(State()), r, newDepth, cancelled, eventDepth, cfg)
    {
      var claim := r;
      if heap[claim].parent.Some? {
        claim := heap[claim].parent.value;
      }
      if heap[claim].Is3D() {
        return;
      }
      var depth := Sanitize(newDepth, heap[claim].world, cfg);
      if heap[claim].bounds.minY <= depth {
        return;
      }
      if cancelled {
        return;
      }
      var _ := SetNewDepth(claim, eventDepth, cfg);
    }

    /** The start-up repair of `nextClaimID`: a claim whose id is at least the counter
        moves the counter past it. */
    method RepairNextClaimID()
      requires AllIn(heap, claims)
      modifies this`nextClaimID
      ensures nextClaimID == RepairedNextId(heap, claims, old(nextClaimID), 0)
    {
      var i := 0;
      while i < |claims|
        invariant 0 <= i <= |claims|
        invariant RepairedNextId(heap, claims, old(nextClaimID), 0) == RepairedNextId(heap, claims, nextClaimID, i)
      {
        var id := heap[claims[i]].id;
        if id.Some? && id.value >= nextClaimID {
          nextClaimID := id.value + 1;
        }
        i := i + 1;
      }
    }
  }
}
