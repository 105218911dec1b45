/** The completeness of the chunk index for the top-level list (`Indexed`), which
    `getClaimAt` relies on to find every claim: each operation that changes claims,
    the list or the index keeps it, under the assumption the other index lemmas make
    that ids keep claims apart. */
module Indexing {
  import opened Wrappers
  import opened JavaInt
  import opened BoundingBoxes
  import opened Claims
  import opened ChunkIndex
  import opened Stores
  import opened Lookups
  import opened Depths
  import opened Creation
  import opened Resizing
  import opened Purging
  import opened Transfers

  /** Two boxes over the same chunk columns: the same X and Z extent. */
  predicate SameColumns(a: Box, b: Box)
  {
    a.minX == b.minX && a.maxX == b.maxX && a.minZ == b.minZ && a.maxZ == b.maxZ
  }

  /** A claim of the list is as it was for the index: not newly in the store, and over
      the same chunk columns. */
  predicate Unmoved(s: Store, s': Store, q: Ref)
  {
    q in s'.heap && s'.heap[q].inDataStore ==>
      q in s.heap && s.heap[q].inDataStore && SameColumns(s.heap[q].bounds, s'.heap[q].bounds)
  }

  /** The same list and index, with every claim of the list unmoved. */
  predicate InPlace(s: Store, s': Store)
  {
    s'.claims == s.claims && s'.index == s.index
    && forall i :: 0 <= i < |s.claims| ==> Unmoved(s, s', s.claims[i])
  }

  lemma InPlaceIndexed(s: Store, s': Store)
    requires Indexed(s) && InPlace(s, s')
    ensures Indexed(s')
  {
    forall i, k | 0 <= i < |s'.claims| && s'.claims[i] in s'.heap && s'.heap[s'.claims[i]].inDataStore
      && k in ChunkHashes(s'.heap[s'.claims[i]].bounds)
      ensures s'.claims[i] in Bucket(s'.index, k)
    {
      assert Unmoved(s, s', s.claims[i]);
      var b := s.heap[s.claims[i]].bounds;
      var b' := s'.heap[s.claims[i]].bounds;
      assert ChunkHashes(b) == ChunkHashes(b');
    }
  }

  /** Saving a claim (`assignClaimID`) keeps the index complete. */
  lemma AssignIdIndexed(s: Store, r: Ref)
    requires Indexed(s) && r in s.heap
    ensures Indexed(AssignId(s, r))
  {
    AssignIdFresh(s, r);
    var s' := AssignId(s, r);
    forall i | 0 <= i < |s.claims| ensures Unmoved(s, s', s.claims[i]) {
    }
    InPlaceIndexed(s, s');
  }

  /** `changeClaimOwner` keeps the index complete. */
  lemma OwnerChangedIndexed(s: Store, r: Ref, event: TransferEvent)
    requires Indexed(s) && r in s.heap
    ensures OwnerChanged(s, r, event).Success? ==> Indexed(OwnerChanged(s, r, event).value)
  {
    var t := OwnerChanged(s, r, event);
    if t.Success? {
      forall i | 0 <= i < |s.claims| ensures Unmoved(s, t.value, s.claims[i]) {
      }
      InPlaceIndexed(s, t.value);
    }
  }

  /** A change of heights only keeps the index complete. */
  lemma SameSidesIndexed(s: Store, s': Store)
    requires Indexed(s) && s'.claims == s.claims && s'.index == s.index && SameSides(s.heap, s'.heap)
    ensures Indexed(s')
  {
    forall i | 0 <= i < |s.claims| ensures Unmoved(s, s', s.claims[i]) {
    }
    InPlaceIndexed(s, s');
  }

  /** `setNewDepth` keeps the index complete: it changes heights only. */
  lemma DeepenedIndexed(s: Store, r: Ref, newDepth: int32, cfg: Config)
    requires WellFormed(s.heap) && r in s.heap && Indexed(s)
    ensures Indexed(Deepened(s, r, newDepth, cfg))
  {
    DeepenedSides(s, r, newDepth, cfg);
    SameSidesIndexed(s, Deepened(s, r, newDepth, cfg));
  }

  /** So does `extendClaim`. */
  lemma ExtendedIndexed(s: Store, r: Ref, newDepth: int32, cancelled: bool, eventDepth: int32, cfg: Config)
    requires WellFormed(s.heap) && r in s.heap && Indexed(s)
    ensures Indexed(Extended(s, r, newDepth, cancelled, eventDepth, cfg))
  {
    var t := ExtendTarget(s.heap, r);
    if Extended(s, r, newDepth, cancelled, eventDepth, cfg) != s {
      DeepenedIndexed(s, t, eventDepth, cfg);
    }
  }

  /** A new object, not yet in the store, keeps the index complete. */
  lemma AllocatedIndexed(s: Store, c: Claim)
    requires Valid(s) && Indexed(s)
    ensures Indexed(Allocated(s, c))
  {
    var s' := Allocated(s, c);
    assert s.nextRef !in s.heap;
    forall i | 0 <= i < |s.claims| ensures Unmoved(s, s', s.claims[i]) {
      assert s.claims[i] in s.heap;
    }
    InPlaceIndexed(s, s');
  }

  /** `addClaim` keeps the index complete: a subdivision changes no claim of the list
      but its parent's children, and a top-level claim joins the list with every bucket
      of its chunks, which only grow. */
  lemma AddClaimIndexed(s: Store, r: Ref, write: bool)
    requires Valid(s) && Indexed(s) && r in s.heap
    ensures Indexed(AddClaimTo(s, r, write))
  {
    if s.heap[r].parent.Some? {
      AddSubdivisionIndexed(s, r, write);
    } else {
      AddTopLevelIndexed(s, r, write);
    }
  }

  lemma AddSubdivisionIndexed(s: Store, r: Ref, write: bool)
    requires Valid(s) && Indexed(s) && r in s.heap && s.heap[r].parent.Some?
    ensures Indexed(AddClaimTo(s, r, write))
  {
    var s' := AddClaimTo(s, r, write);
    AddSubdivisionEffect(s, r, write);
    AddClaimValue(s, r, write);
    var p := s.heap[r].parent.value;
    forall i | 0 <= i < |s.claims| ensures Unmoved(s, s', s.claims[i]) {
      var q := s.claims[i];
      assert q in s.heap && s.heap[q].parent.None?;
      if q == p {
        assert s'.heap[q].bounds == s.heap[q].bounds && s'.heap[q].inDataStore == s.heap[q].inDataStore;
      } else {
        assert s'.heap[q] == s.heap[q];
      }
    }
    InPlaceIndexed(s, s');
  }

  lemma AddTopLevelIndexed(s: Store, r: Ref, write: bool)
    requires Valid(s) && Indexed(s) && r in s.heap && s.heap[r].parent.None?
    ensures Indexed(AddClaimTo(s, r, write))
  {
    var s' := AddClaimTo(s, r, write);
    AddTopLevelEffect(s, r, write);
    AddClaimValue(s, r, write);
    AddToIndexEffect(s.index, s.heap, r);
    assert s'.index == AddToIndex(s.index, s.heap, r);
    forall i, k | 0 <= i < |s'.claims| && s'.claims[i] in s'.heap && s'.heap[s'.claims[i]].inDataStore
      && k in ChunkHashes(s'.heap[s'.claims[i]].bounds)
      ensures s'.claims[i] in Bucket(s'.index, k)
    {
      var q := s'.claims[i];
      if q != r {
        assert i < |s.claims| && q == s.claims[i];
        assert s'.heap[q] == s.heap[q];
        assert q in Bucket(s.index, k);
      }
    }
  }

  /** The new object with its id keeps the index complete. */
  lemma NumberedIndexed(s: Store, c: Claim)
    requires Valid(s) && ParentOk(s, c.parent) && c.children == [] && Indexed(s)
    ensures Indexed(Numbered(s, c))
  {
    AllocatedValid(s, c);
    AllocatedIndexed(s, c);
    AssignIdIndexed(Allocated(s, c), s.nextRef);
  }

  /** Extending the parent of a new subdivision keeps the index complete. */
  lemma ExtendParentIndexed(s: Store, parent: Option<Ref>, floor: int32, depth: int32, cfg: Config)
    requires WellFormed(s.heap) && (parent.Some? ==> parent.value in s.heap) && Indexed(s)
    ensures Indexed(ExtendParent(s, parent, floor, depth, cfg))
  {
    if parent.Some? && floor < s.heap[parent.value].bounds.minY {
      DeepenedIndexed(s, parent.value, depth, cfg);
    }
  }

  /** Adding the new claim and extending its parent keeps the index complete. */
  lemma CommitIndexed(s: Store, r: Ref, floor: int32, depth: int32, cfg: Config)
    requires Valid(s) && Indexed(s) && r in s.heap
    ensures Indexed(Commit(s, r, floor, depth, cfg))
  {
    AddClaimIndexed(s, r, true);
    AddClaimEffect(s, r, true);
    ExtendParentIndexed(AddClaimTo(s, r, true), s.heap[r].parent, floor, depth, cfg);
  }

  /** `createClaim` past its checks keeps the index complete: the new object, its id,
      its addition and the extension of its parent each do. */
  lemma AdmitIndexed(s: Store, c: Claim, floor: int32, depth: int32, dryRun: bool, cancelled: bool, cfg: Config)
    requires Valid(s) && ParentOk(s, c.parent) && c.children == [] && Indexed(s)
    ensures Indexed(Admit(s, c, floor, depth, dryRun, cancelled, cfg).store)
  {
    AllocatedIndexed(s, c);
    NumberedIndexed(s, c);
    CommitIndexed(Numbered(s, c), s.nextRef, floor, depth, cfg);
  }

  /** `createClaim` keeps the index complete. */
  lemma CreateIndexed(s: Store, q: Request, dryRun: bool, border: Location -> bool, cancelled: bool, cfg: Config)
    requires Valid(s) && ParentOk(s, q.parent) && Indexed(s)
    ensures Indexed(Create(s, q, dryRun, border, cancelled, cfg).store)
  {
    if PassesChecks(s, q, border, cfg) {
      var k := RequestedCorners(q, cfg);
      var floor := ExtensionFloor(q, k, cfg);
      CreateSteps(s, q, dryRun, border, cancelled, cfg);
      AdmitIndexed(s, NewClaim(q, k), floor, Sub32(floor, cfg.extendIntoGround), dryRun, cancelled, cfg);
    }
  }

  /** `truncateSubdivisions` keeps the index complete when the ids are apart: it changes
      subdivisions and the claim's children only, and leaves the index as it was. */
  lemma TruncateIndexed(s: Store, r: Ref, save: bool)
    requires Valid(s) && Indexed(s) && IndexApart(s) && r in s.heap
    ensures Indexed(Truncate(s, r, save))
  {
    ValidCoherent(s);
    var kids := s.heap[r].children;
    var s' := TruncatedAll(s, r, kids, s.heap[r].bounds, save, |kids|);
    assert s' == Truncate(s, r, save);
    ChildrenFacts(s.heap, r);
    forall i | 0 <= i < |s.claims| ensures Unmoved(s, s', s.claims[i]) {
      var q := s.claims[i];
      if q != r {
        assert s.heap[q].parent.None?;
        assert q !in kids;
      }
    }
    InPlaceIndexed(s, s');
  }

  /** The move of a claim keeps the list and every other object's place in the store
      and chunk columns. */
  lemma MovedOthers(s: Store, r: Ref, nb: Box, cfg: Config)
    requires Valid(s) && r in s.heap
    ensures var m := Moved(s, r, nb, cfg);
      m.claims == s.claims && SameLinks(s.heap, m.heap)
      && forall q :: q in s.heap && q != r ==>
           m.heap[q].inDataStore == s.heap[q].inDataStore && SameColumns(m.heap[q].bounds, s.heap[q].bounds)
  {
    var s2 := s.(index := RemoveFromIndex(s.index, s.heap, r), heap := s.heap[r := s.heap[r].(bounds := nb)]);
    MovedSteps(s, r, nb, cfg);
    PutOthers(s2, s, r, nb.minY, cfg);
  }

  /** A change of depth after a change of one claim's box keeps the links and every
      other object's place in the store and chunk columns. */
  lemma PutOthers(s2: Store, s: Store, r: Ref, depth: int32, cfg: Config)
    requires WellFormed(s2.heap) && r in s.heap && r in s2.heap && s2.heap == s.heap[r := s2.heap[r]]
    requires s2.heap[r].parent == s.heap[r].parent && s2.heap[r].children == s.heap[r].children
    requires s2.claims == s.claims
    ensures var m := Deepened(s2, r, depth, cfg);
      m.claims == s.claims && SameLinks(s.heap, m.heap)
      && forall q :: q in s.heap && q != r ==>
           m.heap[q].inDataStore == s.heap[q].inDataStore && SameColumns(m.heap[q].bounds, s.heap[q].bounds)
  {
    DeepenedSides(s2, r, depth, cfg);
    SidesAfterPut(s.heap, s2.heap, Deepened(s2, r, depth, cfg).heap, r);
  }

  lemma SidesAfterPut(h: Heap, h2: Heap, h3: Heap, r: Ref)
    requires r in h && r in h2 && h2 == h[r := h2[r]]
    requires h2[r].parent == h[r].parent && h2[r].children == h[r].children
    requires SameLinks(h2, h3) && SameSides(h2, h3)
    ensures SameLinks(h, h3)
    ensures forall q :: q in h && q != r ==>
      q in h3 && h3[q].inDataStore == h[q].inDataStore && SameColumns(h3[q].bounds, h[q].bounds)
  {
  }

  /** Settling a claim keeps the list and every other top-level claim as it was. */
  lemma SettledOthers(s: Store, r: Ref)
    requires Valid(s) && r in s.heap
    ensures var o := Settled(s, r);
      o.claims == s.claims
      && forall q :: q in s.heap && q != r && s.heap[q].parent.None? ==> q in o.heap && o.heap[q] == s.heap[q]
  {
    ValidCoherent(s);
    TruncateValues(s, r, true);
    forall q | q in s.heap && q != r && s.heap[q].parent.None? ensures q !in s.heap[r].children {
    }
  }

  /** Moving and settling a claim keep the list and every other top-level claim's place
      in the store and chunk columns. */
  lemma MovedSettledOthers(s: Store, r: Ref, nb: Box, cfg: Config)
    requires Valid(s) && r in s.heap
    ensures var o := Settled(Moved(s, r, nb, cfg), r);
      o.claims == s.claims
      && forall q :: q in s.heap && q != r && s.heap[q].parent.None? ==>
           q in o.heap && o.heap[q].inDataStore == s.heap[q].inDataStore && SameColumns(o.heap[q].bounds, s.heap[q].bounds)
  {
    var m := Moved(s, r, nb, cfg);
    MovedOthers(s, r, nb, cfg);
    SettledOthers(m, r);
    ChainOthers(s.heap, s.heap, m.heap, Settled(m, r).heap, r);
  }

  /** A successful resize keeps the list and every other top-level claim's place in the
      store and chunk columns. */
  lemma ResizedOthers(s: Store, r: Ref, x1: int32, x2: int32, y1: int32, y2: int32, z1: int32, z2: int32,
                      border: Location -> bool, cfg: Config)
    requires Valid(s) && r in s.heap
    requires Resized(s, r, x1, x2, y1, y2, z1, z2, border, cfg).result.succeeded
    ensures var o := Resized(s, r, x1, x2, y1, y2, z1, z2, border, cfg).store;
      o.claims == s.claims
      && forall q :: q in s.heap && q != r && s.heap[q].parent.None? ==>
           q in o.heap && o.heap[q].inDataStore == s.heap[q].inDataStore && SameColumns(o.heap[q].bounds, s.heap[q].bounds)
  {
    var q := ResizeRequest(s.heap[r], x1, x2, y1, y2, z1, z2);
    var c := NewClaim(q, RequestedCorners(q, cfg));
    var d := Allocated(s, c);
    ResizedSteps(s, r, x1, x2, y1, y2, z1, z2, border, cfg);
    MovedSettledOthers(d, r, CappedBox(c.bounds, s.heap[r].world), cfg);
    AllocatedKeepsHeap(s, c);
    SubHeapOthers(s.heap, d.heap, Resized(s, r, x1, x2, y1, y2, z1, z2, border, cfg).store.heap, r);
  }

  /** A new object changes no existing one. */
  lemma AllocatedKeepsHeap(s: Store, c: Claim)
    requires Valid(s)
    ensures forall q :: q in s.heap ==> q in Allocated(s, c).heap && Allocated(s, c).heap[q] == s.heap[q]
  {
    assert s.nextRef !in s.heap;
  }

  lemma SubHeapOthers(h: Heap, hd: Heap, ho: Heap, r: Ref)
    requires forall q :: q in h ==> q in hd && hd[q] == h[q]
    requires forall q :: q in hd && q != r && hd[q].parent.None? ==>
      q in ho && ho[q].inDataStore == hd[q].inDataStore && SameColumns(ho[q].bounds, hd[q].bounds)
    ensures forall q :: q in h && q != r && h[q].parent.None? ==>
      q in ho && ho[q].inDataStore == h[q].inDataStore && SameColumns(ho[q].bounds, h[q].bounds)
  {
  }

  lemma ChainOthers(h: Heap, hd: Heap, hm: Heap, ho: Heap, r: Ref)
    requires forall q :: q in h ==> q in hd && hd[q] == h[q]
    requires SameLinks(hd, hm)
    requires forall q :: q in hd && q != r ==>
      hm[q].inDataStore == hd[q].inDataStore && SameColumns(hm[q].bounds, hd[q].bounds)
    requires forall q :: q in hm && q != r && hm[q].parent.None? ==> q in ho && ho[q] == hm[q]
    ensures forall q :: q in h && q != r && h[q].parent.None? ==>
      q in ho && ho[q].inDataStore == h[q].inDataStore && SameColumns(ho[q].bounds, h[q].bounds)
  {
  }

  /** A successful resize of a top-level claim of the list keeps the index complete when
      the ids are apart: the claim is indexed under its new chunks, and every other claim
      of the list, with another id, keeps its entries. */
  lemma ResizedTopLevelIndexed(s: Store, r: Ref, x1: int32, x2: int32, y1: int32, y2: int32, z1: int32, z2: int32,
                               border: Location -> bool, cfg: Config)
    requires Valid(s) && Indexed(s) && IndexApart(s) && IdsApart(s) && r in s.claims
    requires Resized(s, r, x1, x2, y1, y2, z1, z2, border, cfg).result.succeeded
    ensures Indexed(Resized(s, r, x1, x2, y1, y2, z1, z2, border, cfg).store)
  {
    var o := Resized(s, r, x1, x2, y1, y2, z1, z2, border, cfg).store;
    var ir :| 0 <= ir < |s.claims| && s.claims[ir] == r;
    ResizedIndex(s, r, x1, x2, y1, y2, z1, z2, border, cfg);
    ResizedTopLevel(s, r, x1, x2, y1, y2, z1, z2, border, cfg);
    ResizedOthers(s, r, x1, x2, y1, y2, z1, z2, border, cfg);
    forall i, k | 0 <= i < |o.claims| && o.claims[i] in o.heap && o.heap[o.claims[i]].inDataStore
      && k in ChunkHashes(o.heap[o.claims[i]].bounds)
      ensures o.claims[i] in Bucket(o.index, k)
    {
      var x := o.claims[i];
      if x != r {
        KeptEntry(s, r, o.index, o.heap[r].bounds, i, k);
      }
    }
  }

  /** Another claim of the list stays in a bucket of its chunks when the resized claim is
      reindexed. */
  lemma KeptEntry(s: Store, r: Ref, index': Index, b: Box, i: nat, k: int)
    requires Valid(s) && Indexed(s) && IdsApart(s) && r in s.claims
    requires i < |s.claims| && s.claims[i] != r
    requires s.heap[s.claims[i]].inDataStore && k in ChunkHashes(s.heap[s.claims[i]].bounds)
    requires Reindexed(s.index, s.heap, r, index', b)
    ensures s.claims[i] in Bucket(index', k)
  {
    var x := s.claims[i];
    var ir :| 0 <= ir < |s.claims| && s.claims[ir] == r;
    assert s.heap[x].id != s.heap[r].id by {
      if i < ir { assert s.heap[s.claims[i]].id != s.heap[s.claims[ir]].id; }
      else { assert s.heap[s.claims[ir]].id != s.heap[s.claims[i]].id; }
    }
    assert x in Bucket(s.index, k);
    if k in ChunkHashes(s.heap[r].bounds) {
      assert k in s.index;
      assert Bucket(s.index, k) == s.index[k];
      RemoveFirstWithIdKeeps(Bucket(s.index, k), s.heap, s.heap[r].id, x);
    }
  }

  /** A successful resize of a subdivision keeps the index complete when the ids are
      apart: neither the index nor any claim of the list changes for it. */
  lemma ResizedSubdivisionIndexed(s: Store, r: Ref, x1: int32, x2: int32, y1: int32, y2: int32, z1: int32, z2: int32,
                                  border: Location -> bool, cfg: Config)
    requires Valid(s) && Indexed(s) && IndexApart(s) && r in s.heap && s.heap[r].parent.Some?
    requires Resized(s, r, x1, x2, y1, y2, z1, z2, border, cfg).result.succeeded
    ensures Indexed(Resized(s, r, x1, x2, y1, y2, z1, z2, border, cfg).store)
  {
    var o := Resized(s, r, x1, x2, y1, y2, z1, z2, border, cfg).store;
    ResizedSubdivisionIndex(s, r, x1, x2, y1, y2, z1, z2, border, cfg);
    ResizedOthers(s, r, x1, x2, y1, y2, z1, z2, border, cfg);
    forall i | 0 <= i < |s.claims| ensures Unmoved(s, o, s.claims[i]) {
      assert s.claims[i] in s.heap && s.heap[s.claims[i]].parent.None?;
    }
    InPlaceIndexed(s, o);
  }

  /** `resizeClaim` keeps the index complete, for a claim of the list or a subdivision,
      when the ids are apart; a failed resize changes nothing the index depends on. */
  lemma ResizedIndexed(s: Store, r: Ref, x1: int32, x2: int32, y1: int32, y2: int32, z1: int32, z2: int32,
                       border: Location -> bool, cfg: Config)
    requires Valid(s) && Indexed(s) && IndexApart(s) && IdsApart(s) && r in s.heap
    requires r in s.claims || s.heap[r].parent.Some?
    ensures Indexed(Resized(s, r, x1, x2, y1, y2, z1, z2, border, cfg).store)
  {
    var o := Resized(s, r, x1, x2, y1, y2, z1, z2, border, cfg);
    ResizeFails(s, r, x1, x2, y1, y2, z1, z2, border, cfg);
    if !o.result.succeeded {
      forall i | 0 <= i < |s.claims| ensures Unmoved(s, o.store, s.claims[i]) {
        assert s.claims[i] in s.heap;
      }
      InPlaceIndexed(s, o.store);
    } else if s.heap[r].parent.Some? {
      ResizedSubdivisionIndexed(s, r, x1, x2, y1, y2, z1, z2, border, cfg);
    } else {
      ResizedTopLevelIndexed(s, r, x1, x2, y1, y2, z1, z2, border, cfg);
    }
  }

  /** With the ids apart, no other claim of the list has the id of a claim of the list or
      of a subdivision, in any heap that keeps the ids. */
  lemma ListIdsDiffer(s: Store, h: Heap, r: Ref)
    requires IdsApart(s) && r in s.heap && (r in s.claims || s.heap[r].parent.Some?)
    requires SameIdentity(s.heap, h)
    ensures forall i :: 0 <= i < |s.claims| && s.claims[i] != r ==> h[s.claims[i]].id != h[r].id
  {
    forall i | 0 <= i < |s.claims| && s.claims[i] != r ensures h[s.claims[i]].id != h[r].id {
      if r in s.claims {
        var ir :| 0 <= ir < |s.claims| && s.claims[ir] == r;
        if i < ir { assert s.heap[s.claims[i]].id != s.heap[s.claims[ir]].id; }
        else { assert s.heap[s.claims[ir]].id != s.heap[s.claims[i]].id; }
      }
    }
  }

  /** `deleteClaim` keeps the index complete, for a claim of the list or a subdivision,
      when the ids are apart. */
  lemma DeletedIndexed(s: Store, r: Ref)
    requires Valid(s) && Indexed(s) && IdsApart(s) && r in s.heap
    requires r in s.claims || s.heap[r].parent.Some?
    ensures Indexed(Deleted(s, r))
  {
    ValidCoherent(s);
    var s1 := DeleteChildren(s, r, 1);
    ListIdsDiffer(s, s1.heap, r);
    DetachIndexed(s1, r);
  }

  /** `deleteClaimsInWorld` from list position i keeps the index complete when the ids are
      apart: each deletion does, and keeps the ids apart for the next. */
  lemma {:induction false} WorldDeletedIndexed(s: Store, world: World, deleteAdminClaims: bool, i: nat)
    requires Valid(s) && Indexed(s) && IdsApart(s)
    ensures Indexed(WorldDeleted(s, world, deleteAdminClaims, i))
    decreases |s.claims|, |s.claims| - i
  {
    if i < |s.claims| {
      var c := s.claims[i];
      if Doomed(s.heap, c, world, deleteAdminClaims) {
        DeletedShrinks(s, i);
        DeletedIndexed(s, c);
        DeletedListEntry(s, i);
        WorldDeletedIndexed(Deleted(s, c), world, deleteAdminClaims, i);
        WorldDeletedDeleteCase(s, world, deleteAdminClaims, i);
      } else {
        WorldDeletedIndexed(s, world, deleteAdminClaims, i + 1);
        WorldDeletedSkipCase(s, world, deleteAdminClaims, i);
      }
    }
  }

  lemma WorldDeletedDeleteCase(s: Store, world: World, deleteAdminClaims: bool, i: nat)
    requires Valid(s) && i < |s.claims| && Doomed(s.heap, s.claims[i], world, deleteAdminClaims)
    ensures WorldDeleted(s, world, deleteAdminClaims, i)
      == WorldDeleted(Deleted(s, s.claims[i]), world, deleteAdminClaims, i)
  {
  }

  lemma WorldDeletedSkipCase(s: Store, world: World, deleteAdminClaims: bool, i: nat)
    requires Valid(s) && i < |s.claims| && !Doomed(s.heap, s.claims[i], world, deleteAdminClaims)
    ensures WorldDeleted(s, world, deleteAdminClaims, i) == WorldDeleted(s, world, deleteAdminClaims, i + 1)
  {
  }
}
