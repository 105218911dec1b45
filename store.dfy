/** The claim-related state of `DataStore` as a value — the claim objects, the
    top-level claim list, the chunk index and the id counter — and the effect of each
    of its operations on that state. The `DataStore` class carries out these
    effects step by step; the lemmas here state what they guarantee. */
module Stores {
  import opened Wrappers
  import opened JavaInt
  import opened BoundingBoxes
  import opened Claims
  import opened ChunkIndex

  /** The configuration the claim operations read: `config_claims_maxDepth`,
      `config_claims_claimsExtendIntoGroundDistance` and which worlds are in creative
      claims mode. */
  datatype Config = Config(maxDepth: int32, extendIntoGround: int32, creative: World -> bool)

  /** `claims`, `chunksToClaimsMap` and `nextClaimID`, over the claim objects; `nextRef`
      is the next unused object reference. */
  datatype Store = Store(heap: Heap, claims: seq<Ref>, index: Index, nextClaimID: int, nextRef: Ref)

  /** The shape every operation keeps: a well-formed hierarchy, every referenced
      object allocated, only top-level claims in the list and in the index, and no
      empty bucket. */
  predicate Valid(s: Store)
  {
    WellFormed(s.heap)
    && (forall r :: r in s.heap ==> r < s.nextRef)
    && (forall i :: 0 <= i < |s.claims| ==> s.claims[i] in s.heap && s.heap[s.claims[i]].parent.None?)
    && IndexIn(s.index, s.heap)
    && (forall k, j :: k in s.index && 0 <= j < |s.index[k]| ==> s.heap[s.index[k][j]].parent.None?)
    && NoEmptyBucket(s.index)
  }

  /** The index is complete for the list: every claim of the list that is in the store
      is in the bucket of each chunk its box touches. `addToChunkClaimMap` puts it there
      when it is added, and every later change of its box reindexes it. */
  predicate Indexed(s: Store)
  {
    forall i, k :: (0 <= i < |s.claims| && s.claims[i] in s.heap && s.heap[s.claims[i]].inDataStore
      && k in ChunkHashes(s.heap[s.claims[i]].bounds)) ==> s.claims[i] in Bucket(s.index, k)
  }

  /** Only the contents of claim objects and the id counter differ: the same objects,
      links, list and index. */
  predicate Reshaped(s: Store, s': Store)
  {
    SameLinks(s.heap, s'.heap) && s'.claims == s.claims && s'.index == s.index && s'.nextRef == s.nextRef
  }

  lemma ReshapedValid(s: Store, s': Store)
    requires Valid(s) && Reshaped(s, s')
    ensures Valid(s')
  {
    SameLinksWellFormed(s.heap, s'.heap);
  }

  /** The same holds when children lists change but the hierarchy stays well formed. */
  lemma SameParentsValid(s: Store, h': Heap)
    requires Valid(s) && WellFormed(h') && h'.Keys == s.heap.Keys
    requires forall r :: r in s.heap ==> h'[r].parent == s.heap[r].parent
    ensures Valid(s.(heap := h'))
  {
  }

  lemma ReshapedTransitive(s: Store, s': Store, s'': Store)
    requires Reshaped(s, s') && Reshaped(s', s'')
    ensures Reshaped(s, s'')
  {
  }

  /** A claim value written back with the same links. */
  function Put(s: Store, r: Ref, c: Claim): (s': Store)
    requires r in s.heap
    requires c.parent == s.heap[r].parent && c.children == s.heap[r].children
    ensures Reshaped(s, s') && s'.nextClaimID == s.nextClaimID
    ensures s'.heap == s.heap[r := c]
  {
    s.(heap := s.heap[r := c])
  }

  // ----- ids -----

  /** Every id in use is below the counter. */
  predicate IdsBelow(s: Store)
  {
    forall q :: q in s.heap && s.heap[q].id.Some? ==> s.heap[q].id.value < s.nextClaimID
  }

  predicate Unassigned(c: Claim)
  {
    c.id.None? || c.id == Some(-1)
  }

  /** `assignClaimID` (through `saveClaim`): a claim without an id, or with id -1, gets the
      counter, which then moves on. */
  function AssignId(s: Store, r: Ref): (s': Store)
    requires r in s.heap
    ensures Reshaped(s, s')
  {
    if Unassigned(s.heap[r]) then
      Put(s, r, s.heap[r].(id := Some(s.nextClaimID))).(nextClaimID := s.nextClaimID + 1)
    else s
  }

  /** After saving, the claim has an id; a newly assigned one is the old counter, used by
      no other claim when every id in use was below the counter, which stays true. */
  lemma AssignIdFresh(s: Store, r: Ref)
    requires r in s.heap
    ensures var s' := AssignId(s, r);
      s'.heap[r].id.Some?
      && (forall q :: q in s.heap && q != r ==> s'.heap[q] == s.heap[q])
      && s'.heap[r] == s.heap[r].(id := s'.heap[r].id)
      && (Unassigned(s.heap[r]) ==> s'.heap[r].id == Some(s.nextClaimID) && s'.nextClaimID == s.nextClaimID + 1)
      && (!Unassigned(s.heap[r]) ==> s' == s)
      && (IdsBelow(s) ==> IdsBelow(s'))
      && (IdsBelow(s) && Unassigned(s.heap[r]) ==>
            forall q :: q in s.heap && q != r ==> s'.heap[q].id != s'.heap[r].id)
  {
  }

  // ----- the index -----

  /** `addToChunkClaimMap`: a subdivision is never indexed; a top-level claim joins the
      bucket of each chunk its box touches. */
  function AddToIndex(index: Index, h: Heap, r: Ref): Index
    requires r in h
  {
    if h[r].parent.Some? then index else AddHashes(index, ChunkHashes(h[r].bounds), r)
  }

  /** `removeFromChunkClaimMap`: from the bucket of each chunk the box touches, the first
      claim with the same id leaves. */
  function RemoveFromIndex(index: Index, h: Heap, r: Ref): (idx: Index)
    requires r in h && IndexIn(index, h)
    ensures IndexIn(idx, h)
  {
    RemoveHashes(index, h, ChunkHashes(h[r].bounds), h[r].id)
  }

  /** After indexing, a top-level claim is in the bucket of each of its chunks (once
      more), a subdivision is not indexed, and no other bucket changed. */
  lemma AddToIndexEffect(index: Index, h: Heap, r: Ref)
    requires r in h
    ensures h[r].parent.Some? ==> AddToIndex(index, h, r) == index
    ensures h[r].parent.None? ==>
      (forall k :: k in ChunkHashes(h[r].bounds) ==>
         Bucket(AddToIndex(index, h, r), k) == Bucket(index, k) + [r])
      && (forall k :: k !in ChunkHashes(h[r].bounds) ==>
            (k in AddToIndex(index, h, r) <==> k in index) && Bucket(AddToIndex(index, h, r), k) == Bucket(index, k))
    ensures NoEmptyBucket(index) ==> NoEmptyBucket(AddToIndex(index, h, r))
  {
    if h[r].parent.None? {
      var hashes := ChunkHashes(h[r].bounds);
      ChunkHashesExactlyOnce(h[r].bounds, 0);
      AddHashesOnce(index, hashes, r);
      AddHashesElsewhere(index, hashes, r);
      if NoEmptyBucket(index) {
        AddHashesNonEmpty(index, hashes, r);
      }
    }
  }

  /** After removal, each bucket of the claim's chunks lost its first claim with the
      claim's id, and holds none with it when it held at most one; no bucket is left
      empty and no other bucket changed. */
  lemma RemoveFromIndexEffect(index: Index, h: Heap, r: Ref)
    requires r in h && IndexIn(index, h)
    ensures var idx := RemoveFromIndex(index, h, r);
      (forall k :: k in ChunkHashes(h[r].bounds) ==>
         Bucket(idx, k) == RemoveFirstWithId(Bucket(index, k), h, h[r].id))
      && (forall k :: k !in ChunkHashes(h[r].bounds) ==> (k in idx <==> k in index) && Bucket(idx, k) == Bucket(index, k))
      && (NoEmptyBucket(index) ==> NoEmptyBucket(idx))
      && (forall k :: k in ChunkHashes(h[r].bounds) && k in idx ==> |idx[k]| > 0)
  {
    ChunkHashesExactlyOnce(h[r].bounds, 0);
    RemoveHashesEffect(index, h, ChunkHashes(h[r].bounds), h[r].id);
  }

  /** Once removed, a claim whose id was held at most once per bucket has left every
      bucket of its chunks. */
  lemma RemovedFromIndex(index: Index, h: Heap, r: Ref, k: int)
    requires r in h && IndexIn(index, h)
    requires k in ChunkHashes(h[r].bounds)
    requires forall i, j :: 0 <= i < j < |Bucket(index, k)| && h[Bucket(index, k)[i]].id == h[r].id ==>
               h[Bucket(index, k)[j]].id != h[r].id
    ensures forall j :: 0 <= j < |Bucket(RemoveFromIndex(index, h, r), k)| ==>
              h[Bucket(RemoveFromIndex(index, h, r), k)[j]].id != h[r].id
  {
    RemoveFromIndexEffect(index, h, r);
    RemoveOnlyWithId(Bucket(index, k), h, h[r].id);
  }

  /** A removal keeps the index's refs, their top-level status and non-empty buckets. */
  lemma RemoveFromIndexValid(s: Store, r: Ref)
    requires Valid(s) && r in s.heap
    ensures Valid(s.(index := RemoveFromIndex(s.index, s.heap, r)))
  {
    var idx := RemoveFromIndex(s.index, s.heap, r);
    RemoveFromIndexEffect(s.index, s.heap, r);
    forall k, j | k in idx && 0 <= j < |idx[k]|
      ensures s.heap[idx[k][j]].parent.None?
    {
      assert idx[k][j] in Bucket(idx, k);
      if k in ChunkHashes(s.heap[r].bounds) {
        assert Bucket(idx, k) == RemoveFirstWithId(Bucket(s.index, k), s.heap, s.heap[r].id);
        var b := Bucket(s.index, k);
        assert idx[k][j] in b;
        var i :| 0 <= i < |b| && b[i] == idx[k][j];
        assert k in s.index;
      } else {
        assert idx[k] == s.index[k];
      }
    }
  }

  /** Indexing a top-level claim keeps the index's refs top-level and allocated. */
  lemma AddToIndexValid(s: Store, r: Ref)
    requires Valid(s) && r in s.heap
    ensures Valid(s.(index := AddToIndex(s.index, s.heap, r)))
  {
    var idx := AddToIndex(s.index, s.heap, r);
    AddToIndexEffect(s.index, s.heap, r);
    if s.heap[r].parent.None? {
      AddHashesIn(s.index, ChunkHashes(s.heap[r].bounds), r, s.heap);
      forall k, j | k in idx && 0 <= j < |idx[k]|
        ensures s.heap[idx[k][j]].parent.None?
      {
        if k in ChunkHashes(s.heap[r].bounds) {
          assert idx[k] == Bucket(s.index, k) + [r];
          if j < |Bucket(s.index, k)| {
            assert idx[k][j] == s.index[k][j];
          }
        } else {
          assert idx[k] == s.index[k];
        }
      }
    }
  }

  // ----- adding a claim -----

  /** The claim object with its `inDataStore` flag set to the given value. */
  function Marked(h: Heap, r: Ref, flag: bool): (h': Heap)
    requires r in h
    ensures SameLinks(h, h') && h'[r] == h[r].(inDataStore := flag)
    ensures forall q :: q in h && q != r ==> h'[q] == h[q]
  {
    h[r := h[r].(inDataStore := flag)]
  }

  /** `parent.children.add(claim)` unless it is there already. */
  function Linked(h: Heap, r: Ref): (h': Heap)
    requires WellFormed(h) && r in h && h[r].parent.Some?
    ensures h'.Keys == h.Keys && r in h'[h[r].parent.value].children
    ensures forall q :: q in h ==> h'[q].parent == h[q].parent
    ensures h'[h[r].parent.value] == h[h[r].parent.value].(children := h'[h[r].parent.value].children)
    ensures forall q :: q in h && q != h[r].parent.value ==> h'[q] == h[q]
  {
    var p := h[r].parent.value;
    if r in h[p].children then h else h[p := h[p].(children := h[p].children + [r])]
  }

  /** `addClaim(claim, writeToStorage)`: a subdivision joins its parent's children (once)
      and is marked; a top-level claim joins the list and the index and is marked; with
      `writeToStorage` the claim is saved, which assigns its id. */
  function AddClaimTo(s: Store, r: Ref, write: bool): (s': Store)
    requires Valid(s) && r in s.heap
  {
    var c := s.heap[r];
    var s1 := if c.parent.Some? then s.(heap := Marked(Linked(s.heap, r), r, true))
              else s.(claims := s.claims + [r], index := AddToIndex(s.index, s.heap, r), heap := Marked(s.heap, r, true));
    if write then AssignId(s1, r) else s1
  }

  /** Appending a subdivision to its parent's children, when it is not there yet, keeps
      the hierarchy well formed. */
  lemma LinkedWellFormed(h: Heap, r: Ref)
    requires WellFormed(h) && r in h && h[r].parent.Some?
    ensures WellFormed(Linked(h, r))
  {
    var p := h[r].parent.value;
    if r !in h[p].children {
      var h1 := Linked(h, r);
      var ch := h1[p].children;
      assert ch == h[p].children + [r];
      forall i, j | 0 <= i < j < |ch| ensures ch[i] != ch[j] {
        if j == |ch| - 1 {
          assert ch[i] == h[p].children[i];
        } else {
          assert ch[i] == h[p].children[i] && ch[j] == h[p].children[j];
        }
      }
      forall i | 0 <= i < |ch| ensures ch[i] in h1 && h1[ch[i]].parent == Some(p) {
        if i < |ch| - 1 {
          assert ch[i] == h[p].children[i];
        }
      }
    }
  }

  /** Adding keeps the store valid, marks the claim as in the store, and puts it where
      lookups find it: a subdivision among its parent's children, a top-level claim at
      the end of the list and in the bucket of each of its chunks. */
  lemma AddClaimEffect(s: Store, r: Ref, write: bool)
    requires Valid(s) && r in s.heap
    ensures var s' := AddClaimTo(s, r, write);
      Valid(s') && s'.heap[r].inDataStore && s'.heap.Keys == s.heap.Keys
      && (s.heap[r].parent.Some? ==>
            r in s'.heap[s.heap[r].parent.value].children && s'.claims == s.claims && s'.index == s.index)
      && (s.heap[r].parent.None? ==>
            s'.claims == s.claims + [r]
            && forall k :: k in ChunkHashes(s.heap[r].bounds) ==> r in Bucket(s'.index, k))
  {
    if s.heap[r].parent.Some? {
      AddSubdivisionEffect(s, r, write);
    } else {
      AddTopLevelEffect(s, r, write);
    }
  }

  lemma AddSubdivisionEffect(s: Store, r: Ref, write: bool)
    requires Valid(s) && r in s.heap && s.heap[r].parent.Some?
    ensures var s' := AddClaimTo(s, r, write);
      Valid(s') && s'.heap[r].inDataStore && s'.heap.Keys == s.heap.Keys
      && r in s'.heap[s.heap[r].parent.value].children && s'.claims == s.claims && s'.index == s.index
  {
    var h1 := Linked(s.heap, r);
    LinkedWellFormed(s.heap, r);
    var s1 := s.(heap := Marked(h1, r, true));
    SameLinksWellFormed(h1, s1.heap);
    SameParentsValid(s, s1.heap);
    if write {
      AssignIdFresh(s1, r);
      ReshapedValid(s1, AssignId(s1, r));
    }
  }

  lemma AddTopLevelEffect(s: Store, r: Ref, write: bool)
    requires Valid(s) && r in s.heap && s.heap[r].parent.None?
    ensures var s' := AddClaimTo(s, r, write);
      Valid(s') && s'.heap[r].inDataStore && s'.heap.Keys == s.heap.Keys
      && s'.claims == s.claims + [r]
      && forall k :: k in ChunkHashes(s.heap[r].bounds) ==> r in Bucket(s'.index, k)
  {
    var c := s.heap[r];
    AddToIndexValid(s, r);
    var s1 := s.(claims := s.claims + [r], index := AddToIndex(s.index, s.heap, r));
    assert Valid(s1);
    var s2 := s1.(heap := Marked(s1.heap, r, true));
    assert Reshaped(s1, s2);
    ReshapedValid(s1, s2);
    AddHashesCovers(s.index, ChunkHashes(c.bounds), r);
    if write {
      AssignIdFresh(s2, r);
      ReshapedValid(s2, AssignId(s2, r));
    }
  }

  /** Adding changes the added claim only by marking it and, when written, giving it an
      id; no other claim changes except a subdivision's parent, by its children. */
  lemma AddClaimValue(s: Store, r: Ref, write: bool)
    requires Valid(s) && r in s.heap
    ensures var s' := AddClaimTo(s, r, write);
      s'.heap.Keys == s.heap.Keys
      && s'.heap[r] == s.heap[r].(inDataStore := true, id := s'.heap[r].id)
      && (write ==> s'.heap[r].id.Some?)
      && (!write ==> s'.heap[r].id == s.heap[r].id)
      && (write && !Unassigned(s.heap[r]) ==> s'.heap[r].id == s.heap[r].id)
      && (s.heap[r].parent.Some? ==>
            var p := s.heap[r].parent.value;
            s'.heap[p] == s.heap[p].(children := s'.heap[p].children))
      && forall q :: q in s.heap && q != r && Some(q) != s.heap[r].parent ==> s'.heap[q] == s.heap[q]
  {
    if s.heap[r].parent.Some? {
      var p := s.heap[r].parent.value;
      assert p != r;
      var h1 := Linked(s.heap, r);
      var s1 := s.(heap := Marked(h1, r, true));
      assert s1.heap[r] == s.heap[r].(inDataStore := true);
      assert s1.heap[p] == s.heap[p].(children := s1.heap[p].children);
      assert AddClaimTo(s, r, write) == if write then AssignId(s1, r) else s1;
      AssignIdFresh(s1, r);
    } else {
      var s1 := s.(claims := s.claims + [r], index := AddToIndex(s.index, s.heap, r), heap := Marked(s.heap, r, true));
      assert AddClaimTo(s, r, write) == if write then AssignId(s1, r) else s1;
      AssignIdFresh(s1, r);
    }
  }

  // ----- deleting a claim -----

  /** At most one entry of the list has the id. */
  predicate AtMostOnce(b: seq<Ref>, h: Heap, id: Option<int>)
    requires forall j :: 0 <= j < |b| ==> b[j] in h
  {
    forall i, j :: 0 <= i < j < |b| && h[b[i]].id == id ==> h[b[j]].id != id
  }

  predicate DistinctRefs(s: seq<Ref>)
  {
    forall i, j :: 0 <= i < j < |s| ==> s[i] != s[j]
  }

  /** Removing the first occurrence of the element at k, when it does not occur before k. */
  lemma {:induction false} RemoveFirstAt(s: seq<Ref>, k: nat)
    requires k < |s| && forall i :: 0 <= i < k ==> s[i] != s[k]
    ensures RemoveFirst(s, s[k]) == s[..k] + s[k + 1..]
    decreases k
  {
    if k > 0 {
      var t := s[1..];
      assert t[k - 1] == s[k];
      RemoveFirstAt(t, k - 1);
      assert RemoveFirst(s, s[k]) == [s[0]] + RemoveFirst(t, s[k]);
      assert t[..k - 1] == s[1..k] && t[k..] == s[k + 1..];
      assert s[..k] == [s[0]] + s[1..k];
    }
  }

  /** Dropping one position of a list without repetitions. */
  lemma DropDistinct(s: seq<Ref>, k: nat)
    requires DistinctRefs(s) && k < |s|
    ensures var t := s[..k] + s[k + 1..];
      DistinctRefs(t) && s[k] !in t && forall y :: y in t ==> y in s
  {
    var t := s[..k] + s[k + 1..];
    assert forall i :: 0 <= i < |t| ==> t[i] == if i < k then s[i] else s[i + 1];
  }

  /** Removing the first occurrence from a list without repetitions leaves a list without
      repetitions, without it, and without anything new. */
  lemma RemoveFirstDistinct(s: seq<Ref>, x: Ref)
    requires DistinctRefs(s)
    ensures DistinctRefs(RemoveFirst(s, x)) && x !in RemoveFirst(s, x)
    ensures forall y :: y in RemoveFirst(s, x) ==> y in s
  {
    if x in s {
      var k :| 0 <= k < |s| && s[k] == x;
      RemoveFirstAt(s, k);
      DropDistinct(s, k);
    }
  }

  /** Removing entries keeps an id that occurred at most once occurring at most once. */
  lemma {:induction false} RemoveFirstWithIdAtMostOnce(b: seq<Ref>, h: Heap, id: Option<int>, id': Option<int>)
    requires forall j :: 0 <= j < |b| ==> b[j] in h
    requires AtMostOnce(b, h, id')
    ensures AtMostOnce(RemoveFirstWithId(b, h, id), h, id')
    decreases |b|
  {
    if b != [] {
      assert forall j :: 0 <= j < |b[1..]| ==> b[1..][j] == b[j + 1];
      if h[b[0]].id != id {
        var rest := RemoveFirstWithId(b[1..], h, id);
        RemoveFirstWithIdAtMostOnce(b[1..], h, id, id');
        var r := [b[0]] + rest;
        forall i, j | 0 <= i < j < |r| && h[r[i]].id == id' ensures h[r[j]].id != id' {
          if i == 0 {
            assert r[j] == rest[j - 1];
            var k :| 0 <= k < |b[1..]| && b[1..][k] == rest[j - 1];
            assert b[k + 1] == r[j];
          } else {
            assert r[i] == rest[i - 1] && r[j] == rest[j - 1];
          }
        }
      }
    }
  }

  /** Every bucket holds the id at most once. */
  predicate IndexAtMostOnce(index: Index, h: Heap, id: Option<int>)
    requires IndexIn(index, h)
  {
    forall k :: k in index ==> AtMostOnce(index[k], h, id)
  }

  lemma RemoveFromIndexAtMostOnce(index: Index, h: Heap, r: Ref, id': Option<int>)
    requires r in h && IndexIn(index, h) && IndexAtMostOnce(index, h, id')
    ensures IndexAtMostOnce(RemoveFromIndex(index, h, r), h, id')
  {
    var idx := RemoveFromIndex(index, h, r);
    RemoveFromIndexEffect(index, h, r);
    forall k | k in idx ensures AtMostOnce(idx[k], h, id') {
      if k in ChunkHashes(h[r].bounds) {
        RemoveFirstWithIdAtMostOnce(Bucket(index, k), h, h[r].id, id');
      } else {
        assert idx[k] == index[k];
      }
    }
  }

  /** The objects keep their ids, bounds, worlds and parents. */
  predicate SameIdentity(h: Heap, h': Heap)
  {
    h.Keys == h'.Keys
    && forall q :: q in h ==>
         h'[q].id == h[q].id && h'[q].bounds == h[q].bounds && h'[q].world == h[q].world && h'[q].parent == h[q].parent
         && h'[q].ownerID == h[q].ownerID
  }

  /** `parentClaim.children.remove(claim)` for a subdivision. */
  function Unlinked(h: Heap, r: Ref): (h': Heap)
    requires r in h && (h[r].parent.Some? ==> h[r].parent.value in h)
    ensures h'.Keys == h.Keys
    ensures forall q :: q in h ==> h'[q] == h[q].(children := h'[q].children)
    ensures forall q :: q in h && Some(q) != h[r].parent ==> h'[q] == h[q]
    ensures h[r].parent.Some? ==>
      h'[h[r].parent.value].children == RemoveFirst(h[h[r].parent.value].children, r)
  {
    if h[r].parent.Some? then
      var p := h[r].parent.value;
      h[p := h[p].(children := RemoveFirst(h[p].children, r))]
    else h
  }

  lemma UnlinkedWellFormed(h: Heap, r: Ref)
    requires WellFormed(h) && r in h
    ensures WellFormed(Unlinked(h, r))
    ensures forall q :: q in h ==> Unlinked(h, r)[q].parent == h[q].parent
  {
    if h[r].parent.Some? {
      var p := h[r].parent.value;
      var h1 := Unlinked(h, r);
      RemoveFirstDistinct(h[p].children, r);
      var ch := h1[p].children;
      forall i | 0 <= i < |ch| ensures ch[i] in h && h[ch[i]].parent == Some(p) {
        assert ch[i] in h[p].children;
      }
    }
  }

  /** What removing a claim needs of the store: a well-formed hierarchy, and a list and
      an index that refer to allocated objects. */
  predicate Coherent(s: Store)
  {
    WellFormed(s.heap)
    && (forall i :: 0 <= i < |s.claims| ==> s.claims[i] in s.heap)
    && IndexIn(s.index, s.heap)
  }

  lemma ValidCoherent(s: Store)
    requires Valid(s)
    ensures Coherent(s)
  {
  }

  /** The objects after one removal: the claim is marked as not in the store and its
      parent loses it from its children; no other object changes. */
  function DetachHeap(h: Heap, r: Ref): (h': Heap)
    requires r in h && (h[r].parent.Some? ==> h[r].parent.value in h)
  {
    Marked(Unlinked(h, r), r, false)
  }

  lemma DetachHeapEffect(h: Heap, r: Ref)
    requires r in h && (h[r].parent.Some? ==> h[r].parent.value in h)
    ensures var h' := DetachHeap(h, r);
      SameIdentity(h, h')
      && h'[r] == h[r].(inDataStore := false, children := h'[r].children)
      && (forall q :: q in h && q != r && Some(q) != h[r].parent ==> h'[q] == h[q])
      && (h[r].parent.Some? && h[r].parent.value != r ==>
            h'[h[r].parent.value] == h[h[r].parent.value].(children := RemoveFirst(h[h[r].parent.value].children, r)))
  {
  }

  lemma DetachHeapWellFormed(h: Heap, r: Ref)
    requires WellFormed(h) && r in h
    ensures WellFormed(DetachHeap(h, r))
    ensures h[r].parent.Some? ==> h[r].parent.value != r
    ensures h[r].parent.None? ==> DetachHeap(h, r)[r].children == h[r].children
  {
    UnlinkedWellFormed(h, r);
    SameLinksWellFormed(Unlinked(h, r), Marked(Unlinked(h, r), r, false));
  }

  /** The part of `deleteClaim` that removes one claim from the store, once its children
      have been handled: it leaves its parent's children, is marked as not in the store,
      the first top-level entry with its id leaves the list and its id leaves the
      buckets of its chunks. */
  function Detach(s: Store, r: Ref): (s': Store)
    requires Coherent(s) && r in s.heap
  {
    Store(DetachHeap(s.heap, r), RemoveFirstWithId(s.claims, s.heap, s.heap[r].id),
          RemoveFromIndex(s.index, s.heap, r), s.nextClaimID, s.nextRef)
  }

  lemma ListAndIndexRemovalValid(s: Store, r: Ref)
    requires Valid(s) && r in s.heap
    ensures Valid(s.(index := RemoveFromIndex(s.index, s.heap, r), claims := RemoveFirstWithId(s.claims, s.heap, s.heap[r].id)))
  {
    RemoveFromIndexValid(s, r);
  }

  lemma DetachValid(s: Store, r: Ref)
    requires Valid(s) && r in s.heap
    ensures Valid(Detach(s, r)) && SameIdentity(s.heap, Detach(s, r).heap)
  {
    var h2 := DetachHeap(s.heap, r);
    DetachHeapEffect(s.heap, r);
    DetachHeapWellFormed(s.heap, r);
    ListAndIndexRemovalValid(s, r);
    var s1 := s.(index := RemoveFromIndex(s.index, s.heap, r), claims := RemoveFirstWithId(s.claims, s.heap, s.heap[r].id));
    SameParentsValid(s1, h2);
  }

  lemma DetachCoherent(s: Store, r: Ref)
    requires Coherent(s) && r in s.heap
    ensures Coherent(Detach(s, r)) && SameIdentity(s.heap, Detach(s, r).heap)
    ensures Valid(s) ==> Valid(Detach(s, r))
  {
    DetachHeapEffect(s.heap, r);
    DetachHeapWellFormed(s.heap, r);
    if Valid(s) {
      DetachValid(s, r);
    }
  }

  lemma AtMostOnceSameIds(b: seq<Ref>, h: Heap, h': Heap, id: Option<int>)
    requires (forall j :: 0 <= j < |b| ==> b[j] in h) && SameIdentity(h, h')
    requires AtMostOnce(b, h, id)
    ensures AtMostOnce(b, h', id)
  {
    forall i, j | 0 <= i < j < |b| && h'[b[i]].id == id ensures h'[b[j]].id != id {
      assert h[b[i]].id == id;
    }
  }

  lemma IndexAtMostOnceSameIds(index: Index, h: Heap, h': Heap, id: Option<int>)
    requires IndexIn(index, h) && SameIdentity(h, h') && IndexAtMostOnce(index, h, id)
    ensures IndexIn(index, h') && IndexAtMostOnce(index, h', id)
  {
    forall k | k in index ensures AtMostOnce(index[k], h', id) {
      AtMostOnceSameIds(index[k], h, h', id);
    }
  }

  /** The id occurs at most once in the list. */
  predicate ListOnce(s: Store, id: Option<int>)
  {
    Coherent(s) && AtMostOnce(s.claims, s.heap, id)
  }

  /** The id occurs at most once in each bucket. */
  predicate IndexOnce(s: Store, id: Option<int>)
  {
    Coherent(s) && IndexAtMostOnce(s.index, s.heap, id)
  }

  /** Removing one claim keeps an id that occurred at most once in the list occurring
      at most once. */
  lemma DetachListOnce(s: Store, c: Ref, id: Option<int>)
    requires ListOnce(s, id) && c in s.heap
    ensures ListOnce(Detach(s, c), id)
  {
    DetachCoherent(s, c);
    var s1 := Detach(s, c);
    RemoveFirstWithIdAtMostOnce(s.claims, s.heap, s.heap[c].id, id);
    AtMostOnceSameIds(s1.claims, s.heap, s1.heap, id);
  }

  /** The same for each bucket of the index. */
  lemma DetachIndexOnce(s: Store, c: Ref, id: Option<int>)
    requires IndexOnce(s, id) && c in s.heap
    ensures IndexOnce(Detach(s, c), id)
  {
    DetachCoherent(s, c);
    var s1 := Detach(s, c);
    RemoveFromIndexAtMostOnce(s.index, s.heap, c, id);
    IndexAtMostOnceSameIds(s1.index, s.heap, s1.heap, id);
  }

  /** Both, for every id at once. */
  lemma DetachOnce(s: Store, c: Ref)
    requires Coherent(s) && c in s.heap
    ensures forall id :: ListOnce(s, id) ==> ListOnce(Detach(s, c), id)
    ensures forall id :: IndexOnce(s, id) ==> IndexOnce(Detach(s, c), id)
  {
    forall id | ListOnce(s, id) ensures ListOnce(Detach(s, c), id) {
      DetachListOnce(s, c, id);
    }
    forall id | IndexOnce(s, id) ensures IndexOnce(Detach(s, c), id) {
      DetachIndexOnce(s, c, id);
    }
  }

  /** No subdivision object shares its id with an entry of the top-level list. */
  predicate ChildIdsApart(s: Store)
  {
    forall j, q :: 0 <= j < |s.claims| && q in s.heap && s.heap[q].parent.Some? ==>
      s.claims[j] in s.heap && s.heap[s.claims[j]].id != s.heap[q].id
  }

  /** Removing a subdivision whose id no list entry has leaves the list alone. */
  lemma DetachKeepsList(s: Store, c: Ref)
    requires Coherent(s) && c in s.heap
    ensures ChildIdsApart(s) && s.heap[c].parent.Some? ==>
      Detach(s, c).claims == s.claims && ChildIdsApart(Detach(s, c))
  {
    DetachHeapEffect(s.heap, c);
  }

  /** Removing one claim (`deleteClaim` past its children) keeps the index complete when
      no other claim of the list has its id: the list loses that claim at most, and each
      bucket loses an entry with its id, which no other claim of the list has. */
  lemma DetachIndexed(s: Store, c: Ref)
    requires Coherent(s) && Indexed(s) && c in s.heap
    requires forall i :: 0 <= i < |s.claims| && s.claims[i] != c ==> s.heap[s.claims[i]].id != s.heap[c].id
    ensures Indexed(Detach(s, c))
  {
    var s' := Detach(s, c);
    DetachHeapEffect(s.heap, c);
    DetachHeapWellFormed(s.heap, c);
    RemoveFromIndexEffect(s.index, s.heap, c);
    forall i, k | 0 <= i < |s'.claims| && s'.claims[i] in s'.heap && s'.heap[s'.claims[i]].inDataStore
      && k in ChunkHashes(s'.heap[s'.claims[i]].bounds)
      ensures s'.claims[i] in Bucket(s'.index, k)
    {
      var x := s'.claims[i];
      assert x in s.claims;
      var ix :| 0 <= ix < |s.claims| && s.claims[ix] == x;
      assert x != c;
      assert s.heap[x].inDataStore && s.heap[x].bounds == s'.heap[x].bounds;
      assert x in Bucket(s.index, k);
      if k in ChunkHashes(s.heap[c].bounds) {
        RemoveFirstWithIdKeeps(Bucket(s.index, k), s.heap, s.heap[c].id, x);
      }
    }
  }

  /** So does removing a subdivision when no subdivision has the id of a claim of the list. */
  lemma DetachChildIndexed(s: Store, c: Ref)
    requires Coherent(s) && c in s.heap && s.heap[c].parent.Some?
    ensures Indexed(s) && ChildIdsApart(s) ==> Indexed(Detach(s, c))
  {
    if Indexed(s) && ChildIdsApart(s) {
      DetachIndexed(s, c);
    }
  }

  /** `deleteClaim`'s child loop, from position `j` (counted from 1): while `j - 1` is a
      position of the current children list, the child there is deleted — which removes
      it from that same list — and `j` moves on. */
  function DeleteChildren(s: Store, r: Ref, j: nat): (s': Store)
    requires Coherent(s) && r in s.heap && 1 <= j
    ensures s'.nextRef == s.nextRef && s'.nextClaimID == s.nextClaimID
    ensures Coherent(s') && SameIdentity(s.heap, s'.heap) && (Valid(s) ==> Valid(s'))
    ensures forall id :: ListOnce(s, id) ==> ListOnce(s', id)
    ensures forall id :: IndexOnce(s, id) ==> IndexOnce(s', id)
    ensures |s'.claims| < |s.claims| || s'.claims == s.claims
    ensures ChildIdsApart(s) ==> s'.claims == s.claims
    ensures Indexed(s) && ChildIdsApart(s) ==> Indexed(s')
    decreases |s.heap[r].children| + 1 - j
  {
    var kids := s.heap[r].children;
    if j - 1 < |kids| then
      var child := kids[j - 1];
      assert s.heap[child].parent == Some(r) && child != r;
      DetachCoherent(s, child);
      DetachOnce(s, child);
      DetachKeepsList(s, child);
      DetachChildIndexed(s, child);
      var s1 := Detach(s, child);
      assert s1.heap[r].children == RemoveFirst(kids, child);
      var s' := DeleteChildren(s1, r, j + 1);
      SameIdentityTransitive(s.heap, s1.heap, s'.heap);
      s'
    else s
  }

  lemma SameIdentityTransitive(h: Heap, h': Heap, h'': Heap)
    requires SameIdentity(h, h') && SameIdentity(h', h'')
    ensures SameIdentity(h, h'')
  {
  }

  /** `deleteClaim`: the children loop, then the claim itself. */
  function Deleted(s: Store, r: Ref): (s': Store)
    requires Valid(s) && r in s.heap
    ensures Valid(s') && SameIdentity(s.heap, s'.heap) && s'.nextRef == s.nextRef && s'.nextClaimID == s.nextClaimID
  {
    var s1 := DeleteChildren(s, r, 1);
    DetachValid(s1, r);
    SameIdentityTransitive(s.heap, s1.heap, Detach(s1, r).heap);
    Detach(s1, r)
  }

  // The child loop of `deleteClaim` in closed form.

  /** The children at odd positions, the first m of them. */
  function Odds(kids: seq<Ref>, m: nat): (o: seq<Ref>)
    requires 2 * m <= |kids|
    ensures |o| == m && forall i :: 0 <= i < m ==> o[i] == kids[2 * i + 1]
  {
    seq(m, i requires 0 <= i < m => kids[2 * i + 1])
  }

  /** The children at even positions, the first m of them. */
  function Evens(kids: seq<Ref>, m: nat): (e: seq<Ref>)
    requires 2 * m <= |kids| + 1
    ensures |e| == m && forall i :: 0 <= i < m ==> e[i] == kids[2 * i]
  {
    seq(m, i requires 0 <= i < m => kids[2 * i])
  }

  /** The children list after the loop has deleted k children: the survivors so far,
      then the part not reached yet. */
  function ChildrenAfter(kids: seq<Ref>, k: nat): seq<Ref>
  {
    if 2 * k <= |kids| then Odds(kids, k) + kids[2 * k..] else Odds(kids, |kids| / 2)
  }

  lemma OddsStep(kids: seq<Ref>, k: nat)
    requires 2 * k + 1 < |kids|
    ensures Odds(kids, k) + kids[2 * k + 1..] == Odds(kids, k + 1) + kids[2 * k + 2..]
  {
    assert Odds(kids, k + 1) == Odds(kids, k) + [kids[2 * k + 1]];
    assert kids[2 * k + 1..] == [kids[2 * k + 1]] + kids[2 * k + 2..];
  }

  lemma EvensStep(kids: seq<Ref>, k: nat)
    requires 2 * k < |kids|
    ensures Evens(kids, k + 1) == Evens(kids, k) + [kids[2 * k]]
  {
  }

  /** No child at an even position is also at an odd one. */
  lemma EvenNotOdd(kids: seq<Ref>, k: nat)
    requires DistinctRefs(kids) && 2 * k < |kids|
    ensures kids[2 * k] !in Odds(kids, |kids| / 2)
  {
    var o := Odds(kids, |kids| / 2);
    forall i | 0 <= i < |o| ensures o[i] != kids[2 * k] {
      assert o[i] == kids[2 * i + 1];
    }
  }

  /** Removing x from a + b where x does not occur in a and starts b. */
  lemma {:induction false} RemoveFirstPast(a: seq<Ref>, b: seq<Ref>, x: Ref)
    requires x !in a && |b| > 0 && b[0] == x
    ensures RemoveFirst(a + b, x) == a + b[1..]
    decreases |a|
  {
    var s := a + b;
    if a == [] {
      assert s == b;
    } else {
      assert s[0] == a[0];
      assert s[1..] == a[1..] + b;
      RemoveFirstPast(a[1..], b, x);
      assert a + b[1..] == [a[0]] + (a[1..] + b[1..]);
    }
  }

  lemma ChildrenAfterShort(kids: seq<Ref>, k: nat)
    requires k < |ChildrenAfter(kids, k)|
    ensures 2 * k < |kids| && ChildrenAfter(kids, k) == Odds(kids, k) + kids[2 * k..]
  {
    var m := |kids| / 2;
    assert 2 * m <= |kids| < 2 * m + 2;
  }

  /** The even child k is not among the first k odd ones. */
  lemma EvenNotEarlierOdd(kids: seq<Ref>, k: nat)
    requires DistinctRefs(kids) && 2 * k < |kids|
    ensures kids[2 * k] !in Odds(kids, k)
  {
    var o := Odds(kids, k);
    forall i | 0 <= i < k ensures o[i] != kids[2 * k] {
      assert o[i] == kids[2 * i + 1];
    }
  }

  /** The survivors so far followed by the part past child 2k is the form for k + 1. */
  lemma ChildrenAfterNext(kids: seq<Ref>, k: nat)
    requires 2 * k < |kids|
    ensures Odds(kids, k) + kids[2 * k + 1..] == ChildrenAfter(kids, k + 1)
  {
    if 2 * k + 2 <= |kids| {
      OddsStep(kids, k);
    } else {
      assert kids[2 * k + 1..] == [];
      assert |kids| / 2 == k;
    }
  }

  /** One turn of the loop on the closed form: the child at position k of the current
      list is the one at 2k of the original list, and removing it gives the form for
      k + 1. */
  lemma ChildrenAfterStep(kids: seq<Ref>, k: nat)
    requires DistinctRefs(kids) && k < |ChildrenAfter(kids, k)|
    ensures 2 * k < |kids| && ChildrenAfter(kids, k)[k] == kids[2 * k]
    ensures RemoveFirst(ChildrenAfter(kids, k), kids[2 * k]) == ChildrenAfter(kids, k + 1)
  {
    ChildrenAfterShort(kids, k);
    var o := Odds(kids, k);
    var rest := kids[2 * k..];
    assert (o + rest)[k] == rest[0] == kids[2 * k];
    EvenNotEarlierOdd(kids, k);
    RemoveFirstPast(o, rest, kids[2 * k]);
    assert rest[1..] == kids[2 * k + 1..];
    ChildrenAfterNext(kids, k);
  }

  /** All these objects are marked as not in the store. */
  predicate AllGone(h: Heap, e: seq<Ref>)
  {
    forall i :: 0 <= i < |e| ==> e[i] in h && !h[e[i]].inDataStore
  }

  /** All these objects are as they were. */
  predicate AllKept(h: Heap, h0: Heap, o: seq<Ref>)
  {
    forall i :: 0 <= i < |o| ==> o[i] in h && o[i] in h0 && h[o[i]] == h0[o[i]]
  }

  lemma NotOwnChild(h: Heap, r: Ref)
    requires WellFormed(h) && r in h
    ensures r !in h[r].children
  {
    forall i | 0 <= i < |h[r].children|
      ensures h[r].children[i] != r
    {
      assert h[h[r].children[i]].parent == Some(r);
    }
  }

  /** The step on the children list: the child deleted is the one at 2k of the original. */
  lemma StepChildren(h: Heap, r: Ref, kids: seq<Ref>, k: nat)
    requires WellFormed(h) && r in h && DistinctRefs(kids)
    requires h[r].children == ChildrenAfter(kids, k) && k < |h[r].children|
    ensures 2 * k < |kids| && h[r].children[k] == kids[2 * k] && kids[2 * k] in h
    ensures DetachHeap(h, kids[2 * k])[r].children == ChildrenAfter(kids, k + 1)
  {
    ChildrenAfterStep(kids, k);
    assert h[kids[2 * k]].parent == Some(r);
    DetachHeapEffect(h, kids[2 * k]);
    DetachHeapWellFormed(h, kids[2 * k]);
  }

  /** The step on the children already deleted. */
  lemma StepGone(h: Heap, c: Ref, e: seq<Ref>)
    requires c in h && (h[c].parent.Some? ==> h[c].parent.value in h) && AllGone(h, e)
    ensures AllGone(DetachHeap(h, c), e + [c])
  {
    var h1 := DetachHeap(h, c);
    DetachHeapEffect(h, c);
    forall i | 0 <= i < |e + [c]| ensures (e + [c])[i] in h1 && !h1[(e + [c])[i]].inDataStore {
      if i < |e| {
        assert (e + [c])[i] == e[i];
      }
    }
  }

  /** The step on the children the loop skips. */
  lemma StepKept(h: Heap, h0: Heap, c: Ref, p: Ref, o: seq<Ref>)
    requires c in h && h[c].parent == Some(p) && p in h && c !in o && p !in o && AllKept(h, h0, o)
    ensures AllKept(DetachHeap(h, c), h0, o)
  {
    var h1 := DetachHeap(h, c);
    DetachHeapEffect(h, c);
    forall i | 0 <= i < |o| ensures o[i] in h1 && h1[o[i]] == h[o[i]] {
      assert o[i] != c && o[i] != p;
    }
  }

  /** One turn of the loop, unfolded. */
  lemma DeleteChildrenUnfold(s: Store, r: Ref, j: nat)
    requires Coherent(s) && r in s.heap && 1 <= j && j - 1 < |s.heap[r].children|
    ensures Coherent(Detach(s, s.heap[r].children[j - 1])) && r in Detach(s, s.heap[r].children[j - 1]).heap
    ensures |Detach(s, s.heap[r].children[j - 1]).heap[r].children| == |s.heap[r].children| - 1
    ensures DeleteChildren(s, r, j) == DeleteChildren(Detach(s, s.heap[r].children[j - 1]), r, j + 1)
  {
    var c := s.heap[r].children[j - 1];
    assert s.heap[c].parent == Some(r) && c != r;
    DetachHeapEffect(s.heap, c);
    DetachCoherent(s, c);
  }

  /** What holds of the store when the loop is at position j. */
  predicate LoopShape(h0: Heap, s: Store, r: Ref, kids: seq<Ref>, j: nat)
  {
    Coherent(s) && r in s.heap && 1 <= j && DistinctRefs(kids) && r !in kids
    && s.heap[r].children == ChildrenAfter(kids, j - 1)
    && 2 * (j - 1) <= |kids| + 1
    && AllGone(s.heap, Evens(kids, j - 1))
    && AllKept(s.heap, h0, Odds(kids, |kids| / 2))
  }

  lemma LoopShapeStart(s: Store, r: Ref)
    requires Coherent(s) && r in s.heap
    ensures LoopShape(s.heap, s, r, s.heap[r].children, 1)
  {
    var kids := s.heap[r].children;
    assert ChildrenAfter(kids, 0) == kids;
    assert DistinctRefs(kids);
    NotOwnChild(s.heap, r);
    assert AllKept(s.heap, s.heap, Odds(kids, |kids| / 2)) by {
      var o := Odds(kids, |kids| / 2);
      forall i | 0 <= i < |o| ensures o[i] in s.heap {
        assert o[i] == kids[2 * i + 1];
      }
    }
  }

  lemma LoopShapeStep(h0: Heap, s: Store, r: Ref, kids: seq<Ref>, j: nat)
    requires LoopShape(h0, s, r, kids, j) && j - 1 < |s.heap[r].children|
    ensures s.heap[r].children[j - 1] == kids[2 * (j - 1)]
    ensures LoopShape(h0, Detach(s, kids[2 * (j - 1)]), r, kids, j + 1)
  {
    var k := j - 1;
    var h := s.heap;
    StepChildren(h, r, kids, k);
    var c := kids[2 * k];
    EvensStep(kids, k);
    StepGone(h, c, Evens(kids, k));
    EvenNotOdd(kids, k);
    assert r !in Odds(kids, |kids| / 2) by {
      forall i | 0 <= i < |kids| / 2 ensures Odds(kids, |kids| / 2)[i] != r {
        assert Odds(kids, |kids| / 2)[i] == kids[2 * i + 1];
      }
    }
    StepKept(h, h0, c, r, Odds(kids, |kids| / 2));
    DetachCoherent(s, c);
  }

  lemma LoopShapeDone(h0: Heap, s: Store, r: Ref, kids: seq<Ref>, j: nat)
    requires LoopShape(h0, s, r, kids, j) && j - 1 >= |s.heap[r].children|
    ensures s.heap[r].children == Odds(kids, |kids| / 2)
    ensures AllGone(s.heap, Evens(kids, (|kids| + 1) / 2)) && AllKept(s.heap, h0, Odds(kids, |kids| / 2))
  {
    assert 2 * (j - 1) >= |kids|;
    assert j - 1 == (|kids| + 1) / 2;
  }

  /** The loop from position j on, given the closed form and what it says about the
      children already handled. */
  lemma {:induction false} DeleteChildrenShape(h0: Heap, s: Store, r: Ref, kids: seq<Ref>, j: nat)
    requires LoopShape(h0, s, r, kids, j)
    ensures var h' := DeleteChildren(s, r, j).heap;
      h'[r].children == Odds(kids, |kids| / 2)
      && AllGone(h', Evens(kids, (|kids| + 1) / 2)) && AllKept(h', h0, Odds(kids, |kids| / 2))
    decreases |s.heap[r].children| + 1 - j
  {
    if j - 1 < |s.heap[r].children| {
      LoopShapeStep(h0, s, r, kids, j);
      DeleteChildrenUnfold(s, r, j);
      DeleteChildrenShape(h0, Detach(s, kids[2 * (j - 1)]), r, kids, j + 1);
    } else {
      LoopShapeDone(h0, s, r, kids, j);
    }
  }

  /** `deleteClaim`'s child loop deletes exactly the children at even positions
      (counting from 0): each deletion shifts the next child into the position the loop
      moves past. The children at odd positions stay in the list, untouched and still
      marked as in the store. */
  lemma DeleteChildrenEffect(s: Store, r: Ref)
    requires Coherent(s) && r in s.heap
    ensures var s' := DeleteChildren(s, r, 1); var kids := s.heap[r].children;
      s'.heap[r].children == Odds(kids, |kids| / 2)
      && AllGone(s'.heap, Evens(kids, (|kids| + 1) / 2)) && AllKept(s'.heap, s.heap, Odds(kids, |kids| / 2))
  {
    LoopShapeStart(s, r);
    DeleteChildrenShape(s.heap, s, r, s.heap[r].children, 1);
  }

  // What `deleteClaim` guarantees.

  /** Removing one claim marks it and takes it out of its parent's children. */
  lemma DetachHeapRemoves(h: Heap, r: Ref)
    requires WellFormed(h) && r in h
    ensures !DetachHeap(h, r)[r].inDataStore
    ensures h[r].parent.Some? ==> r !in DetachHeap(h, r)[h[r].parent.value].children
    ensures DetachHeap(h, r)[r].children == h[r].children
  {
    DetachHeapEffect(h, r);
    DetachHeapWellFormed(h, r);
    if h[r].parent.Some? {
      var p := h[r].parent.value;
      RemoveFirstDistinct(h[p].children, r);
    }
  }

  /** Removing a claim leaves other objects' contents and every flag already cleared. */
  lemma DetachHeapKeeps(h: Heap, h0: Heap, r: Ref, o: seq<Ref>, e: seq<Ref>)
    requires WellFormed(h) && r in h && r !in o && (h[r].parent.Some? ==> o == [])
    requires AllKept(h, h0, o) && AllGone(h, e)
    ensures AllKept(DetachHeap(h, r), h0, o) && AllGone(DetachHeap(h, r), e)
  {
    var h' := DetachHeap(h, r);
    DetachHeapEffect(h, r);
    forall i | 0 <= i < |o| ensures o[i] in h' && h'[o[i]] == h[o[i]] {
      assert o[i] != r;
    }
    forall i | 0 <= i < |e| ensures e[i] in h' && !h'[e[i]].inDataStore {
      if e[i] != r && Some(e[i]) != h[r].parent {
        assert h'[e[i]] == h[e[i]];
      }
    }
  }

  /** After `deleteClaim`, the claim is marked as not in the store and is no longer among
      its parent's children. */
  lemma DeletedUnlinks(s: Store, r: Ref)
    requires Valid(s) && r in s.heap
    ensures var s' := Deleted(s, r);
      r in s'.heap && !s'.heap[r].inDataStore
      && (s.heap[r].parent.Some? ==> r !in s'.heap[s.heap[r].parent.value].children)
  {
    var s1 := DeleteChildren(s, r, 1);
    assert s1.heap[r].parent == s.heap[r].parent;
    DetachHeapRemoves(s1.heap, r);
  }

  /** The closed form of the child loop survives the removal of the claim itself. */
  lemma DetachHeapFinishes(h: Heap, h0: Heap, r: Ref, kids: seq<Ref>)
    requires WellFormed(h) && r in h && r !in kids && (h[r].parent.Some? ==> kids == [])
    requires h[r].children == Odds(kids, |kids| / 2)
    requires AllGone(h, Evens(kids, (|kids| + 1) / 2)) && AllKept(h, h0, Odds(kids, |kids| / 2))
    ensures var h' := DetachHeap(h, r);
      h'[r].children == Odds(kids, |kids| / 2)
      && AllGone(h', Evens(kids, (|kids| + 1) / 2)) && AllKept(h', h0, Odds(kids, |kids| / 2))
  {
    var o := Odds(kids, |kids| / 2);
    assert r !in o by {
      forall i | 0 <= i < |o| ensures o[i] != r {
        assert o[i] == kids[2 * i + 1];
      }
    }
    DetachHeapRemoves(h, r);
    DetachHeapKeeps(h, h0, r, o, Evens(kids, (|kids| + 1) / 2));
  }

  /** Of the claim's own children, `deleteClaim` deletes those at even positions (counting
      from 0); those at odd positions stay its children, unchanged. */
  lemma DeletedChildren(s: Store, r: Ref)
    requires Valid(s) && r in s.heap
    ensures var s' := Deleted(s, r); var kids := s.heap[r].children;
      s'.heap[r].children == Odds(kids, |kids| / 2)
      && AllGone(s'.heap, Evens(kids, (|kids| + 1) / 2))
      && AllKept(s'.heap, s.heap, Odds(kids, |kids| / 2))
  {
    var kids := s.heap[r].children;
    var s1 := DeleteChildren(s, r, 1);
    DeleteChildrenEffect(s, r);
    NotOwnChild(s.heap, r);
    assert s1.heap[r].parent == s.heap[r].parent;
    DetachHeapFinishes(s1.heap, s.heap, r, kids);
  }

  /** Removing a claim whose id occurs at most once in the list leaves no entry with it. */
  lemma DetachListGone(s: Store, r: Ref)
    requires Coherent(s) && r in s.heap && AtMostOnce(s.claims, s.heap, s.heap[r].id)
    ensures forall j :: 0 <= j < |Detach(s, r).claims| ==> Detach(s, r).heap[Detach(s, r).claims[j]].id != s.heap[r].id
  {
    var s' := Detach(s, r);
    RemoveOnlyWithId(s.claims, s.heap, s.heap[r].id);
    DetachHeapEffect(s.heap, r);
    forall j | 0 <= j < |s'.claims| ensures s'.heap[s'.claims[j]].id != s.heap[r].id {
      assert s.heap[s'.claims[j]].id != s.heap[r].id;
    }
  }

  /** The same for each bucket of the claim's chunks. */
  lemma DetachIndexGone(s: Store, r: Ref, k: int)
    requires Coherent(s) && r in s.heap && IndexAtMostOnce(s.index, s.heap, s.heap[r].id)
    requires k in ChunkHashes(s.heap[r].bounds)
    ensures forall j :: 0 <= j < |Bucket(Detach(s, r).index, k)| ==>
              Detach(s, r).heap[Bucket(Detach(s, r).index, k)[j]].id != s.heap[r].id
  {
    var s' := Detach(s, r);
    assert AtMostOnce(Bucket(s.index, k), s.heap, s.heap[r].id);
    RemovedFromIndex(s.index, s.heap, r, k);
    DetachHeapEffect(s.heap, r);
    var b := Bucket(s'.index, k);
    forall j | 0 <= j < |b| ensures s'.heap[b[j]].id != s.heap[r].id {
      assert b[j] in s'.heap;
    }
  }

  /** After `deleteClaim`, no entry of the top-level list has the claim's id, when at most
      one had it before. */
  lemma DeletedFromList(s: Store, r: Ref)
    requires Valid(s) && r in s.heap
    requires AtMostOnce(s.claims, s.heap, s.heap[r].id)
    ensures var s' := Deleted(s, r);
      forall j :: 0 <= j < |s'.claims| ==> s'.heap[s'.claims[j]].id != s.heap[r].id
  {
    assert ListOnce(s, s.heap[r].id);
    var s1 := DeleteChildren(s, r, 1);
    assert s1.heap[r].id == s.heap[r].id;
    DetachListGone(s1, r);
  }

  /** After `deleteClaim`, no bucket of the claim's chunks holds an entry with its id,
      when each held at most one before. */
  lemma DeletedFromIndex(s: Store, r: Ref, k: int)
    requires Valid(s) && r in s.heap
    requires IndexAtMostOnce(s.index, s.heap, s.heap[r].id)
    requires k in ChunkHashes(s.heap[r].bounds)
    ensures var s' := Deleted(s, r);
      forall j :: 0 <= j < |Bucket(s'.index, k)| ==> s'.heap[Bucket(s'.index, k)[j]].id != s.heap[r].id
  {
    assert IndexOnce(s, s.heap[r].id);
    var s1 := DeleteChildren(s, r, 1);
    assert s1.heap[r].id == s.heap[r].id && s1.heap[r].bounds == s.heap[r].bounds;
    DetachIndexGone(s1, r, k);
  }

  // ----- subdivision ids and the index -----

  /** Every id in use is below the counter, and no subdivision shares its id with a claim
      of the index: removals from the index by a subdivision's id then find nothing. */
  predicate IndexApart(s: Store)
  {
    IdsBelow(s) && IndexIn(s.index, s.heap)
    && forall k, j, q :: k in s.index && 0 <= j < |s.index[k]| && q in s.heap && s.heap[q].parent.Some? ==>
         s.heap[s.index[k][j]].id != s.heap[q].id
  }

  /** A removal from the index keeps the ids apart. */
  lemma RemoveFromIndexApart(s: Store, r: Ref)
    requires IndexApart(s) && r in s.heap
    ensures IndexApart(s.(index := RemoveFromIndex(s.index, s.heap, r)))
  {
    var idx := RemoveFromIndex(s.index, s.heap, r);
    RemoveHashesShrinks(s.index, s.heap, ChunkHashes(s.heap[r].bounds), s.heap[r].id);
    forall k, j, q | k in idx && 0 <= j < |idx[k]| && q in s.heap && s.heap[q].parent.Some?
      ensures s.heap[idx[k][j]].id != s.heap[q].id
    {
      assert idx[k][j] in Bucket(idx, k);
      var b := Bucket(s.index, k);
      var i :| 0 <= i < |b| && b[i] == idx[k][j];
      assert k in s.index;
    }
  }

  /** Saving a claim keeps the ids apart: a new id is the counter, which no claim has. */
  lemma AssignIdApart(s: Store, r: Ref)
    requires IndexApart(s) && r in s.heap
    ensures IndexApart(AssignId(s, r))
  {
    AssignIdFresh(s, r);
  }

  /** Writing back a claim with the same id and links keeps the ids apart. */
  lemma PutApart(s: Store, r: Ref, c: Claim)
    requires IndexApart(s) && r in s.heap
    requires c.parent == s.heap[r].parent && c.children == s.heap[r].children && c.id == s.heap[r].id
    ensures IndexApart(Put(s, r, c))
  {
  }

  /** Every claim that had an id keeps it: saving only numbers claims without one. */
  predicate KeepsIds(h: Heap, h': Heap)
  {
    forall q :: q in h && !Unassigned(h[q]) ==> q in h' && h'[q].id == h[q].id
  }

  lemma KeepsIdsTransitive(h: Heap, h': Heap, h'': Heap)
    requires KeepsIds(h, h') && KeepsIds(h', h'')
    ensures KeepsIds(h, h'')
  {
    forall q | q in h && !Unassigned(h[q]) ensures q in h'' && h''[q].id == h[q].id {
      assert h'[q].id == h[q].id;
    }
  }

  lemma AssignIdKeeps(s: Store, r: Ref)
    requires r in s.heap
    ensures KeepsIds(s.heap, AssignId(s, r).heap)
  {
    AssignIdFresh(s, r);
  }
}
