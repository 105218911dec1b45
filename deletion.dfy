/** Deleting a claim a second time. `deleteClaim`'s child loop moves past a position
    after each deletion, although every deletion shifts the remaining children down
    one place, so each call deletes only every other child (`Stores.DeletedChildren`).
    Here: a second call changes nothing when the claim had at most one child, it does
    change the store whenever the claim had two or more, and a loop that deletes the
    first remaining child until none is left makes deletion idempotent. */
module Deletions {
  import opened Wrappers
  import opened Claims
  import opened ChunkIndex
  import opened Stores

  /** What a deletion leaves of a claim: it is marked as not in the store, no longer
      among its parent's children, and its id is in neither the list nor the buckets of
      its chunks. */
  predicate Gone(s: Store, r: Ref)
  {
    Valid(s) && r in s.heap && !s.heap[r].inDataStore
    && (s.heap[r].parent.Some? ==> r !in s.heap[s.heap[r].parent.value].children)
    && (forall j :: 0 <= j < |s.claims| ==> s.heap[s.claims[j]].id != s.heap[r].id)
    && (forall k, j :: k in ChunkHashes(s.heap[r].bounds) && 0 <= j < |Bucket(s.index, k)| ==>
          s.heap[Bucket(s.index, k)[j]].id != s.heap[r].id)
  }

  /** Removing a claim that is already gone changes nothing. */
  lemma DetachNoop(s: Store, r: Ref)
    requires Gone(s, r)
    ensures Detach(s, r) == s
  {
    var h := s.heap;
    RemoveHashesAbsent(s.index, h, ChunkHashes(h[r].bounds), h[r].id);
    if h[r].parent.Some? {
      var p := h[r].parent.value;
      assert h[p].(children := RemoveFirst(h[p].children, r)) == h[p];
    }
    assert Unlinked(h, r) == h;
    assert h[r].(inDataStore := false) == h[r];
  }

  /** Deleting a claim that is gone and has no children changes nothing. */
  lemma RedeleteNoop(s: Store, r: Ref)
    requires Gone(s, r) && s.heap[r].children == []
    ensures Deleted(s, r) == s
  {
    assert DeleteChildren(s, r, 1) == s;
    DetachNoop(s, r);
  }

  /** Removing a claim keeps every cleared flag cleared and marks the claim itself. */
  lemma DetachHeapClears(h: Heap, r: Ref, kids: seq<Ref>)
    requires WellFormed(h) && r in h
    requires forall c :: c in kids ==> c in h && !h[c].inDataStore
    ensures var h' := DetachHeap(h, r);
      !h'[r].inDataStore && h'[r].children == h[r].children
      && (forall c :: c in kids ==> !h'[c].inDataStore)
      && (h[r].parent.Some? ==> r !in h'[h[r].parent.value].children)
  {
    DetachHeapRemoves(h, r);
    DetachHeapEffect(h, r);
  }

  /** `deleteClaim` leaves the claim gone, when its id occurred at most once in the list
      and in each bucket. */
  lemma DeletedGone(s: Store, r: Ref)
    requires Valid(s) && r in s.heap
    requires AtMostOnce(s.claims, s.heap, s.heap[r].id)
    requires IndexAtMostOnce(s.index, s.heap, s.heap[r].id)
    ensures Gone(Deleted(s, r), r)
  {
    var id := s.heap[r].id;
    assert ListOnce(s, id) && IndexOnce(s, id);
    var s1 := DeleteChildren(s, r, 1);
    var s' := Detach(s1, r);
    assert s1.heap[r].id == id && s1.heap[r].parent == s.heap[r].parent;
    DetachHeapClears(s1.heap, r, []);
    DetachListGone(s1, r);
    forall k | k in ChunkHashes(s.heap[r].bounds)
      ensures forall j :: 0 <= j < |Bucket(s'.index, k)| ==> s'.heap[Bucket(s'.index, k)[j]].id != id
    {
      DetachIndexGone(s1, r, k);
    }
  }

  /** As written: deleting a claim with at most one child a second time changes nothing,
      when its id occurred at most once in the list and in each bucket. */
  lemma DeletedTwiceFewChildren(s: Store, r: Ref)
    requires Valid(s) && r in s.heap && |s.heap[r].children| <= 1
    requires AtMostOnce(s.claims, s.heap, s.heap[r].id)
    requires IndexAtMostOnce(s.index, s.heap, s.heap[r].id)
    ensures Deleted(Deleted(s, r), r) == Deleted(s, r)
  {
    DeletedChildren(s, r);
    DeletedGone(s, r);
    RedeleteNoop(Deleted(s, r), r);
  }

  /** As written: a claim with two or more children is not fully deleted by one call —
      a second call deletes some of the children the first one left. */
  lemma DeletedTwiceManyChildren(s: Store, r: Ref)
    requires Valid(s) && r in s.heap && |s.heap[r].children| >= 2
    ensures Deleted(Deleted(s, r), r) != Deleted(s, r)
  {
    var s' := Deleted(s, r);
    DeletedChildren(s, r);
    DeletedChildren(s', r);
    assert |s'.heap[r].children| >= 1;
  }

  // The child loop as evidently intended.

  /** Deleting the first remaining child until none is left. */
  function DeleteAllChildren(s: Store, r: Ref): (s': Store)
    requires Coherent(s) && r in s.heap
    ensures Coherent(s') && SameIdentity(s.heap, s'.heap) && (Valid(s) ==> Valid(s'))
    ensures s'.nextRef == s.nextRef && s'.nextClaimID == s.nextClaimID
    ensures forall id :: ListOnce(s, id) ==> ListOnce(s', id)
    ensures forall id :: IndexOnce(s, id) ==> IndexOnce(s', id)
    ensures s'.heap[r].children == []
    ensures forall c :: c in s.heap[r].children ==> !s'.heap[c].inDataStore
    ensures forall c :: c in s.heap && !s.heap[c].inDataStore ==> !s'.heap[c].inDataStore
    decreases |s.heap[r].children|
  {
    var kids := s.heap[r].children;
    if kids == [] then s
    else
      var child := kids[0];
      assert s.heap[child].parent == Some(r) && child != r;
      DetachCoherent(s, child);
      DetachOnce(s, child);
      DetachHeapEffect(s.heap, child);
      var s1 := Detach(s, child);
      assert s1.heap[r].children == kids[1..];
      var s' := DeleteAllChildren(s1, r);
      SameIdentityTransitive(s.heap, s1.heap, s'.heap);
      s'
  }

  /** `deleteClaim` with the corrected child loop. */
  function DeletedAll(s: Store, r: Ref): (s': Store)
    requires Valid(s) && r in s.heap
    ensures Valid(s') && SameIdentity(s.heap, s'.heap) && s'.nextRef == s.nextRef && s'.nextClaimID == s.nextClaimID
  {
    var s1 := DeleteAllChildren(s, r);
    DetachValid(s1, r);
    SameIdentityTransitive(s.heap, s1.heap, Detach(s1, r).heap);
    Detach(s1, r)
  }

  /** The corrected deletion removes the claim and every one of its children: all are
      marked as not in the store, the claim has no children left and is no longer among
      its parent's. */
  lemma DeletedAllEffect(s: Store, r: Ref)
    requires Valid(s) && r in s.heap
    ensures var s' := DeletedAll(s, r);
      !s'.heap[r].inDataStore && s'.heap[r].children == []
      && (forall c :: c in s.heap[r].children ==> !s'.heap[c].inDataStore)
      && (s.heap[r].parent.Some? ==> r !in s'.heap[s.heap[r].parent.value].children)
  {
    var s1 := DeleteAllChildren(s, r);
    assert s1.heap[r].parent == s.heap[r].parent;
    DetachHeapClears(s1.heap, r, s.heap[r].children);
  }

  /** The corrected deletion leaves the claim gone, when its id occurred at most once in
      the list and in each bucket. */
  lemma DeletedAllGone(s: Store, r: Ref)
    requires Valid(s) && r in s.heap
    requires AtMostOnce(s.claims, s.heap, s.heap[r].id)
    requires IndexAtMostOnce(s.index, s.heap, s.heap[r].id)
    ensures Gone(DeletedAll(s, r), r)
  {
    var id := s.heap[r].id;
    assert ListOnce(s, id) && IndexOnce(s, id);
    var s1 := DeleteAllChildren(s, r);
    var s' := Detach(s1, r);
    assert s1.heap[r].id == id;
    DeletedAllEffect(s, r);
    DetachListGone(s1, r);
    forall k | k in ChunkHashes(s.heap[r].bounds)
      ensures forall j :: 0 <= j < |Bucket(s'.index, k)| ==> s'.heap[Bucket(s'.index, k)[j]].id != id
    {
      DetachIndexGone(s1, r, k);
    }
  }

  /** The corrected deletion is idempotent, whatever the number of children, when the
      claim's id occurred at most once in the list and in each bucket. */
  lemma DeletedAllTwice(s: Store, r: Ref)
    requires Valid(s) && r in s.heap
    requires AtMostOnce(s.claims, s.heap, s.heap[r].id)
    requires IndexAtMostOnce(s.index, s.heap, s.heap[r].id)
    ensures DeletedAll(DeletedAll(s, r), r) == DeletedAll(s, r)
  {
    var s' := DeletedAll(s, r);
    DeletedAllEffect(s, r);
    DeletedAllGone(s, r);
    assert DeleteAllChildren(s', r) == s';
    DetachNoop(s', r);
  }
}
