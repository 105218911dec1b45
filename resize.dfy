/** `resizeClaim` and `truncateSubdivisions`: a resize is a dry-run creation with the
    claim's own id, whose box is then copied onto the claim; the claim is deepened, its
    subdivisions are cut down to its new box (those left outside are dropped), and it is
    indexed again under its new chunks. */
module Resizing {
  import opened Wrappers
  import opened JavaInt
  import opened BoundingBoxes
  import opened Claims
  import opened ChunkIndex
  import opened Stores
  import opened Depths
  import opened Creation

  // ----- one subdivision against the parent's box -----

  /** The child box after the clamping of `truncateSubdivisions`: each minimum raised to the
      parent's, each maximum lowered to the parent's, then a clamped `set` against the
      child's own box. */
  function Truncated(b: Box, p: Box): (t: Box)
    ensures t.minX <= b.maxX && t.minY <= b.maxY && t.minZ <= b.maxZ
    ensures t.maxX >= b.minX && t.maxY >= b.minY && t.maxZ >= b.minZ
  {
    b.SetClamped(Max(b.minX, p.minX), Max(b.minY, p.minY), Max(b.minZ, p.minZ),
                 Min(b.maxX, p.maxX), Min(b.maxY, p.maxY), Min(b.maxZ, p.maxZ))
  }

  /** `mod`: some bound of the child was beyond the parent's. */
  predicate Clamps(b: Box, p: Box)
  {
    b.minX < p.minX || b.minY < p.minY || b.minZ < p.minZ || b.maxX > p.maxX || b.maxY > p.maxY || b.maxZ > p.maxZ
  }

  /** The truncated box still leaves the parent's: the child is dropped. */
  predicate Dropped(b: Box, p: Box)
  {
    !p.ContainsBox(Truncated(b, p))
  }

  /** The child is saved: kept, changed, and saving was asked for. */
  predicate Saves(b: Box, p: Box, save: bool)
  {
    !Dropped(b, p) && Clamps(b, p) && save
  }

  /** For a normalised child box, truncation keeps exactly the boxes that meet the
      parent's, and cuts them down to the common part; a box already inside the parent's
      is left as it is. */
  lemma TruncatedIsIntersection(b: Box, p: Box)
    requires b.Normalised()
    ensures !Dropped(b, p) <==> b.Intersects(p)
    ensures b.Intersects(p) ==> Truncated(b, p) == b.Intersection(p).value
    ensures p.ContainsBox(b) ==> Truncated(b, p) == b && !Clamps(b, p)
  {
    var t := Truncated(b, p);
    if !b.Intersects(p) {
      if b.maxX < p.minX {
        assert t.minX == b.maxX;
      } else if b.minX > p.maxX {
        assert t.maxX == b.minX;
      } else if b.maxY < p.minY {
        assert t.minY == b.maxY;
      } else if b.minY > p.maxY {
        assert t.maxY == b.minY;
      } else if b.maxZ < p.minZ {
        assert t.minZ == b.maxZ;
      } else {
        assert t.maxZ == b.minZ;
      }
    }
  }

  /** The child's box after `box.set(...)`, before anything else of the pass. */
  function Clipped(s: Store, c: Ref, pb: Box): (s': Store)
    requires c in s.heap
    ensures Reshaped(s, s')
    ensures s'.heap == s.heap[c := s.heap[c].(bounds := Truncated(s.heap[c].bounds, pb))]
    ensures s'.nextClaimID == s.nextClaimID && KeepsIds(s.heap, s'.heap)
  {
    Put(s, c, s.heap[c].(bounds := Truncated(s.heap[c].bounds, pb)))
  }

  /** A reshaped store is as coherent and as valid as the one it came from. */
  lemma ReshapedCoherent(s: Store, s': Store)
    requires Coherent(s) && Reshaped(s, s')
    ensures Coherent(s') && (Valid(s) ==> Valid(s'))
  {
    SameLinksWellFormed(s.heap, s'.heap);
    if Valid(s) {
      ReshapedValid(s, s');
    }
  }

  /** One pass of the iterator loop: the child's box is truncated; a child left outside
      leaves its parent's children and the chunk index, and otherwise a changed child is
      saved when asked. */
  function TruncateChild(s: Store, c: Ref, pb: Box, save: bool): (s': Store)
    requires Coherent(s) && c in s.heap && s.heap[c].parent.Some?
    ensures s'.heap.Keys == s.heap.Keys && s'.claims == s.claims && s'.nextRef == s.nextRef
    ensures forall q :: q in s.heap ==> s'.heap[q].parent == s.heap[q].parent
  {
    var s1 := Clipped(s, c, pb);
    if Dropped(s.heap[c].bounds, pb) then DropChild(s1, c)
    else if Clamps(s.heap[c].bounds, pb) && save then AssignId(s1, c)
    else s1
  }

  /** `it.remove()` and `removeFromChunkClaimMap(child)`: the child leaves its parent's
      children and the buckets of its chunks; nothing else changes. */
  function DropChild(s: Store, c: Ref): (s': Store)
    requires c in s.heap && s.heap[c].parent.Some? && s.heap[c].parent.value in s.heap && IndexIn(s.index, s.heap)
    ensures s'.heap == Unlinked(s.heap, c) && s'.index == RemoveFromIndex(s.index, s.heap, c)
    ensures s'.claims == s.claims && s'.nextRef == s.nextRef && s'.nextClaimID == s.nextClaimID
    ensures KeepsIds(s.heap, s'.heap)
  {
    s.(heap := Unlinked(s.heap, c), index := RemoveFromIndex(s.index, s.heap, c))
  }

  /** Dropping a child keeps the store coherent, and valid when it was. */
  lemma DropChildValid(s: Store, c: Ref)
    requires Coherent(s) && c in s.heap && s.heap[c].parent.Some?
    ensures Coherent(DropChild(s, c))
    ensures Valid(s) ==> Valid(DropChild(s, c))
  {
    UnlinkedWellFormed(s.heap, c);
    if Valid(s) {
      var s2 := s.(index := RemoveFromIndex(s.index, s.heap, c));
      RemoveFromIndexValid(s, c);
      SameParentsValid(s2, Unlinked(s.heap, c));
      assert DropChild(s, c) == s2.(heap := Unlinked(s.heap, c));
    }
  }

  /** Which of the three ways one pass goes. */
  lemma TruncateChildSteps(s: Store, c: Ref, pb: Box, save: bool)
    requires Coherent(s) && c in s.heap && s.heap[c].parent.Some?
    ensures var b := s.heap[c].bounds;
      var s1 := Clipped(s, c, pb);
      TruncateChild(s, c, pb, save)
        == if Dropped(b, pb) then DropChild(s1, c) else if Clamps(b, pb) && save then AssignId(s1, c) else s1
  {
  }

  /** One pass keeps the store coherent, and valid when it was. */
  lemma TruncateChildValid(s: Store, c: Ref, pb: Box, save: bool)
    requires Coherent(s) && c in s.heap && s.heap[c].parent.Some?
    ensures Coherent(TruncateChild(s, c, pb, save))
    ensures Valid(s) ==> Valid(TruncateChild(s, c, pb, save))
  {
    var s1 := Clipped(s, c, pb);
    TruncateChildSteps(s, c, pb, save);
    ReshapedCoherent(s, s1);
    if Dropped(s.heap[c].bounds, pb) {
      DropChildValid(s1, c);
    } else if Clamps(s.heap[c].bounds, pb) && save {
      ReshapedCoherent(s1, AssignId(s1, c));
    }
  }

  /** One pass changes the child only by its box, to the truncated one, and by its id,
      which it gets when it is saved and keeps otherwise. */
  lemma TruncateChildOwn(s: Store, c: Ref, pb: Box, save: bool)
    requires Coherent(s) && c in s.heap && s.heap[c].parent.Some?
    ensures var s' := TruncateChild(s, c, pb, save);
      var b := s.heap[c].bounds;
      s'.heap[c] == s.heap[c].(bounds := Truncated(b, pb), id := s'.heap[c].id)
      && (s'.heap[c].id != s.heap[c].id ==> Saves(b, pb, save))
      && (Saves(b, pb, save) ==> s'.heap[c].id.Some?)
  {
    var ch := s.heap[c];
    var s1 := Clipped(s, c, pb);
    TruncateChildSteps(s, c, pb, save);
    if !Dropped(ch.bounds, pb) && Clamps(ch.bounds, pb) && save {
      AssignIdFresh(s1, c);
    }
  }

  /** One pass changes the child's parent only by its children, which lose the child
      exactly when it is dropped, and no other object. */
  lemma TruncateChildOthers(s: Store, c: Ref, pb: Box, save: bool)
    requires Coherent(s) && c in s.heap && s.heap[c].parent.Some?
    ensures var s' := TruncateChild(s, c, pb, save);
      var p := s.heap[c].parent.value;
      s'.heap[p] == s.heap[p].(children := s'.heap[p].children)
      && s'.heap[p].children == (if Dropped(s.heap[c].bounds, pb) then RemoveFirst(s.heap[p].children, c) else s.heap[p].children)
      && forall q :: q in s.heap && q != c && q != p ==> s'.heap[q] == s.heap[q]
  {
    TruncateChildSteps(s, c, pb, save);
    var s1 := Clipped(s, c, pb);
    if Dropped(s.heap[c].bounds, pb) {
      DroppedOthers(s, s1, c);
    } else if Clamps(s.heap[c].bounds, pb) && save {
      AssignIdFresh(s1, c);
      KeptOthers(s, s1, AssignId(s1, c), c);
    } else {
      KeptOthers(s, s1, s1, c);
    }
  }

  /** The dropping branch, on heaps. */
  lemma DroppedOthers(s: Store, s1: Store, c: Ref)
    requires c in s.heap && s.heap[c].parent.Some? && s.heap[c].parent.value in s.heap && s.heap[c].parent.value != c
    requires c in s1.heap && s1.heap == s.heap[c := s1.heap[c]] && s1.heap[c].parent == s.heap[c].parent && IndexIn(s1.index, s1.heap)
    ensures var h' := DropChild(s1, c).heap;
      var p := s.heap[c].parent.value;
      h'[p] == s.heap[p].(children := RemoveFirst(s.heap[p].children, c))
      && forall q :: q in s.heap && q != c && q != p ==> h'[q] == s.heap[q]
  {
  }

  /** The other two branches, on heaps: only the child itself may change. */
  lemma KeptOthers(s: Store, s1: Store, s2: Store, c: Ref)
    requires c in s.heap && s.heap[c].parent.Some? && s.heap[c].parent.value in s.heap && s.heap[c].parent.value != c
    requires c in s1.heap && s1.heap == s.heap[c := s1.heap[c]]
    requires s2.heap.Keys == s1.heap.Keys && forall q :: q in s1.heap && q != c ==> s2.heap[q] == s1.heap[q]
    ensures var p := s.heap[c].parent.value;
      s2.heap[p] == s.heap[p]
      && forall q :: q in s.heap && q != c ==> s2.heap[q] == s.heap[q]
  {
  }

  // ----- the loop -----

  /** The first n passes of `truncateSubdivisions` over the children `kids` of r, as the
      list was when the loop began, against the parent box pb read once before it; what
      they do is `Passed`. */
  function TruncatedAll(s: Store, r: Ref, kids: seq<Ref>, pb: Box, save: bool, n: nat): (s': Store)
    requires Coherent(s) && r in s.heap && kids == s.heap[r].children && n <= |kids|
    ensures Coherent(s') && (Valid(s) ==> Valid(s'))
    ensures s'.heap.Keys == s.heap.Keys && s'.claims == s.claims && s'.nextRef == s.nextRef
    ensures forall q :: q in s.heap ==> s'.heap[q].parent == s.heap[q].parent
    ensures Passed(s.heap, s'.heap, r, kids, pb, save, n)
    ensures KeepsIds(s.heap, s'.heap)
    ensures IndexApart(s) && NoEmptyBucket(s.index) ==> s'.index == s.index && IndexApart(s')
    decreases n
  {
    if n == 0 then
      assert kids[0..] == kids;
      s
    else
      var s1 := TruncatedAll(s, r, kids, pb, save, n - 1);
      PassStep(s.heap, s1, r, kids, pb, save, n);
      TruncateChildValid(s1, kids[n - 1], pb, save);
      TruncateChildKeeps(s1, kids[n - 1], pb, save);
      KeepsIdsTransitive(s.heap, s1.heap, TruncateChild(s1, kids[n - 1], pb, save).heap);
      if IndexApart(s1) && NoEmptyBucket(s1.index) then
        TruncateChildApart(s1, kids[n - 1], pb, save);
        TruncateChild(s1, kids[n - 1], pb, save)
      else
        TruncateChild(s1, kids[n - 1], pb, save)
  }

  /** The children of the first n that are kept, in order. */
  function Kept(h: Heap, kids: seq<Ref>, pb: Box, n: nat): (k: seq<Ref>)
    requires n <= |kids|
    ensures forall x :: x in k ==> x in kids[..n] && x in h && !Dropped(h[x].bounds, pb)
    ensures forall m :: 0 <= m < n && kids[m] in h && !Dropped(h[kids[m]].bounds, pb) ==> kids[m] in k
    decreases n
  {
    if n == 0 then []
    else
      var k := Kept(h, kids, pb, n - 1);
      assert forall x :: x in kids[..n - 1] ==> x in kids[..n];
      if kids[n - 1] in h && !Dropped(h[kids[n - 1]].bounds, pb) then k + [kids[n - 1]] else k
  }

  /** `truncateSubdivisions(claim, saveIfModified)`. */
  function Truncate(s: Store, r: Ref, save: bool): (s': Store)
    requires Coherent(s) && r in s.heap
    ensures Coherent(s') && (Valid(s) ==> Valid(s'))
    ensures s'.heap.Keys == s.heap.Keys && s'.claims == s.claims && s'.nextRef == s.nextRef
    ensures forall q :: q in s.heap ==> s'.heap[q].parent == s.heap[q].parent
    ensures Passed(s.heap, s'.heap, r, s.heap[r].children, s.heap[r].bounds, save, |s.heap[r].children|)
  {
    TruncatedAll(s, r, s.heap[r].children, s.heap[r].bounds, save, |s.heap[r].children|)
  }

  /** After `truncateSubdivisions` the claim keeps, in their order, exactly those of its
      subdivisions whose boxes meet its own, and each of those now lies inside the
      claim's box, cut down to the common part. */
  lemma TruncateKeeps(s: Store, r: Ref, save: bool)
    requires Coherent(s) && r in s.heap
    requires forall k :: k in s.heap[r].children ==> s.heap[k].bounds.Normalised()
    ensures var s' := Truncate(s, r, save);
      var pb := s.heap[r].bounds;
      s'.heap[r] == s.heap[r].(children := s'.heap[r].children)
      && (forall k :: k in s'.heap[r].children <==> k in s.heap[r].children && s.heap[k].bounds.Intersects(pb))
      && (forall k :: k in s'.heap[r].children ==>
            pb.ContainsBox(s'.heap[k].bounds) && s'.heap[k].bounds == s.heap[k].bounds.Intersection(pb).value)
  {
    KeptHeap(s.heap, Truncate(s, r, save).heap, r, s.heap[r].children, s.heap[r].bounds, save);
  }

  /** The same on heaps, from the closed form of the whole loop. */
  lemma KeptHeap(h0: Heap, h: Heap, r: Ref, kids: seq<Ref>, pb: Box, save: bool)
    requires Passed(h0, h, r, kids, pb, save, |kids|)
    requires forall k :: k in kids ==> h0[k].bounds.Normalised()
    ensures h[r] == h0[r].(children := h[r].children)
    ensures forall k :: k in h[r].children <==> k in kids && h0[k].bounds.Intersects(pb)
    ensures forall k :: k in h[r].children ==>
              pb.ContainsBox(h[k].bounds) && h[k].bounds == h0[k].bounds.Intersection(pb).value
  {
    var n := |kids|;
    assert kids[n..] == [];
    assert h[r].children == Kept(h0, kids, pb, n);
    forall k | k in kids
      ensures !Dropped(h0[k].bounds, pb) <==> h0[k].bounds.Intersects(pb)
    {
      TruncatedIsIntersection(h0[k].bounds, pb);
    }
    forall k | k in h[r].children
      ensures pb.ContainsBox(h[k].bounds) && h[k].bounds == h0[k].bounds.Intersection(pb).value
    {
      assert k in kids[..n];
      var m :| 0 <= m < n && kids[m] == k;
      assert TruncatedFrom(h0[k], h[k], pb, save);
      TruncatedIsIntersection(h0[k].bounds, pb);
    }
  }

  /** Whatever the boxes, the subdivisions the loop keeps lie inside the parent box. */
  lemma KeptInside(h0: Heap, h: Heap, r: Ref, kids: seq<Ref>, pb: Box, save: bool)
    requires Passed(h0, h, r, kids, pb, save, |kids|)
    ensures h[r] == h0[r].(children := h[r].children)
    ensures forall k :: k in h[r].children ==> k in kids && pb.ContainsBox(h[k].bounds)
  {
    var n := |kids|;
    assert kids[n..] == [];
    assert h[r].children == Kept(h0, kids, pb, n);
    forall k | k in h[r].children
      ensures k in kids && pb.ContainsBox(h[k].bounds)
    {
      assert k in kids[..n];
      var m :| 0 <= m < n && kids[m] == k;
      assert TruncatedFrom(h0[k], h[k], pb, save);
    }
  }

  /** Every subdivision of the claim, kept or dropped, has had its box cut to the claim's
      and got an id only when it was cut and saving was asked for; no object other than
      the claim and its subdivisions changes. */
  lemma TruncateValues(s: Store, r: Ref, save: bool)
    requires Coherent(s) && r in s.heap
    ensures var s' := Truncate(s, r, save);
      var kids := s.heap[r].children;
      (forall k :: k in kids ==> TruncatedFrom(s.heap[k], s'.heap[k], s.heap[r].bounds, save))
      && (forall q :: q in s.heap && q != r && q !in kids ==> s'.heap[q] == s.heap[q])
  {
    var s' := Truncate(s, r, save);
    var kids := s.heap[r].children;
    forall k | k in kids
      ensures TruncatedFrom(s.heap[k], s'.heap[k], s.heap[r].bounds, save)
    {
      var m :| 0 <= m < |kids| && kids[m] == k;
    }
  }

  // ----- what the loop does -----

  /** A child after its pass: its box truncated, its id new only when it was saved. */
  predicate TruncatedFrom(c0: Claim, c: Claim, pb: Box, save: bool)
  {
    c == c0.(bounds := Truncated(c0.bounds, pb), id := c.id)
    && (c.id != c0.id ==> Saves(c0.bounds, pb, save))
    && (Saves(c0.bounds, pb, save) ==> c.id.Some?)
  }

  /** The heap after the first n passes over the children `kids` of r, against h0 as it
      was before the loop: r has lost the dropped ones among the first n, those n are
      truncated, the rest of the children and every other object are untouched. */
  predicate Passed(h0: Heap, h: Heap, r: Ref, kids: seq<Ref>, pb: Box, save: bool, n: nat)
  {
    r in h0 && n <= |kids| && (forall m :: 0 <= m < |kids| ==> kids[m] in h0)
    && h.Keys == h0.Keys
    && h[r] == h0[r].(children := Kept(h0, kids, pb, n) + kids[n..])
    && (forall m :: n <= m < |kids| ==> h[kids[m]] == h0[kids[m]])
    && (forall m :: 0 <= m < n ==> TruncatedFrom(h0[kids[m]], h[kids[m]], pb, save))
    && (forall q :: q in h0 && q != r && q !in kids ==> h[q] == h0[q])
  }

  /** The facts about r's children that every pass relies on. */
  lemma ChildrenFacts(h: Heap, r: Ref)
    requires WellFormed(h) && r in h
    ensures DistinctRefs(h[r].children) && r !in h[r].children
    ensures forall m :: 0 <= m < |h[r].children| ==> h[r].children[m] in h && h[h[r].children[m]].parent == Some(r)
  {
    NotOwnChild(h, r);
  }

  /** Pass n - 1, on r's children list. */
  lemma PassChildren(h0: Heap, kids: seq<Ref>, pb: Box, n: nat, c: Ref)
    requires 0 < n <= |kids| && DistinctRefs(kids) && c == kids[n - 1]
    requires forall m :: 0 <= m < |kids| ==> kids[m] in h0
    ensures (if Dropped(h0[c].bounds, pb) then RemoveFirst(Kept(h0, kids, pb, n - 1) + kids[n - 1..], c)
             else Kept(h0, kids, pb, n - 1) + kids[n - 1..])
            == Kept(h0, kids, pb, n) + kids[n..]
  {
    var k := Kept(h0, kids, pb, n - 1);
    assert kids[n - 1..] == [c] + kids[n..];
    if Dropped(h0[c].bounds, pb) {
      assert c !in k;
      RemoveFirstPast(k, kids[n - 1..], c);
    } else {
      assert k + kids[n - 1..] == (k + [c]) + kids[n..];
    }
  }

  /** Pass n - 1 takes the shape after n - 1 passes to the shape after n. */
  lemma PassStep(h0: Heap, s: Store, r: Ref, kids: seq<Ref>, pb: Box, save: bool, n: nat)
    requires WellFormed(h0) && r in h0 && kids == h0[r].children && 0 < n <= |kids|
    requires Coherent(s) && Passed(h0, s.heap, r, kids, pb, save, n - 1)
    ensures kids[n - 1] in s.heap && s.heap[kids[n - 1]].parent.Some?
    ensures Passed(h0, TruncateChild(s, kids[n - 1], pb, save).heap, r, kids, pb, save, n)
  {
    ChildrenFacts(h0, r);
    var c := kids[n - 1];
    assert s.heap[c] == h0[c];
    TruncateChildOwn(s, c, pb, save);
    TruncateChildOthers(s, c, pb, save);
    assert OnePass(s.heap, TruncateChild(s, c, pb, save).heap, r, c, pb, save);
    PassHeap(h0, s.heap, TruncateChild(s, c, pb, save).heap, r, kids, pb, save, n);
  }

  /** What one pass over child c of r does to a heap, as the two lemmas above state it. */
  predicate OnePass(h: Heap, h': Heap, r: Ref, c: Ref, pb: Box, save: bool)
    requires r in h && c in h
  {
    h'.Keys == h.Keys
    && h'[c] == h[c].(bounds := Truncated(h[c].bounds, pb), id := h'[c].id)
    && (h'[c].id != h[c].id ==> Saves(h[c].bounds, pb, save))
    && (Saves(h[c].bounds, pb, save) ==> h'[c].id.Some?)
    && h'[r] == h[r].(children := h'[r].children)
    && h'[r].children == (if Dropped(h[c].bounds, pb) then RemoveFirst(h[r].children, c) else h[r].children)
    && forall q :: q in h && q != c && q != r ==> h'[q] == h[q]
  }

  /** The same step on heaps alone. */
  lemma PassHeap(h0: Heap, h: Heap, h': Heap, r: Ref, kids: seq<Ref>, pb: Box, save: bool, n: nat)
    requires WellFormed(h0) && r in h0 && kids == h0[r].children && 0 < n <= |kids|
    requires Passed(h0, h, r, kids, pb, save, n - 1)
    requires OnePass(h, h', r, kids[n - 1], pb, save)
    ensures Passed(h0, h', r, kids, pb, save, n)
  {
    ChildrenFacts(h0, r);
    PassHeapParent(h0, h, h', r, kids, pb, save, n);
    PassHeapKids(h0, h, h', r, kids, pb, save, n);
  }

  lemma PassHeapParent(h0: Heap, h: Heap, h': Heap, r: Ref, kids: seq<Ref>, pb: Box, save: bool, n: nat)
    requires r in h0 && kids == h0[r].children && 0 < n <= |kids|
    requires DistinctRefs(kids) && r !in kids
    requires Passed(h0, h, r, kids, pb, save, n - 1)
    requires OnePass(h, h', r, kids[n - 1], pb, save)
    ensures h'[r] == h0[r].(children := Kept(h0, kids, pb, n) + kids[n..])
  {
    var c := kids[n - 1];
    assert h[c] == h0[c];
    PassChildren(h0, kids, pb, n, c);
  }

  lemma PassHeapKids(h0: Heap, h: Heap, h': Heap, r: Ref, kids: seq<Ref>, pb: Box, save: bool, n: nat)
    requires r in h0 && kids == h0[r].children && 0 < n <= |kids|
    requires DistinctRefs(kids) && r !in kids
    requires Passed(h0, h, r, kids, pb, save, n - 1)
    requires OnePass(h, h', r, kids[n - 1], pb, save)
    ensures forall m :: n <= m < |kids| ==> h'[kids[m]] == h0[kids[m]]
    ensures forall m :: 0 <= m < n ==> TruncatedFrom(h0[kids[m]], h'[kids[m]], pb, save)
  {
    var c := kids[n - 1];
    assert h[c] == h0[c];
    forall m | 0 <= m < |kids| && m != n - 1
      ensures h'[kids[m]] == h[kids[m]]
    {
      assert kids[m] != c;
    }
  }

  // ----- resizeClaim -----

  /** The dry-run request `resizeClaim` makes: the new corners with the claim's world,
      owner, parent and id, the id keeping the claim itself out of the overlap test. */
  function ResizeRequest(c: Claim, x1: int32, x2: int32, y1: int32, y2: int32, z1: int32, z2: int32): (q: Request)
    ensures q.world == c.world && q.ownerID == c.ownerID && q.parent == c.parent && q.id == c.id
    ensures q.x1 == x1 && q.x2 == x2 && q.y1 == y1 && q.y2 == y2 && q.z1 == z1 && q.z2 == z2
  {
    Request(c.world, x1, x2, y1, y2, z1, z2, c.ownerID, c.parent, c.id)
  }

  /** The copied box with, when it is 3D, its top capped at the world's maximum height
      (`setY`, which orders its two values). */
  function CappedBox(b: Box, world: World): (b': Box)
    ensures b' == b.(minY := b'.minY, maxY := b'.maxY)
    ensures b.maxY == TWO_D_HEIGHT ==> b' == b
    ensures b.maxY != TWO_D_HEIGHT ==> b'.minY == Min(b.minY, Min(world.maxHeight, b.maxY))
    ensures b.maxY != TWO_D_HEIGHT ==> b'.maxY == Max(b.minY, Min(world.maxHeight, b.maxY))
  {
    if b.maxY != TWO_D_HEIGHT then b.WithY(b.minY, Min(world.maxHeight, b.maxY)) else b
  }

  /** The claim moved to its new box: taken out of the index under its old chunks, given
      the box, and deepened to the box's floor. */
  function Moved(s: Store, r: Ref, nb: Box, cfg: Config): (s': Store)
    requires Valid(s) && r in s.heap
    ensures Valid(s') && s'.heap.Keys == s.heap.Keys
  {
    var s1 := s.(index := RemoveFromIndex(s.index, s.heap, r));
    RemoveFromIndexValid(s, r);
    var s2 := Put(s1, r, s1.heap[r].(bounds := nb));
    ReshapedValid(s1, s2);
    var s3 := Deepened(s2, r, nb.minY, cfg);
    ReshapedValid(s2, s3);
    s3
  }

  /** The rest of a successful resize: the subdivisions are truncated to the claim's box
      and the claim is indexed under its new chunks. */
  function Settled(s: Store, r: Ref): (s': Store)
    requires Valid(s) && r in s.heap
    ensures Valid(s') && s'.heap.Keys == s.heap.Keys
  {
    ValidCoherent(s);
    var s1 := Truncate(s, r, true);
    AddToIndexValid(s1, r);
    s1.(index := AddToIndex(s1.index, s1.heap, r))
  }

  /** `resizeClaim(claim, x1, x2, y1, y2, z1, z2, player)`: a dry-run creation decides;
      when it fails its result is returned as it is, and otherwise the claim takes the
      dry run's box, capped, is deepened, has its subdivisions truncated, is indexed
      again and is reported. */
  function Resized(s: Store, r: Ref, x1: int32, x2: int32, y1: int32, y2: int32, z1: int32, z2: int32,
                   border: Location -> bool, cfg: Config): (o: Created)
    requires Valid(s) && r in s.heap
    ensures Valid(o.store) && forall q :: q in s.heap ==> q in o.store.heap
  {
    var q := ResizeRequest(s.heap[r], x1, x2, y1, y2, z1, z2);
    var d := Create(s, q, true, border, false, cfg);
    CreateValid(s, q, true, border, false, cfg);
    CreateDryRun(s, q, border, false, cfg);
    if !d.result.succeeded then d
    else
      var nb := CappedBox(d.store.heap[d.result.claim.value].bounds, s.heap[r].world);
      Created(CreateResult(true, Some(r)), Settled(Moved(d.store, r, nb, cfg), r))
  }

  /** For a top-level claim, the move gives it the new box with the floor sanitised and
      the top raised to that floor when below it; nothing else of the claim but its id
      changes, which it gets when it had none and keeps otherwise, and the claim list
      stays. */
  lemma MovedTopLevel(s: Store, r: Ref, nb: Box, cfg: Config)
    requires Valid(s) && r in s.heap && s.heap[r].parent.None?
    ensures var s' := Moved(s, r, nb, cfg);
      var b := s'.heap[r].bounds;
      var floor := Sanitize(nb.minY, s.heap[r].world, cfg);
      b == nb.(minY := floor, maxY := Max(floor, nb.maxY))
      && s'.heap[r] == s.heap[r].(bounds := b, id := s'.heap[r].id)
      && s'.heap[r].id.Some? && (!Unassigned(s.heap[r]) ==> s'.heap[r].id == s.heap[r].id)
      && s'.claims == s.claims
  {
    var s2 := s.(index := RemoveFromIndex(s.index, s.heap, r), heap := s.heap[r := s.heap[r].(bounds := nb)]);
    MovedSteps(s, r, nb, cfg);
    DeepenedTopLevelOwn(s2, r, nb.minY, cfg);
  }

  lemma MovedSteps(s: Store, r: Ref, nb: Box, cfg: Config)
    requires Valid(s) && r in s.heap
    ensures var s2 := s.(index := RemoveFromIndex(s.index, s.heap, r), heap := s.heap[r := s.heap[r].(bounds := nb)]);
      WellFormed(s2.heap) && Moved(s, r, nb, cfg) == Deepened(s2, r, nb.minY, cfg)
  {
    var s1 := s.(index := RemoveFromIndex(s.index, s.heap, r));
    var s2 := Put(s1, r, s1.heap[r].(bounds := nb));
    SameLinksWellFormed(s.heap, s2.heap);
  }

  /** For a top-level claim, settling keeps of its subdivisions only some, each inside
      its box, changes nothing else of it, keeps the claim list, and leaves the claim in
      the bucket of each chunk its box touches. */
  lemma SettledTopLevel(s: Store, r: Ref)
    requires Valid(s) && r in s.heap && s.heap[r].parent.None?
    ensures var s' := Settled(s, r);
      var b := s.heap[r].bounds;
      s'.heap[r] == s.heap[r].(children := s'.heap[r].children)
      && (forall k :: k in s'.heap[r].children ==> k in s.heap[r].children && b.ContainsBox(s'.heap[k].bounds))
      && s'.claims == s.claims
      && forall k :: k in ChunkHashes(b) ==> r in Bucket(s'.index, k)
  {
    ValidCoherent(s);
    var s1 := Truncate(s, r, true);
    KeptInside(s.heap, s1.heap, r, s.heap[r].children, s.heap[r].bounds, true);
    AddToIndexEffect(s1.index, s1.heap, r);
  }

  /** `resizeClaim` succeeds exactly when its dry run does, and a failed resize returns
      the dry run's result and changes no list, index, counter or existing object. */
  lemma ResizeFails(s: Store, r: Ref, x1: int32, x2: int32, y1: int32, y2: int32, z1: int32, z2: int32,
                    border: Location -> bool, cfg: Config)
    requires Valid(s) && r in s.heap
    ensures var o := Resized(s, r, x1, x2, y1, y2, z1, z2, border, cfg);
      var d := Create(s, ResizeRequest(s.heap[r], x1, x2, y1, y2, z1, z2), true, border, false, cfg);
      o.result.succeeded == d.result.succeeded
      && (o.result.succeeded ==> o.result.claim == Some(r))
      && (!o.result.succeeded ==>
            o == d && o.store.claims == s.claims && o.store.index == s.index && o.store.nextClaimID == s.nextClaimID
            && forall q :: q in s.heap ==> o.store.heap[q] == s.heap[q])
  {
    CreateDryRun(s, ResizeRequest(s.heap[r], x1, x2, y1, y2, z1, z2), border, false, cfg);
  }

  /** A successful resize of a top-level claim: the claim is reported, its box spans the
      requested X and Z ranges with the height the dry run gave, capped when 3D, with
      the floor sanitised and the top raised to it when below; only its box, id and
      subdivisions change, and it has an id, the one it had when it had one; each
      remaining subdivision is one it had and lies inside the new box; the claim list
      stays and the claim is in the bucket of each chunk of its new box. */
  lemma ResizedTopLevel(s: Store, r: Ref, x1: int32, x2: int32, y1: int32, y2: int32, z1: int32, z2: int32,
                        border: Location -> bool, cfg: Config)
    requires Valid(s) && r in s.heap && s.heap[r].parent.None?
    requires Resized(s, r, x1, x2, y1, y2, z1, z2, border, cfg).result.succeeded
    ensures var o := Resized(s, r, x1, x2, y1, y2, z1, z2, border, cfg);
      var q := ResizeRequest(s.heap[r], x1, x2, y1, y2, z1, z2);
      var nb := CappedBox(NewClaim(q, RequestedCorners(q, cfg)).bounds, s.heap[r].world);
      var c' := o.store.heap[r];
      o.result == CreateResult(true, Some(r))
      && c'.bounds.minX == Min(x1, x2) && c'.bounds.maxX == Max(x1, x2)
      && c'.bounds.minZ == Min(z1, z2) && c'.bounds.maxZ == Max(z1, z2)
      && c'.bounds == nb.(minY := Sanitize(nb.minY, s.heap[r].world, cfg), maxY := Max(Sanitize(nb.minY, s.heap[r].world, cfg), nb.maxY))
      && c' == s.heap[r].(bounds := c'.bounds, id := c'.id, children := c'.children)
      && c'.id.Some? && (!Unassigned(s.heap[r]) ==> c'.id == s.heap[r].id)
      && (forall k :: k in c'.children ==> k in s.heap[r].children && c'.bounds.ContainsBox(o.store.heap[k].bounds))
      && o.store.claims == s.claims
      && forall k :: k in ChunkHashes(c'.bounds) ==> r in Bucket(o.store.index, k)
  {
    var q := ResizeRequest(s.heap[r], x1, x2, y1, y2, z1, z2);
    var d := Create(s, q, true, border, false, cfg);
    CreateValid(s, q, true, border, false, cfg);
    CreateDryRun(s, q, border, false, cfg);
    NewBoxGeometry(q, cfg);
    var nb := CappedBox(NewClaim(q, RequestedCorners(q, cfg)).bounds, s.heap[r].world);
    assert d.store.heap[d.result.claim.value].bounds == NewClaim(q, RequestedCorners(q, cfg)).bounds;
    var s3 := Moved(d.store, r, nb, cfg);
    MovedTopLevel(d.store, r, nb, cfg);
    SettledTopLevel(s3, r);
    assert Resized(s, r, x1, x2, y1, y2, z1, z2, border, cfg) == Created(CreateResult(true, Some(r)), Settled(s3, r));
  }

  /** A subdivision has no subdivisions to truncate and is not indexed: settling leaves
      the store as it is. */
  lemma SettledSubdivision(s: Store, r: Ref)
    requires Valid(s) && r in s.heap && s.heap[r].parent.Some?
    ensures Settled(s, r) == s
  {
    ValidCoherent(s);
    assert s.heap[r].children == [];
    assert Truncate(s, r, true) == s;
    AddToIndexEffect(s.index, s.heap, r);
  }

  /** For a subdivision of a parent in its own world, the move gives it the new X and Z
      extent and a floor at or above the sanitised one and at or above its parent's. */
  lemma MovedSubdivision(s: Store, r: Ref, nb: Box, cfg: Config)
    requires Valid(s) && r in s.heap && s.heap[r].parent.Some?
    requires s.heap[s.heap[r].parent.value].world == s.heap[r].world
    ensures var s' := Moved(s, r, nb, cfg);
      var b := s'.heap[r].bounds;
      var p := s.heap[r].parent.value;
      b.minX == nb.minX && b.maxX == nb.maxX && b.minZ == nb.minZ && b.maxZ == nb.maxZ
      && b.minY >= Sanitize(nb.minY, s.heap[r].world, cfg) && b.maxY >= b.minY
      && b.minY >= s'.heap[p].bounds.minY
      && s'.claims == s.claims
  {
    var p := s.heap[r].parent.value;
    var s2 := s.(index := RemoveFromIndex(s.index, s.heap, r), heap := s.heap[r := s.heap[r].(bounds := nb)]);
    assert s2.heap[r].bounds == nb && s2.heap[r].parent == Some(p) && s2.heap[p].world == s2.heap[r].world;
    MovedSteps(s, r, nb, cfg);
    DeepenedSubdivision(s2, r, nb.minY, cfg);
    DeepenedSides(s2, r, nb.minY, cfg);
  }

  /** A successful resize of a subdivision whose parent is in its own world: the
      subdivision is reported, its box spans the requested X and Z ranges, and its floor
      is at or above the sanitised floor of the dry run's box and at or above its
      parent's; the claim list stays. */
  lemma ResizedSubdivision(s: Store, r: Ref, x1: int32, x2: int32, y1: int32, y2: int32, z1: int32, z2: int32,
                           border: Location -> bool, cfg: Config)
    requires Valid(s) && r in s.heap && s.heap[r].parent.Some?
    requires s.heap[s.heap[r].parent.value].world == s.heap[r].world
    requires Resized(s, r, x1, x2, y1, y2, z1, z2, border, cfg).result.succeeded
    ensures var o := Resized(s, r, x1, x2, y1, y2, z1, z2, border, cfg);
      var q := ResizeRequest(s.heap[r], x1, x2, y1, y2, z1, z2);
      var nb := CappedBox(NewClaim(q, RequestedCorners(q, cfg)).bounds, s.heap[r].world);
      var b := o.store.heap[r].bounds;
      o.result == CreateResult(true, Some(r))
      && b.minX == Min(x1, x2) && b.maxX == Max(x1, x2) && b.minZ == Min(z1, z2) && b.maxZ == Max(z1, z2)
      && b.minY >= Sanitize(nb.minY, s.heap[r].world, cfg) && b.maxY >= b.minY
      && b.minY >= o.store.heap[s.heap[r].parent.value].bounds.minY
      && o.store.claims == s.claims
  {
    var q := ResizeRequest(s.heap[r], x1, x2, y1, y2, z1, z2);
    var d := Create(s, q, true, border, false, cfg);
    CreateValid(s, q, true, border, false, cfg);
    CreateDryRun(s, q, border, false, cfg);
    NewBoxGeometry(q, cfg);
    var nb := CappedBox(NewClaim(q, RequestedCorners(q, cfg)).bounds, s.heap[r].world);
    assert d.store.heap[d.result.claim.value].bounds == NewClaim(q, RequestedCorners(q, cfg)).bounds;
    var s3 := Moved(d.store, r, nb, cfg);
    MovedSubdivision(d.store, r, nb, cfg);
    SettledSubdivision(s3, r);
    assert Resized(s, r, x1, x2, y1, y2, z1, z2, border, cfg) == Created(CreateResult(true, Some(r)), s3);
  }

  // ----- the index across a resize -----

  /** A pass over a subdivision leaves the index alone when the ids are apart: dropping
      the subdivision removes entries with its id, and no entry has it. */
  lemma TruncateChildApart(s: Store, c: Ref, pb: Box, save: bool)
    requires Coherent(s) && c in s.heap && s.heap[c].parent.Some? && IndexApart(s) && NoEmptyBucket(s.index)
    ensures var s' := TruncateChild(s, c, pb, save);
      s'.index == s.index && IndexApart(s')
  {
    var s1 := Clipped(s, c, pb);
    PutApart(s, c, s.heap[c].(bounds := Truncated(s.heap[c].bounds, pb)));
    if Dropped(s.heap[c].bounds, pb) {
      var h := s1.heap;
      forall k, j | k in ChunkHashes(h[c].bounds) && 0 <= j < |Bucket(s1.index, k)|
        ensures h[Bucket(s1.index, k)[j]].id != h[c].id
      {
        assert k in s1.index && Bucket(s1.index, k)[j] == s1.index[k][j];
      }
      RemoveHashesAbsent(s1.index, h, ChunkHashes(h[c].bounds), h[c].id);
    } else if Clamps(s.heap[c].bounds, pb) && save {
      AssignIdApart(s1, c);
    }
  }

  /** A pass renumbers no claim that had an id. */
  lemma TruncateChildKeeps(s: Store, c: Ref, pb: Box, save: bool)
    requires Coherent(s) && c in s.heap && s.heap[c].parent.Some?
    ensures KeepsIds(s.heap, TruncateChild(s, c, pb, save).heap)
  {
    var s1 := Clipped(s, c, pb);
    TruncateChildSteps(s, c, pb, save);
    if !Dropped(s.heap[c].bounds, pb) && Clamps(s.heap[c].bounds, pb) && save {
      AssignIdKeeps(s1, c);
    }
    KeepsIdsTransitive(s.heap, s1.heap, TruncateChild(s, c, pb, save).heap);
  }

  /** A successful dry run is the store with one more object, the requested claim. */
  lemma DryRunStore(s: Store, q: Request, border: Location -> bool, cfg: Config)
    requires Valid(s) && ParentOk(s, q.parent) && Create(s, q, true, border, false, cfg).result.succeeded
    ensures Create(s, q, true, border, false, cfg).store == Allocated(s, NewClaim(q, RequestedCorners(q, cfg)))
  {
    var k := RequestedCorners(q, cfg);
    var floor := ExtensionFloor(q, k, cfg);
    AdmitDryRun(s, NewClaim(q, k), floor, Sub32(floor, cfg.extendIntoGround), false, cfg);
  }

  /** A new object with an id already in use by the claim being resized keeps the ids
      apart: the id is below the counter, and a subdivision's is in no bucket. */
  lemma AllocatedApart(s: Store, r: Ref, c: Claim)
    requires Valid(s) && r in s.heap && IndexApart(s) && c.id == s.heap[r].id && c.parent == s.heap[r].parent
    ensures IndexApart(Allocated(s, c))
  {
    var s' := Allocated(s, c);
    assert s.nextRef !in s.heap;
    forall k, j, q | k in s'.index && 0 <= j < |s'.index[k]| && q in s'.heap && s'.heap[q].parent.Some?
      ensures s'.heap[s'.index[k][j]].id != s'.heap[q].id
    {
      assert s.index[k][j] in s.heap;
      if q == s.nextRef {
        assert s.heap[r].parent.Some? && s'.heap[q].id == s.heap[r].id;
      }
    }
  }

  /** The move takes the claim out of the buckets of its old chunks and changes nothing
      else of the index; with the ids apart, they stay apart and no id is renumbered. */
  lemma MovedIndex(s: Store, r: Ref, nb: Box, cfg: Config)
    requires Valid(s) && r in s.heap
    ensures Moved(s, r, nb, cfg).index == RemoveFromIndex(s.index, s.heap, r)
    ensures IndexApart(s) ==> IndexApart(Moved(s, r, nb, cfg))
  {
    var s1 := s.(index := RemoveFromIndex(s.index, s.heap, r));
    var s2 := s.(index := RemoveFromIndex(s.index, s.heap, r), heap := s.heap[r := s.heap[r].(bounds := nb)]);
    MovedSteps(s, r, nb, cfg);
    if IndexApart(s) {
      RemoveFromIndexApart(s, r);
      PutApart(s1, r, s1.heap[r].(bounds := nb));
      assert Put(s1, r, s1.heap[r].(bounds := nb)) == s2;
      DeepenedApart(s2, r, nb.minY, cfg);
    }
  }

  /** With the ids apart, settling a claim leaves the index as it was but for the claim,
      indexed under the chunks of its box. */
  lemma SettledIndex(s: Store, r: Ref)
    requires Valid(s) && r in s.heap && IndexApart(s)
    ensures Settled(s, r).index == AddToIndex(s.index, s.heap, r)
  {
    ValidCoherent(s);
    var kids := s.heap[r].children;
    var s1 := TruncatedAll(s, r, kids, s.heap[r].bounds, true, |kids|);
    assert s1.index == s.index;
    KeptInside(s.heap, s1.heap, r, kids, s.heap[r].bounds, true);
    AddToIndexSameClaim(s.index, s.heap, s1.heap, r);
  }

  /** Indexing a claim depends on nothing of the heap but the claim's parent and box. */
  lemma AddToIndexSameClaim(index: Index, h: Heap, h': Heap, r: Ref)
    requires r in h && r in h' && h'[r].parent == h[r].parent && h'[r].bounds == h[r].bounds
    ensures AddToIndex(index, h', r) == AddToIndex(index, h, r)
  {
  }

  /** A top-level claim's entry taken out of the buckets of the chunks of its box in h
      and put at the end of those of the chunks of box b; every other entry where it was. */
  ghost predicate Reindexed(index: Index, h: Heap, r: Ref, index': Index, b: Box)
    requires r in h && IndexIn(index, h)
  {
    forall k :: Bucket(index', k)
      == (if k in ChunkHashes(h[r].bounds) then RemoveFirstWithId(Bucket(index, k), h, h[r].id) else Bucket(index, k))
         + (if k in ChunkHashes(b) then [r] else [])
  }

  /** Removing a top-level claim from the index and adding it again reindexes it. */
  lemma RemoveAddReindexed(index: Index, h: Heap, h': Heap, r: Ref)
    requires r in h && IndexIn(index, h) && r in h' && h'[r].parent.None?
    ensures Reindexed(index, h, r, AddToIndex(RemoveFromIndex(index, h, r), h', r), h'[r].bounds)
  {
    RemoveFromIndexEffect(index, h, r);
    AddToIndexEffect(RemoveFromIndex(index, h, r), h', r);
  }

  /** Reindexing looks at the other entries of the index for their ids only. */
  lemma ReindexedSameIds(index: Index, h: Heap, x: Ref, c: Claim, r: Ref, index': Index, b: Box)
    requires r in h && IndexIn(index, h) && x !in h
    requires IndexIn(index, h[x := c]) && Reindexed(index, h[x := c], r, index', b)
    ensures Reindexed(index, h, r, index', b)
  {
    var h' := h[x := c];
    forall k | k in ChunkHashes(h[r].bounds)
      ensures RemoveFirstWithId(Bucket(index, k), h', h[r].id) == RemoveFirstWithId(Bucket(index, k), h, h[r].id)
    {
      assert forall j :: 0 <= j < |Bucket(index, k)| ==> Bucket(index, k)[j] == index[k][j];
      RemoveFirstWithIdSameIds(Bucket(index, k), h, h', h[r].id);
    }
  }

  /** For a top-level claim with the ids apart, moving and settling reindex it under its
      final box. */
  lemma MovedSettledIndex(s: Store, r: Ref, nb: Box, cfg: Config)
    requires Valid(s) && r in s.heap && s.heap[r].parent.None? && IndexApart(s)
    ensures var o := Settled(Moved(s, r, nb, cfg), r);
      r in o.heap && Reindexed(s.index, s.heap, r, o.index, o.heap[r].bounds)
  {
    var m := Moved(s, r, nb, cfg);
    MovedIndex(s, r, nb, cfg);
    MovedTopLevel(s, r, nb, cfg);
    SettledIndex(m, r);
    SettledTopLevel(m, r);
    RemoveAddReindexed(s.index, s.heap, m.heap, r);
  }

  /** A successful resize is the dry run, the move and the settling. */
  lemma ResizedSteps(s: Store, r: Ref, x1: int32, x2: int32, y1: int32, y2: int32, z1: int32, z2: int32,
                     border: Location -> bool, cfg: Config)
    requires Valid(s) && r in s.heap
    requires Resized(s, r, x1, x2, y1, y2, z1, z2, border, cfg).result.succeeded
    ensures var q := ResizeRequest(s.heap[r], x1, x2, y1, y2, z1, z2);
      var d := Allocated(s, NewClaim(q, RequestedCorners(q, cfg)));
      var nb := CappedBox(NewClaim(q, RequestedCorners(q, cfg)).bounds, s.heap[r].world);
      Valid(d) && r in d.heap && d.heap[r] == s.heap[r]
      && Resized(s, r, x1, x2, y1, y2, z1, z2, border, cfg) == Created(CreateResult(true, Some(r)), Settled(Moved(d, r, nb, cfg), r))
  {
    var q := ResizeRequest(s.heap[r], x1, x2, y1, y2, z1, z2);
    CreateValid(s, q, true, border, false, cfg);
    CreateDryRun(s, q, border, false, cfg);
    DryRunStore(s, q, border, cfg);
  }

  /** `resizeClaim` on a top-level claim, when the ids are apart: each bucket of the old
      box's chunks loses the first entry with the claim's id, each bucket of the new box's
      chunks gains the claim at its end, and no other entry moves. When the id was in each
      bucket at most once, the claim has left every old bucket outside the new box. */
  lemma ResizedIndex(s: Store, r: Ref, x1: int32, x2: int32, y1: int32, y2: int32, z1: int32, z2: int32,
                     border: Location -> bool, cfg: Config)
    requires Valid(s) && r in s.heap && s.heap[r].parent.None? && IndexApart(s)
    requires Resized(s, r, x1, x2, y1, y2, z1, z2, border, cfg).result.succeeded
    ensures var o := Resized(s, r, x1, x2, y1, y2, z1, z2, border, cfg).store;
      r in o.heap && Reindexed(s.index, s.heap, r, o.index, o.heap[r].bounds)
      && (IndexAtMostOnce(s.index, s.heap, s.heap[r].id) ==>
            forall k :: k in ChunkHashes(s.heap[r].bounds) && k !in ChunkHashes(o.heap[r].bounds) ==> r !in Bucket(o.index, k))
  {
    var q := ResizeRequest(s.heap[r], x1, x2, y1, y2, z1, z2);
    var c := NewClaim(q, RequestedCorners(q, cfg));
    var nb := CappedBox(c.bounds, s.heap[r].world);
    ResizedSteps(s, r, x1, x2, y1, y2, z1, z2, border, cfg);
    AllocatedReindexed(s, r, c, nb, cfg);
    var o := Settled(Moved(Allocated(s, c), r, nb, cfg), r);
    ReindexedLeaves(s.index, s.heap, r, o.index, o.heap[r].bounds);
  }

  /** The same, after the dry run has added its object to the heap. */
  lemma AllocatedReindexed(s: Store, r: Ref, c: Claim, nb: Box, cfg: Config)
    requires Valid(s) && r in s.heap && s.heap[r].parent.None? && IndexApart(s)
    requires c.id == s.heap[r].id && c.parent.None? && Valid(Allocated(s, c))
    ensures var o := Settled(Moved(Allocated(s, c), r, nb, cfg), r);
      r in o.heap && Reindexed(s.index, s.heap, r, o.index, o.heap[r].bounds)
  {
    var d := Allocated(s, c);
    assert s.nextRef !in s.heap;
    AllocatedApart(s, r, c);
    MovedSettledIndex(d, r, nb, cfg);
    var o := Settled(Moved(d, r, nb, cfg), r);
    ReindexedSameIds(s.index, s.heap, s.nextRef, c, r, o.index, o.heap[r].bounds);
  }

  /** A claim reindexed when its id was in each bucket at most once is in no bucket of its
      old chunks that its new box leaves. */
  lemma ReindexedLeaves(index: Index, h: Heap, r: Ref, index': Index, b: Box)
    requires r in h && IndexIn(index, h) && Reindexed(index, h, r, index', b)
    ensures IndexAtMostOnce(index, h, h[r].id) ==>
      forall k :: k in ChunkHashes(h[r].bounds) && k !in ChunkHashes(b) ==> r !in Bucket(index', k)
  {
    if IndexAtMostOnce(index, h, h[r].id) {
      forall k | k in ChunkHashes(h[r].bounds) && k !in ChunkHashes(b)
        ensures r !in Bucket(index', k)
      {
        if k in index {
          assert Bucket(index, k) == index[k];
          RemoveOnlyWithId(index[k], h, h[r].id);
        }
      }
    }
  }

  // ----- ids across a resize -----

  /** Changing a claim but not its id renumbers nothing. */
  lemma KeepsIdsPut(h: Heap, r: Ref, c: Claim)
    requires r in h && c.id == h[r].id
    ensures KeepsIds(h, h[r := c])
  {
  }

  /** The move renumbers no claim that had an id. */
  lemma MovedKeeps(s: Store, r: Ref, nb: Box, cfg: Config)
    requires Valid(s) && r in s.heap
    ensures KeepsIds(s.heap, Moved(s, r, nb, cfg).heap)
  {
    var s2 := s.(index := RemoveFromIndex(s.index, s.heap, r), heap := s.heap[r := s.heap[r].(bounds := nb)]);
    MovedSteps(s, r, nb, cfg);
    KeepsIdsPut(s.heap, r, s.heap[r].(bounds := nb));
    DeepenedKeeps(s2, r, nb.minY, cfg);
    KeepsIdsTransitive(s.heap, s2.heap, Moved(s, r, nb, cfg).heap);
  }

  /** The move leaves the claim with an id. */
  lemma MovedOwnId(s: Store, r: Ref, nb: Box, cfg: Config)
    requires Valid(s) && r in s.heap
    ensures Moved(s, r, nb, cfg).heap[r].id.Some?
  {
    var s2 := s.(index := RemoveFromIndex(s.index, s.heap, r), heap := s.heap[r := s.heap[r].(bounds := nb)]);
    MovedSteps(s, r, nb, cfg);
    if s.heap[r].parent.None? {
      DeepenedTopLevelOwn(s2, r, nb.minY, cfg);
    } else {
      var d := NewDepth(s2, r, nb.minY, cfg);
      DeepenedSubdivisionSteps(s2, r, nb.minY, cfg);
      var s1 := if ExtendsParent(s2, r, d) then Deepened(s2, s2.heap[r].parent.value, d, cfg) else s2;
      OwnStepEffect(s1, r, d);
    }
  }

  /** Settling renumbers no claim that had an id, and changes no id of the claim itself. */
  lemma SettledKeeps(s: Store, r: Ref)
    requires Valid(s) && r in s.heap
    ensures KeepsIds(s.heap, Settled(s, r).heap) && Settled(s, r).heap[r].id == s.heap[r].id
  {
    ValidCoherent(s);
    var kids := s.heap[r].children;
    var s1 := TruncatedAll(s, r, kids, s.heap[r].bounds, true, |kids|);
    KeptInside(s.heap, s1.heap, r, kids, s.heap[r].bounds, true);
  }

  /** Moving and settling renumber no claim that had an id and leave the claim with one. */
  lemma MovedSettledIds(s: Store, r: Ref, nb: Box, cfg: Config)
    requires Valid(s) && r in s.heap
    ensures var o := Settled(Moved(s, r, nb, cfg), r);
      KeepsIds(s.heap, o.heap) && r in o.heap && o.heap[r].id.Some?
  {
    var m := Moved(s, r, nb, cfg);
    MovedKeeps(s, r, nb, cfg);
    MovedOwnId(s, r, nb, cfg);
    SettledKeeps(m, r);
    KeepsIdsTransitive(s.heap, m.heap, Settled(m, r).heap);
  }

  /** A successful `resizeClaim` renumbers no claim that had an id, and the resized claim
      has one. */
  lemma ResizedIds(s: Store, r: Ref, x1: int32, x2: int32, y1: int32, y2: int32, z1: int32, z2: int32,
                   border: Location -> bool, cfg: Config)
    requires Valid(s) && r in s.heap
    requires Resized(s, r, x1, x2, y1, y2, z1, z2, border, cfg).result.succeeded
    ensures var o := Resized(s, r, x1, x2, y1, y2, z1, z2, border, cfg).store;
      KeepsIds(s.heap, o.heap) && r in o.heap && o.heap[r].id.Some?
  {
    var q := ResizeRequest(s.heap[r], x1, x2, y1, y2, z1, z2);
    var c := NewClaim(q, RequestedCorners(q, cfg));
    var d := Allocated(s, c);
    ResizedSteps(s, r, x1, x2, y1, y2, z1, z2, border, cfg);
    AllocatedKeeps(s, c);
    MovedSettledIds(d, r, CappedBox(c.bounds, s.heap[r].world), cfg);
    KeepsIdsTransitive(s.heap, d.heap, Resized(s, r, x1, x2, y1, y2, z1, z2, border, cfg).store.heap);
  }

  /** A new object renumbers nothing. */
  lemma AllocatedKeeps(s: Store, c: Claim)
    requires Valid(s)
    ensures KeepsIds(s.heap, Allocated(s, c).heap)
  {
    assert s.nextRef !in s.heap;
  }

  /** A successful `resizeClaim` of a subdivision leaves the chunk index as it was when
      the ids are apart: no bucket holds the subdivision's id, so removing it takes nothing
      out, and subdivisions are not indexed. */
  lemma ResizedSubdivisionIndex(s: Store, r: Ref, x1: int32, x2: int32, y1: int32, y2: int32, z1: int32, z2: int32,
                                border: Location -> bool, cfg: Config)
    requires Valid(s) && r in s.heap && s.heap[r].parent.Some? && IndexApart(s)
    requires Resized(s, r, x1, x2, y1, y2, z1, z2, border, cfg).result.succeeded
    ensures Resized(s, r, x1, x2, y1, y2, z1, z2, border, cfg).store.index == s.index
  {
    var q := ResizeRequest(s.heap[r], x1, x2, y1, y2, z1, z2);
    var c := NewClaim(q, RequestedCorners(q, cfg));
    var nb := CappedBox(c.bounds, s.heap[r].world);
    var d := Allocated(s, c);
    ResizedSteps(s, r, x1, x2, y1, y2, z1, z2, border, cfg);
    AllocatedApart(s, r, c);
    SubdivisionUnindexed(d, r);
    MovedIndex(d, r, nb, cfg);
    SettledSubdivision(Moved(d, r, nb, cfg), r);
  }

  /** With the ids apart, taking a subdivision out of the index changes nothing. */
  lemma SubdivisionUnindexed(s: Store, r: Ref)
    requires Valid(s) && r in s.heap && s.heap[r].parent.Some? && IndexApart(s)
    ensures RemoveFromIndex(s.index, s.heap, r) == s.index
  {
    var h := s.heap;
    forall k, j | k in ChunkHashes(h[r].bounds) && 0 <= j < |Bucket(s.index, k)|
      ensures h[Bucket(s.index, k)[j]].id != h[r].id
    {
      assert k in s.index && Bucket(s.index, k)[j] == s.index[k][j];
    }
    RemoveHashesAbsent(s.index, h, ChunkHashes(h[r].bounds), h[r].id);
  }

  // ----- resizing a claim to its own box -----

  /** Resizing a top-level claim to the corners it already has gives it back its box and
      changes nothing of it but the id it gets when it had none and the subdivisions it
      may drop; with the ids apart, the id once per bucket and the claim in each bucket of
      its chunks, every bucket holds the same claims as before. The box must be one
      `resizeClaim` leaves alone: its floor already sanitised and its top, unless 2D, at
      most the world's height. */
  lemma ResizedToOwnBox(s: Store, r: Ref, border: Location -> bool, cfg: Config)
    requires Valid(s) && r in s.heap && s.heap[r].parent.None? && s.heap[r].bounds.Normalised()
    requires var b := s.heap[r].bounds;
      Sanitize(b.minY, s.heap[r].world, cfg) == b.minY
      && (b.maxY == TWO_D_HEIGHT || b.maxY <= s.heap[r].world.maxHeight)
    requires var b := s.heap[r].bounds;
      Resized(s, r, b.minX, b.maxX, b.minY, b.maxY, b.minZ, b.maxZ, border, cfg).result.succeeded
    ensures var b := s.heap[r].bounds;
      var o := Resized(s, r, b.minX, b.maxX, b.minY, b.maxY, b.minZ, b.maxZ, border, cfg).store;
      var c' := o.heap[r];
      c'.bounds == b && c' == s.heap[r].(id := c'.id, children := c'.children)
      && (!Unassigned(s.heap[r]) ==> c'.id == s.heap[r].id)
    ensures var b := s.heap[r].bounds;
      var o := Resized(s, r, b.minX, b.maxX, b.minY, b.maxY, b.minZ, b.maxZ, border, cfg).store;
      IndexApart(s) && IndexAtMostOnce(s.index, s.heap, s.heap[r].id)
      && (forall k :: k in ChunkHashes(b) ==> r in Bucket(s.index, k)) ==>
        forall k :: multiset(Bucket(o.index, k)) == multiset(Bucket(s.index, k))
  {
    var b := s.heap[r].bounds;
    OwnCornersBox(s.heap[r], cfg);
    ResizedTopLevel(s, r, b.minX, b.maxX, b.minY, b.maxY, b.minZ, b.maxZ, border, cfg);
    var o := Resized(s, r, b.minX, b.maxX, b.minY, b.maxY, b.minZ, b.maxZ, border, cfg).store;
    if IndexApart(s) && IndexAtMostOnce(s.index, s.heap, s.heap[r].id)
       && (forall k :: k in ChunkHashes(b) ==> r in Bucket(s.index, k)) {
      ResizedIndex(s, r, b.minX, b.maxX, b.minY, b.maxY, b.minZ, b.maxZ, border, cfg);
      ReindexedInPlace(s.index, s.heap, r, o.index);
    }
  }

  /** The box `resizeClaim` computes from a claim's own corners is the claim's box. */
  lemma OwnCornersBox(c: Claim, cfg: Config)
    requires c.bounds.Normalised() && Sanitize(c.bounds.minY, c.world, cfg) == c.bounds.minY
    requires c.bounds.maxY == TWO_D_HEIGHT || c.bounds.maxY <= c.world.maxHeight
    ensures var b := c.bounds;
      var q := ResizeRequest(c, b.minX, b.maxX, b.minY, b.maxY, b.minZ, b.maxZ);
      var nb := CappedBox(NewClaim(q, RequestedCorners(q, cfg)).bounds, c.world);
      nb.(minY := Sanitize(nb.minY, c.world, cfg), maxY := Max(Sanitize(nb.minY, c.world, cfg), nb.maxY)) == b
  {
    var b := c.bounds;
    var q := ResizeRequest(c, b.minX, b.maxX, b.minY, b.maxY, b.minZ, b.maxZ);
    NewBoxGeometry(q, cfg);
  }

  /** Reindexing a claim under the box it had, when its id is in each bucket at most once
      and it is in each bucket of its chunks, keeps every bucket's claims. */
  lemma ReindexedInPlace(index: Index, h: Heap, r: Ref, index': Index)
    requires r in h && IndexIn(index, h) && Reindexed(index, h, r, index', h[r].bounds)
    requires IndexAtMostOnce(index, h, h[r].id)
    requires forall k :: k in ChunkHashes(h[r].bounds) ==> r in Bucket(index, k)
    ensures forall k :: multiset(Bucket(index', k)) == multiset(Bucket(index, k))
  {
    forall k | k in ChunkHashes(h[r].bounds)
      ensures multiset(Bucket(index', k)) == multiset(Bucket(index, k))
    {
      assert k in index && Bucket(index, k) == index[k];
      BucketInPlace(index[k], h, r);
    }
  }

  /** A bucket that holds r, with r's id at most once, gets back its claims when r is taken
      out by id and put back at the end. */
  lemma BucketInPlace(b: seq<Ref>, h: Heap, r: Ref)
    requires forall j :: 0 <= j < |b| ==> b[j] in h
    requires r in h && r in b && AtMostOnce(b, h, h[r].id)
    ensures multiset(RemoveFirstWithId(b, h, h[r].id) + [r]) == multiset(b)
  {
    var i :| 0 <= i < |b| && b[i] == r;
    forall j | 0 <= j < |b| && h[b[j]].id == h[r].id
      ensures b[j] == r
    {
      if j < i {
        assert false;
      } else if j > i {
        assert false;
      }
    }
    RemoveFirstWithIdTakes(b, h, r);
  }

}
