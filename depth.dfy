/** Claim depth: `sanitizeClaimDepth`, `setNewDepth` and `extendClaim`, as their effect
    on the store. */
module Depths {
  import opened Wrappers
  import opened JavaInt
  import opened BoundingBoxes
  import opened Claims
  import opened Stores

  /** `sanitizeClaimDepth`: a requested floor is raised to the world's minimum height
      and to the configured maximum depth. */
  function Sanitize(requested: int32, world: World, cfg: Config): (d: int32)
    ensures d >= requested && d >= world.minHeight && d >= cfg.maxDepth
    ensures d == requested || d == world.minHeight || d == cfg.maxDepth
  {
    Max(Max(requested, world.minHeight), cfg.maxDepth)
  }

  /** A sanitised floor is left alone by a second sanitising. */
  lemma SanitizeIdempotent(requested: int32, world: World, cfg: Config)
    ensures Sanitize(Sanitize(requested, world, cfg), world, cfg) == Sanitize(requested, world, cfg)
  {
  }

  /** Sanitising keeps the order of floors. */
  lemma SanitizeMonotone(a: int32, b: int32, world: World, cfg: Config)
    requires a <= b
    ensures Sanitize(a, world, cfg) <= Sanitize(b, world, cfg)
  {
  }

  /** The depth `setNewDepth` settles on: the sanitised request, raised to the parent's
      floor for a subdivision of a 3D parent and for a 2D subdivision. */
  function NewDepth(s: Store, r: Ref, newDepth: int32, cfg: Config): (d: int32)
    requires WellFormed(s.heap) && r in s.heap
    ensures d >= Sanitize(newDepth, s.heap[r].world, cfg)
    ensures s.heap[r].parent.None? ==> d == Sanitize(newDepth, s.heap[r].world, cfg)
    ensures s.heap[r].parent.Some? && ClampsToParent(s.heap, r) ==>
              d == Max(s.heap[s.heap[r].parent.value].bounds.minY, Sanitize(newDepth, s.heap[r].world, cfg))
    ensures s.heap[r].parent.Some? && !ClampsToParent(s.heap, r) ==> d == Sanitize(newDepth, s.heap[r].world, cfg)
  {
    var depth := Sanitize(newDepth, s.heap[r].world, cfg);
    if s.heap[r].parent.Some? && ClampsToParent(s.heap, r) then
      Max(s.heap[s.heap[r].parent.value].bounds.minY, depth)
    else depth
  }

  /** A subdivision whose parent is 3D, or which is 2D itself, cannot reach below its
      parent's floor. */
  predicate ClampsToParent(h: Heap, r: Ref)
    requires WellFormed(h) && r in h && h[r].parent.Some?
  {
    h[h[r].parent.value].Is3D() || !h[r].Is3D()
  }

  /** A 3D subdivision of a 2D parent that goes below the parent's floor takes the
      parent down with it. */
  predicate ExtendsParent(s: Store, r: Ref, depth: int32)
    requires WellFormed(s.heap) && r in s.heap
  {
    s.heap[r].parent.Some? && !ClampsToParent(s.heap, r)
    && depth < s.heap[s.heap[r].parent.value].bounds.minY
  }

  /** The bounds one pass of `setNewDepth`'s child loop gives a child: the floor goes to
      the depth when it is below it or the child is 2D, the top goes to the depth when
      it is below it. Both end at or above the depth, a 2D child's floor exactly at it,
      and X and Z are untouched. */
  function ChildBounds(b: Box, is3D: bool, depth: int32): (b': Box)
    ensures b'.minY >= depth && b'.maxY >= depth
    ensures !is3D ==> b'.minY == depth
    ensures b' == b.(minY := b'.minY, maxY := b'.maxY)
  {
    b.WithY(if b.minY < depth || !is3D then depth else b.minY, if b.maxY < depth then depth else b.maxY)
  }

  /** Whether that pass changes the child, in which case it is saved. */
  predicate ChildMoves(b: Box, is3D: bool, depth: int32)
  {
    b.minY < depth || !is3D || b.maxY < depth
  }

  /** The same objects, each in the same world, as much in the store as before and
      with the same X and Z extent: what a change of depth keeps. */
  predicate SameSides(h: Heap, h': Heap)
  {
    h.Keys == h'.Keys
    && forall q :: q in h ==>
         h'[q].world == h[q].world && h'[q].inDataStore == h[q].inDataStore
         && h'[q].bounds.minX == h[q].bounds.minX && h'[q].bounds.maxX == h[q].bounds.maxX
         && h'[q].bounds.minZ == h[q].bounds.minZ && h'[q].bounds.maxZ == h[q].bounds.maxZ
  }

  lemma SameSidesTransitive(h: Heap, h': Heap, h'': Heap)
    requires SameSides(h, h') && SameSides(h', h'')
    ensures SameSides(h, h'')
  {
  }

  /** One pass of `setNewDepth`'s child loop. */
  function DeepenChild(s: Store, c: Ref, depth: int32): (s': Store)
    requires c in s.heap
    ensures Reshaped(s, s')
  {
    var b := s.heap[c].bounds;
    var s1 := Put(s, c, s.heap[c].(bounds := ChildBounds(b, s.heap[c].Is3D(), depth)));
    if ChildMoves(b, s.heap[c].Is3D(), depth) then AssignId(s1, c) else s1
  }

  /** After one pass only the child's bounds and id may have changed. */
  lemma DeepenChildEffect(s: Store, c: Ref, depth: int32)
    requires c in s.heap
    ensures var s' := DeepenChild(s, c, depth);
      s'.heap[c] == s.heap[c].(bounds := ChildBounds(s.heap[c].bounds, s.heap[c].Is3D(), depth), id := s'.heap[c].id)
      && (forall q :: q in s.heap && q != c ==> s'.heap[q] == s.heap[q])
  {
    AssignIdFresh(Put(s, c, s.heap[c].(bounds := ChildBounds(s.heap[c].bounds, s.heap[c].Is3D(), depth))), c);
  }

  /** `setNewDepth`'s loop over the children, from position i on; it changes no object
      it does not visit. */
  function DeepenChildren(s: Store, kids: seq<Ref>, depth: int32, i: nat): (s': Store)
    requires forall j :: 0 <= j < |kids| ==> kids[j] in s.heap
    requires i <= |kids|
    ensures Reshaped(s, s')
    ensures forall q :: q in s.heap && q !in kids[i..] ==> s'.heap[q] == s.heap[q]
    decreases |kids| - i
  {
    if i == |kids| then s
    else
      var s1 := DeepenChild(s, kids[i], depth);
      DeepenChildEffect(s, kids[i], depth);
      var s' := DeepenChildren(s1, kids, depth, i + 1);
      ReshapedTransitive(s, s1, s');
      assert kids[i..] == [kids[i]] + kids[i + 1..];
      s'
  }

  /** Each child the loop visits ends with the bounds of its one pass, computed from the
      bounds it had before the loop. */
  lemma {:induction false} DeepenChildrenValues(s: Store, kids: seq<Ref>, depth: int32, i: nat)
    requires forall j :: 0 <= j < |kids| ==> kids[j] in s.heap
    requires DistinctRefs(kids) && i <= |kids|
    ensures var s' := DeepenChildren(s, kids, depth, i);
      forall j :: i <= j < |kids| ==>
        s'.heap[kids[j]] == s.heap[kids[j]].(bounds := ChildBounds(s.heap[kids[j]].bounds, s.heap[kids[j]].Is3D(), depth),
                                             id := s'.heap[kids[j]].id)
    decreases |kids| - i
  {
    if i < |kids| {
      var c := kids[i];
      var s1 := DeepenChild(s, c, depth);
      DeepenChildEffect(s, c, depth);
      DeepenChildrenValues(s1, kids, depth, i + 1);
      var s' := DeepenChildren(s1, kids, depth, i + 1);
      assert DeepenChildren(s, kids, depth, i) == s';
      assert c !in kids[i + 1..];
      forall j | i <= j < |kids|
        ensures s'.heap[kids[j]] == s.heap[kids[j]].(bounds := ChildBounds(s.heap[kids[j]].bounds, s.heap[kids[j]].Is3D(), depth),
                                                     id := s'.heap[kids[j]].id)
      {
        if j == i {
          assert s'.heap[c] == s1.heap[c];
        } else {
          assert kids[j] != c;
          assert s1.heap[kids[j]] == s.heap[kids[j]];
        }
      }
    }
  }

  /** The claim's own step in `setNewDepth`: its floor goes to the depth, its top stays
      at or above it, and it is saved. */
  function OwnStep(s: Store, r: Ref, depth: int32): (s': Store)
    requires r in s.heap
    ensures Reshaped(s, s')
  {
    var c := s.heap[r];
    AssignId(Put(s, r, c.(bounds := c.bounds.WithY(depth, Max(depth, c.bounds.maxY)))), r)
  }

  /** `setNewDepth(claim, newDepth)`: the depth settles (a 3D subdivision of a 2D parent
      first takes the parent down), the claim's floor goes to it with its top kept at
      or above it, the claim is saved, and its children are brought to the depth. */
  function Deepened(s: Store, r: Ref, newDepth: int32, cfg: Config): (s': Store)
    requires WellFormed(s.heap) && r in s.heap
    ensures Reshaped(s, s')
    decreases Depth(s.heap, r)
  {
    var depth := NewDepth(s, r, newDepth, cfg);
    var s1 := if ExtendsParent(s, r, depth) then Deepened(s, s.heap[r].parent.value, depth, cfg) else s;
    SameLinksWellFormed(s.heap, s1.heap);
    var s2 := OwnStep(s1, r, depth);
    ReshapedTransitive(s, s1, s2);
    var kids := s2.heap[r].children;
    assert kids == s1.heap[r].children;
    assert forall j :: 0 <= j < |kids| ==> kids[j] in s2.heap;
    var s3 := DeepenChildren(s2, kids, depth, 0);
    ReshapedTransitive(s, s2, s3);
    s3
  }

  /** The claim's own step: floor at the depth, top at or above it, X and Z untouched. */
  lemma OwnStepEffect(s: Store, r: Ref, depth: int32)
    requires r in s.heap
    ensures var s' := OwnStep(s, r, depth);
      s'.heap[r].bounds.minY == depth && s'.heap[r].bounds.maxY == Max(depth, s.heap[r].bounds.maxY)
      && s'.heap[r].bounds == s.heap[r].bounds.(minY := depth, maxY := s'.heap[r].bounds.maxY)
      && s'.heap[r] == s.heap[r].(bounds := s'.heap[r].bounds, id := s'.heap[r].id)
      && s'.heap[r].id.Some? && (!Unassigned(s.heap[r]) ==> s'.heap[r].id == s.heap[r].id)
      && (forall q :: q in s.heap && q != r ==> s'.heap[q] == s.heap[q])
  {
    var c := s.heap[r];
    AssignIdFresh(Put(s, r, c.(bounds := c.bounds.WithY(depth, Max(depth, c.bounds.maxY)))), r);
  }

  /** `setNewDepth` changes heights only: every object keeps its world and its X and Z
      extent. */
  lemma {:induction false} DeepenedSides(s: Store, r: Ref, newDepth: int32, cfg: Config)
    requires WellFormed(s.heap) && r in s.heap
    ensures SameSides(s.heap, Deepened(s, r, newDepth, cfg).heap)
    decreases Depth(s.heap, r)
  {
    if s.heap[r].parent.None? {
      var d := Sanitize(newDepth, s.heap[r].world, cfg);
      DeepenedTopLevelSteps(s, r, newDepth, cfg);
      var s2 := OwnStep(s, r, d);
      OwnStepSides(s, r, d);
      DeepenChildrenSides(s2, s.heap[r].children, d, 0);
      SameSidesTransitive(s.heap, s2.heap, Deepened(s, r, newDepth, cfg).heap);
    } else {
      var d := NewDepth(s, r, newDepth, cfg);
      DeepenedSubdivisionSteps(s, r, newDepth, cfg);
      var s1 := if ExtendsParent(s, r, d) then Deepened(s, s.heap[r].parent.value, d, cfg) else s;
      if ExtendsParent(s, r, d) {
        DeepenedSides(s, s.heap[r].parent.value, d, cfg);
      }
      OwnStepSides(s1, r, d);
      SameSidesTransitive(s.heap, s1.heap, Deepened(s, r, newDepth, cfg).heap);
    }
  }

  lemma OwnStepSides(s: Store, r: Ref, depth: int32)
    requires r in s.heap
    ensures SameSides(s.heap, OwnStep(s, r, depth).heap)
  {
    OwnStepEffect(s, r, depth);
  }

  lemma DeepenChildSides(s: Store, c: Ref, depth: int32)
    requires c in s.heap
    ensures SameSides(s.heap, DeepenChild(s, c, depth).heap)
  {
    DeepenChildEffect(s, c, depth);
  }

  lemma DeepenChildrenUnfold(s: Store, kids: seq<Ref>, depth: int32, i: nat)
    requires forall j :: 0 <= j < |kids| ==> kids[j] in s.heap
    requires i < |kids|
    ensures DeepenChildren(s, kids, depth, i) == DeepenChildren(DeepenChild(s, kids[i], depth), kids, depth, i + 1)
  {
  }

  /** The child loop keeps sides too. */
  lemma {:induction false} DeepenChildrenSides(s: Store, kids: seq<Ref>, depth: int32, i: nat)
    requires forall j :: 0 <= j < |kids| ==> kids[j] in s.heap
    requires i <= |kids|
    ensures SameSides(s.heap, DeepenChildren(s, kids, depth, i).heap)
    decreases |kids| - i
  {
    if i < |kids| {
      var s1 := DeepenChild(s, kids[i], depth);
      DeepenChildrenUnfold(s, kids, depth, i);
      DeepenChildSides(s, kids[i], depth);
      DeepenChildrenSides(s1, kids, depth, i + 1);
      SameSidesTransitive(s.heap, s1.heap, DeepenChildren(s1, kids, depth, i + 1).heap);
    }
  }

  /** For a top-level claim: its own step, then the loop over its children. */
  lemma DeepenedTopLevelSteps(s: Store, r: Ref, newDepth: int32, cfg: Config)
    requires WellFormed(s.heap) && r in s.heap && s.heap[r].parent.None?
    ensures var d := Sanitize(newDepth, s.heap[r].world, cfg);
      var s2 := OwnStep(s, r, d);
      Deepened(s, r, newDepth, cfg) == DeepenChildren(s2, s.heap[r].children, d, 0)
      && s2.heap[r].children == s.heap[r].children
  {
  }

  /** For a top-level claim, the floor ends at the sanitised depth and the top at or
      above it. */
  lemma DeepenedFloor(s: Store, r: Ref, newDepth: int32, cfg: Config)
    requires WellFormed(s.heap) && r in s.heap && s.heap[r].parent.None?
    ensures var s' := Deepened(s, r, newDepth, cfg);
      var d := Sanitize(newDepth, s.heap[r].world, cfg);
      s'.heap[r].bounds.minY == d && s'.heap[r].bounds.maxY >= d
  {
    var d := Sanitize(newDepth, s.heap[r].world, cfg);
    DeepenedTopLevelSteps(s, r, newDepth, cfg);
    var s2 := OwnStep(s, r, d);
    OwnStepEffect(s, r, d);
    var kids := s.heap[r].children;
    NotOwnChild(s.heap, r);
    assert kids[0..] == kids;
  }

  /** For a top-level claim, nothing of the claim changes but its floor, which goes to
      the sanitised depth, its top, which is raised to that depth when below it, and its
      id, which it gets when saved without one. */
  lemma DeepenedTopLevelOwn(s: Store, r: Ref, newDepth: int32, cfg: Config)
    requires WellFormed(s.heap) && r in s.heap && s.heap[r].parent.None?
    ensures var s' := Deepened(s, r, newDepth, cfg);
      var d := Sanitize(newDepth, s.heap[r].world, cfg);
      s'.heap[r] == s.heap[r].(bounds := s.heap[r].bounds.(minY := d, maxY := Max(d, s.heap[r].bounds.maxY)), id := s'.heap[r].id)
      && s'.heap[r].id.Some? && (!Unassigned(s.heap[r]) ==> s'.heap[r].id == s.heap[r].id)
  {
    var d := Sanitize(newDepth, s.heap[r].world, cfg);
    DeepenedTopLevelSteps(s, r, newDepth, cfg);
    OwnStepEffect(s, r, d);
    NotOwnChild(s.heap, r);
    assert s.heap[r].children[0..] == s.heap[r].children;
  }

  /** For a top-level claim, no object outside the claim and its children changes. */
  lemma DeepenedTopLevelFrame(s: Store, r: Ref, newDepth: int32, cfg: Config)
    requires WellFormed(s.heap) && r in s.heap && s.heap[r].parent.None?
    ensures var s' := Deepened(s, r, newDepth, cfg);
      forall q :: q in s.heap && q != r && q !in s.heap[r].children ==> s'.heap[q] == s.heap[q]
  {
    var d := Sanitize(newDepth, s.heap[r].world, cfg);
    DeepenedTopLevelSteps(s, r, newDepth, cfg);
    var s2 := OwnStep(s, r, d);
    OwnStepEffect(s, r, d);
    var kids := s.heap[r].children;
    assert kids[0..] == kids;
  }

  /** For a top-level claim, every child ends at or above the depth, and a child that
      was 2D ends exactly at it. */
  lemma DeepenedTopLevelChildren(s: Store, r: Ref, newDepth: int32, cfg: Config)
    requires WellFormed(s.heap) && r in s.heap && s.heap[r].parent.None?
    ensures var s' := Deepened(s, r, newDepth, cfg);
      var d := Sanitize(newDepth, s.heap[r].world, cfg);
      var kids := s.heap[r].children;
      forall j :: 0 <= j < |kids| ==>
        s'.heap[kids[j]].bounds.minY >= d && s'.heap[kids[j]].bounds.maxY >= d
        && (!s.heap[kids[j]].Is3D() ==> s'.heap[kids[j]].bounds.minY == d)
        && s'.heap[kids[j]].inDataStore == s.heap[kids[j]].inDataStore
  {
    var d := Sanitize(newDepth, s.heap[r].world, cfg);
    DeepenedTopLevelSteps(s, r, newDepth, cfg);
    var s2 := OwnStep(s, r, d);
    OwnStepEffect(s, r, d);
    var kids := s.heap[r].children;
    NotOwnChild(s.heap, r);
    DeepenChildrenValues(s2, kids, d, 0);
    var s' := DeepenChildren(s2, kids, d, 0);
    forall j | 0 <= j < |kids|
      ensures s'.heap[kids[j]].bounds.minY >= d && s'.heap[kids[j]].bounds.maxY >= d
      ensures !s.heap[kids[j]].Is3D() ==> s'.heap[kids[j]].bounds.minY == d
      ensures s'.heap[kids[j]].inDataStore == s.heap[kids[j]].inDataStore
    {
      var c := kids[j];
      assert c != r;
      assert s2.heap[c] == s.heap[c];
      assert s'.heap[c].bounds == ChildBounds(s.heap[c].bounds, s.heap[c].Is3D(), d);
    }
  }

  /** `setNewDepth` on a top-level claim: it ends with its floor at the sanitised depth
      and its top at or above it; every child ends at or above the depth, and a child
      that was 2D ends exactly at it; no object outside the claim and its children
      changes. */
  lemma DeepenedTopLevel(s: Store, r: Ref, newDepth: int32, cfg: Config)
    requires WellFormed(s.heap) && r in s.heap && s.heap[r].parent.None?
    ensures var s' := Deepened(s, r, newDepth, cfg);
      var d := Sanitize(newDepth, s.heap[r].world, cfg);
      var kids := s.heap[r].children;
      s'.heap[r].bounds.minY == d && s'.heap[r].bounds.maxY >= d
      && (forall j :: 0 <= j < |kids| ==>
            s'.heap[kids[j]].bounds.minY >= d && (!s.heap[kids[j]].Is3D() ==> s'.heap[kids[j]].bounds.minY == d))
      && (forall q :: q in s.heap && q != r && q !in kids ==> s'.heap[q] == s.heap[q])
  {
    DeepenedFloor(s, r, newDepth, cfg);
    DeepenedTopLevelChildren(s, r, newDepth, cfg);
    DeepenedTopLevelFrame(s, r, newDepth, cfg);
  }

  /** For a subdivision: the parent's step, when it is taken down, then its own step;
      it has no children. */
  lemma DeepenedSubdivisionSteps(s: Store, r: Ref, newDepth: int32, cfg: Config)
    requires WellFormed(s.heap) && r in s.heap && s.heap[r].parent.Some?
    ensures var d := NewDepth(s, r, newDepth, cfg);
      var s1 := if ExtendsParent(s, r, d) then Deepened(s, s.heap[r].parent.value, d, cfg) else s;
      r in s1.heap && Deepened(s, r, newDepth, cfg) == OwnStep(s1, r, d)
  {
    var d := NewDepth(s, r, newDepth, cfg);
    var s1 := if ExtendsParent(s, r, d) then Deepened(s, s.heap[r].parent.value, d, cfg) else s;
    SameLinksWellFormed(s.heap, s1.heap);
    assert OwnStep(s1, r, d).heap[r].children == [];
  }

  /** `setNewDepth` on a subdivision of a parent in the same world: its floor is the
      settled depth, which is at least the sanitised request, with its top at or above
      it, and it ends not below its parent's floor; no object outside the claim, its
      parent and the parent's children changes. */
  lemma DeepenedSubdivision(s: Store, r: Ref, newDepth: int32, cfg: Config)
    requires WellFormed(s.heap) && r in s.heap && s.heap[r].parent.Some?
    requires s.heap[s.heap[r].parent.value].world == s.heap[r].world
    ensures var s' := Deepened(s, r, newDepth, cfg);
      var p := s.heap[r].parent.value;
      var d := NewDepth(s, r, newDepth, cfg);
      s'.heap[r].bounds.minY == d && s'.heap[r].bounds.maxY >= d
      && d >= Sanitize(newDepth, s.heap[r].world, cfg)
      && s'.heap[r].bounds.minY >= s'.heap[p].bounds.minY
      && (forall q :: q in s.heap && q != r && q != p && q !in s.heap[p].children ==> s'.heap[q] == s.heap[q])
  {
    var p := s.heap[r].parent.value;
    var d := NewDepth(s, r, newDepth, cfg);
    DeepenedSubdivisionSteps(s, r, newDepth, cfg);
    var s1 := if ExtendsParent(s, r, d) then Deepened(s, p, d, cfg) else s;
    assert p != r;
    if ExtendsParent(s, r, d) {
      DeepenedFloor(s, p, d, cfg);
      DeepenedTopLevelFrame(s, p, d, cfg);
      SanitizeIdempotent(newDepth, s.heap[r].world, cfg);
      assert s1.heap[p].bounds.minY == d;
    }
    OwnStepEffect(s1, r, d);
  }

  /** `extendClaim`: a subdivision stands for its parent; a 3D claim, a claim already at
      or below the sanitised request and a cancelled event leave everything as it was;
      otherwise the depth the event settled on is applied. */
  function Extended(s: Store, r: Ref, newDepth: int32, cancelled: bool, eventDepth: int32, cfg: Config): (s': Store)
    requires WellFormed(s.heap) && r in s.heap
    ensures Reshaped(s, s')
  {
    var t := ExtendTarget(s.heap, r);
    var c := s.heap[t];
    if c.Is3D() || c.bounds.minY <= Sanitize(newDepth, c.world, cfg) || cancelled then s
    else Deepened(s, t, eventDepth, cfg)
  }

  /** The claim `extendClaim` works on: the top-level claim. */
  function ExtendTarget(h: Heap, r: Ref): (t: Ref)
    requires WellFormed(h) && r in h
    ensures t in h && h[t].parent.None?
    ensures h[r].parent.None? ==> t == r
    ensures h[r].parent.Some? ==> t == h[r].parent.value
  {
    if h[r].parent.Some? then h[r].parent.value else r
  }

  /** A 3D claim is never extended. */
  lemma ExtendIgnores3D(s: Store, r: Ref, newDepth: int32, cancelled: bool, eventDepth: int32, cfg: Config)
    requires WellFormed(s.heap) && r in s.heap && s.heap[ExtendTarget(s.heap, r)].Is3D()
    ensures Extended(s, r, newDepth, cancelled, eventDepth, cfg) == s
  {
  }

  /** When the event leaves the depth at the sanitised request or lower, the floor of
      the top-level claim never rises: it stays, or drops to the sanitised event depth,
      below where it was. */
  lemma ExtendNeverRaises(s: Store, r: Ref, newDepth: int32, cancelled: bool, eventDepth: int32, cfg: Config)
    requires WellFormed(s.heap) && r in s.heap
    requires eventDepth <= Sanitize(newDepth, s.heap[ExtendTarget(s.heap, r)].world, cfg)
    ensures var t := ExtendTarget(s.heap, r);
      var s' := Extended(s, r, newDepth, cancelled, eventDepth, cfg);
      s'.heap[t].bounds.minY <= s.heap[t].bounds.minY
      && (s' != s ==> s'.heap[t].bounds.minY == Sanitize(eventDepth, s.heap[t].world, cfg) < s.heap[t].bounds.minY)
  {
    var t := ExtendTarget(s.heap, r);
    var c := s.heap[t];
    if !(c.Is3D() || c.bounds.minY <= Sanitize(newDepth, c.world, cfg) || cancelled) {
      DeepenedFloor(s, t, eventDepth, cfg);
      SanitizeMonotone(eventDepth, Sanitize(newDepth, c.world, cfg), c.world, cfg);
      SanitizeIdempotent(newDepth, c.world, cfg);
    }
  }

  // ----- subdivision ids and the index -----

  /** A child's pass keeps the ids apart. */
  lemma DeepenChildApart(s: Store, c: Ref, depth: int32)
    requires IndexApart(s) && c in s.heap
    ensures IndexApart(DeepenChild(s, c, depth))
  {
    var b := s.heap[c].bounds;
    PutApart(s, c, s.heap[c].(bounds := ChildBounds(b, s.heap[c].Is3D(), depth)));
    AssignIdApart(Put(s, c, s.heap[c].(bounds := ChildBounds(b, s.heap[c].Is3D(), depth))), c);
  }

  /** So does the whole child loop. */
  lemma {:induction false} DeepenChildrenApart(s: Store, kids: seq<Ref>, depth: int32, i: nat)
    requires forall j :: 0 <= j < |kids| ==> kids[j] in s.heap
    requires i <= |kids| && IndexApart(s)
    ensures IndexApart(DeepenChildren(s, kids, depth, i))
    decreases |kids| - i
  {
    if i < |kids| {
      DeepenChildApart(s, kids[i], depth);
      DeepenChildrenApart(DeepenChild(s, kids[i], depth), kids, depth, i + 1);
    }
  }

  /** The claim's own step keeps the ids apart. */
  lemma OwnStepApart(s: Store, r: Ref, depth: int32)
    requires IndexApart(s) && r in s.heap
    ensures IndexApart(OwnStep(s, r, depth))
  {
    var c := s.heap[r];
    PutApart(s, r, c.(bounds := c.bounds.WithY(depth, Max(depth, c.bounds.maxY))));
    AssignIdApart(Put(s, r, c.(bounds := c.bounds.WithY(depth, Max(depth, c.bounds.maxY)))), r);
  }

  /** `setNewDepth` keeps the ids apart: every id it hands out is new. */
  lemma {:induction false} DeepenedApart(s: Store, r: Ref, newDepth: int32, cfg: Config)
    requires WellFormed(s.heap) && r in s.heap && IndexApart(s)
    ensures IndexApart(Deepened(s, r, newDepth, cfg))
    decreases Depth(s.heap, r)
  {
    if s.heap[r].parent.None? {
      var d := Sanitize(newDepth, s.heap[r].world, cfg);
      DeepenedTopLevelSteps(s, r, newDepth, cfg);
      OwnStepApart(s, r, d);
      DeepenChildrenApart(OwnStep(s, r, d), s.heap[r].children, d, 0);
    } else {
      var d := NewDepth(s, r, newDepth, cfg);
      DeepenedSubdivisionSteps(s, r, newDepth, cfg);
      if ExtendsParent(s, r, d) {
        DeepenedApart(s, s.heap[r].parent.value, d, cfg);
        SameLinksWellFormed(s.heap, Deepened(s, s.heap[r].parent.value, d, cfg).heap);
        OwnStepApart(Deepened(s, s.heap[r].parent.value, d, cfg), r, d);
      } else {
        OwnStepApart(s, r, d);
      }
    }
  }

  // ----- ids -----

  lemma DeepenChildKeeps(s: Store, c: Ref, depth: int32)
    requires c in s.heap
    ensures KeepsIds(s.heap, DeepenChild(s, c, depth).heap)
  {
    var s1 := Put(s, c, s.heap[c].(bounds := ChildBounds(s.heap[c].bounds, s.heap[c].Is3D(), depth)));
    AssignIdKeeps(s1, c);
    KeepsIdsTransitive(s.heap, s1.heap, AssignId(s1, c).heap);
  }

  lemma {:induction false} DeepenChildrenKeeps(s: Store, kids: seq<Ref>, depth: int32, i: nat)
    requires forall j :: 0 <= j < |kids| ==> kids[j] in s.heap
    requires i <= |kids|
    ensures KeepsIds(s.heap, DeepenChildren(s, kids, depth, i).heap)
    decreases |kids| - i
  {
    if i < |kids| {
      var s1 := DeepenChild(s, kids[i], depth);
      DeepenChildKeeps(s, kids[i], depth);
      DeepenChildrenKeeps(s1, kids, depth, i + 1);
      KeepsIdsTransitive(s.heap, s1.heap, DeepenChildren(s1, kids, depth, i + 1).heap);
    }
  }

  lemma OwnStepKeeps(s: Store, r: Ref, depth: int32)
    requires r in s.heap
    ensures KeepsIds(s.heap, OwnStep(s, r, depth).heap)
  {
    var c := s.heap[r];
    var s1 := Put(s, r, c.(bounds := c.bounds.WithY(depth, Max(depth, c.bounds.maxY))));
    AssignIdKeeps(s1, r);
    KeepsIdsTransitive(s.heap, s1.heap, AssignId(s1, r).heap);
  }

  /** `setNewDepth` saves claims without changing an id any of them had. */
  lemma {:induction false} DeepenedKeeps(s: Store, r: Ref, newDepth: int32, cfg: Config)
    requires WellFormed(s.heap) && r in s.heap
    ensures KeepsIds(s.heap, Deepened(s, r, newDepth, cfg).heap)
    decreases Depth(s.heap, r)
  {
    if s.heap[r].parent.None? {
      var d := Sanitize(newDepth, s.heap[r].world, cfg);
      DeepenedTopLevelSteps(s, r, newDepth, cfg);
      OwnStepKeeps(s, r, d);
      DeepenChildrenKeeps(OwnStep(s, r, d), s.heap[r].children, d, 0);
      KeepsIdsTransitive(s.heap, OwnStep(s, r, d).heap, Deepened(s, r, newDepth, cfg).heap);
    } else {
      var d := NewDepth(s, r, newDepth, cfg);
      DeepenedSubdivisionSteps(s, r, newDepth, cfg);
      if ExtendsParent(s, r, d) {
        var s1 := Deepened(s, s.heap[r].parent.value, d, cfg);
        DeepenedKeeps(s, s.heap[r].parent.value, d, cfg);
        OwnStepKeeps(s1, r, d);
        KeepsIdsTransitive(s.heap, s1.heap, OwnStep(s1, r, d).heap);
      } else {
        OwnStepKeeps(s, r, d);
      }
    }
  }
}
