/** `createClaim`: the corners are ordered and clamped, the request is checked against
    the parent and the world border, a new claim object is built and checked for
    overlaps, and, unless it is a dry run or the creation event is cancelled, the claim
    is added to the store. */
module Creation {
  import opened Wrappers
  import opened JavaInt
  import opened BoundingBoxes
  import opened Uuids
  import opened Claims
  import opened ChunkIndex
  import opened Stores
  import opened Depths

  /** The arguments of `createClaim` that describe the claim. */
  datatype Request = Request(world: World, x1: int32, x2: int32, y1: int32, y2: int32, z1: int32, z2: int32,
                             ownerID: Option<Uuid>, parent: Option<Ref>, id: Option<int>)

  /** `CreateClaimResult`: whether it worked and the claim it reports. */
  datatype CreateResult = CreateResult(succeeded: bool, claim: Option<Ref>)

  /** A result together with the store it leaves. */
  datatype Created = Created(result: CreateResult, store: Store)

  /** The corners `createClaim` works with. */
  datatype Corners = Corners(smallx: int32, smally: int32, smallz: int32, bigx: int32, bigy: int32, bigz: int32)

  /** Each axis ordered; the floor sanitised; a top that is not the 2D sentinel capped at
      the world's maximum height. */
  function RequestedCorners(q: Request, cfg: Config): (k: Corners)
    ensures k.smallx == Min(q.x1, q.x2) && k.bigx == Max(q.x1, q.x2)
    ensures k.smallz == Min(q.z1, q.z2) && k.bigz == Max(q.z1, q.z2)
    ensures k.smally == Sanitize(Min(q.y1, q.y2), q.world, cfg)
    ensures Max(q.y1, q.y2) == TWO_D_HEIGHT ==> k.bigy == TWO_D_HEIGHT
    ensures Max(q.y1, q.y2) != TWO_D_HEIGHT ==> k.bigy == Min(q.world.maxHeight, Max(q.y1, q.y2))
  {
    var smallx := if q.x1 < q.x2 then q.x1 else q.x2;
    var bigx := if q.x1 < q.x2 then q.x2 else q.x1;
    var smally := if q.y1 < q.y2 then q.y1 else q.y2;
    var bigy := if q.y1 < q.y2 then q.y2 else q.y1;
    var smallz := if q.z1 < q.z2 then q.z1 else q.z2;
    var bigz := if q.z1 < q.z2 then q.z2 else q.z1;
    var top := if bigy != TWO_D_HEIGHT then Min(q.world.maxHeight, bigy) else bigy;
    Corners(smallx, Sanitize(smally, q.world, cfg), smallz, bigx, top, bigz)
  }

  /** The parent check: outside the parent's columns, or, for a 3D parent, below its
      floor or above its top. */
  predicate OutsideParent(k: Corners, pb: Box, parent3D: bool)
  {
    k.smallx < pb.minX || k.smallz < pb.minZ || k.bigx > pb.maxX || k.bigz > pb.maxZ
    || (parent3D && (k.smally < pb.minY || k.bigy > pb.maxY))
  }

  /** The world border test on both corners. */
  predicate InsideBorder(k: Corners, world: World, border: Location -> bool)
  {
    border(Location(world, k.smallx, k.smally, k.smallz)) && border(Location(world, k.bigx, k.bigy, k.bigz))
  }

  /** The new claim object: the box through both corners, the given owner, parent and
      id, no permissions, not yet in the store. */
  function NewClaim(q: Request, k: Corners): (c: Claim)
    ensures c.bounds == Normalise(k.smallx, k.smally, k.smallz, k.bigx, k.bigy, k.bigz)
    ensures c.world == q.world && c.ownerID == q.ownerID && c.parent == q.parent && c.id == q.id
    ensures !c.inDataStore && c.children == [] && c.permissions == map[] && c.managers == []
  {
    Claim(q.world, Normalise(k.smallx, k.smally, k.smallz, k.bigx, k.bigy, k.bigz), q.id, q.ownerID,
          [], map[], false, false, q.parent, false, [], {})
  }

  /** What a request's parent must be: a top-level claim of the store. */
  predicate ParentOk(s: Store, parent: Option<Ref>)
  {
    parent.Some? ==> parent.value in s.heap && s.heap[parent.value].parent.None?
  }

  /** The claims the new one must not overlap: its future siblings. */
  function Candidates(s: Store, parent: Option<Ref>): (cs: seq<Ref>)
    requires Valid(s) && ParentOk(s, parent)
    ensures forall i :: 0 <= i < |cs| ==> cs[i] in s.heap
  {
    if parent.Some? then s.heap[parent.value].children else s.claims
  }

  /** A candidate that blocks the new claim: another id, in the store, overlapping. */
  predicate Conflicts(h: Heap, r: Ref, c: Claim)
    requires r in h
  {
    h[r].id != c.id && h[r].inDataStore && h[r].Overlaps(c)
  }

  /** The overlap scan: the position of the first conflicting candidate, or the number
      of candidates when there is none. */
  function FirstConflict(h: Heap, cands: seq<Ref>, c: Claim, i: nat): (j: nat)
    requires forall k :: 0 <= k < |cands| ==> cands[k] in h
    requires i <= |cands|
    ensures i <= j <= |cands|
    ensures forall k :: i <= k < j ==> !Conflicts(h, cands[k], c)
    ensures j < |cands| ==> Conflicts(h, cands[j], c)
    decreases |cands| - i
  {
    if i == |cands| || Conflicts(h, cands[i], c) then i
    else FirstConflict(h, cands, c, i + 1)
  }

  /** Position i holds a conflicting candidate and no earlier one conflicts. */
  predicate IsFirstConflict(h: Heap, cands: seq<Ref>, c: Claim, i: int)
    requires forall k :: 0 <= k < |cands| ==> cands[k] in h
  {
    0 <= i < |cands| && Conflicts(h, cands[i], c) && forall j :: 0 <= j < i ==> !Conflicts(h, cands[j], c)
  }

  /** The new object, allocated at the next reference. */
  function Allocated(s: Store, c: Claim): (s': Store)
  {
    s.(heap := s.heap[s.nextRef := c], nextRef := s.nextRef + 1)
  }

  /** A new object without children, whose parent (if any) is a top-level claim of the
      store, keeps the store valid. */
  lemma AllocatedValid(s: Store, c: Claim)
    requires Valid(s) && ParentOk(s, c.parent) && c.children == []
    ensures Valid(Allocated(s, c)) && s.nextRef !in s.heap
  {
    var h := s.heap;
    var h' := Allocated(s, c).heap;
    var r := s.nextRef;
    assert r !in h;
    forall q, i | q in h' && 0 <= i < |h'[q].children|
      ensures h'[q].children[i] in h' && h'[h'[q].children[i]].parent == Some(q)
    {
      assert q != r && h'[q] == h[q];
      assert h[q].children[i] in h;
    }
    forall q | q in h' && h'[q].parent.Some?
      ensures h'[q].parent.value in h' && h'[h'[q].parent.value].parent.None? && h'[q].children == []
    {
      if q != r {
        assert h[q].parent.value in h;
      }
    }
  }

  /** `createClaim` once the new object exists: the overlap scan, the dry run, the id,
      the event, and the add. */
  function Admit(s: Store, c: Claim, floor: int32, depth: int32, dryRun: bool, cancelled: bool, cfg: Config): (o: Created)
    requires Valid(s) && ParentOk(s, c.parent) && c.children == []
    ensures Valid(o.store)
  {
    var r := s.nextRef;
    AllocatedValid(s, c);
    var s1 := Allocated(s, c);
    var cands := Candidates(s, c.parent);
    var i := FirstConflict(s.heap, cands, c, 0);
    if i < |cands| then Created(CreateResult(false, Some(cands[i])), s1)
    else if dryRun then Created(CreateResult(true, Some(r)), s1)
    else
      var s2 := Numbered(s, c);
      if cancelled then Created(CreateResult(false, None), s2)
      else Created(CreateResult(true, Some(r)), Commit(s2, r, floor, depth, cfg))
  }

  /** The new object, allocated and saved once for its id (`assignClaimID`). */
  function Numbered(s: Store, c: Claim): (s': Store)
    requires Valid(s) && ParentOk(s, c.parent) && c.children == []
    ensures Valid(s') && s.nextRef in s'.heap
  {
    AllocatedValid(s, c);
    var s1 := Allocated(s, c);
    ReshapedValid(s1, AssignId(s1, s.nextRef));
    AssignId(s1, s.nextRef)
  }

  /** The new object holds the new claim with an id, which is the counter when the claim
      had none; no list, index or existing object changes. */
  lemma NumberedEffect(s: Store, c: Claim)
    requires Valid(s) && ParentOk(s, c.parent) && c.children == []
    ensures var s' := Numbered(s, c);
      var r := s.nextRef;
      r !in s.heap && s'.heap.Keys == s.heap.Keys + {r}
      && s'.heap[r] == c.(id := s'.heap[r].id) && s'.heap[r].id.Some?
      && (Unassigned(c) ==> s'.heap[r].id == Some(s.nextClaimID) && s'.nextClaimID == s.nextClaimID + 1)
      && (!Unassigned(c) ==> s'.heap[r].id == c.id && s'.nextClaimID == s.nextClaimID)
      && s'.claims == s.claims && s'.index == s.index && s'.nextRef == r + 1
      && forall q :: q in s.heap ==> s'.heap[q] == s.heap[q]
  {
    AllocatedValid(s, c);
    AssignIdFresh(Allocated(s, c), s.nextRef);
  }

  /** A real creation without conflict adds the numbered object. */
  lemma AdmitCommitSteps(s: Store, c: Claim, floor: int32, depth: int32, cfg: Config)
    requires Valid(s) && ParentOk(s, c.parent) && c.children == []
    requires FirstConflict(s.heap, Candidates(s, c.parent), c, 0) == |Candidates(s, c.parent)|
    ensures Admit(s, c, floor, depth, false, false, cfg)
              == Created(CreateResult(true, Some(s.nextRef)), Commit(Numbered(s, c), s.nextRef, floor, depth, cfg))
  {
  }

  /** `addClaim(newClaim, true)`, then extending the parent. */
  function Commit(s: Store, r: Ref, floor: int32, depth: int32, cfg: Config): (s': Store)
    requires Valid(s) && r in s.heap
    ensures Valid(s')
  {
    var s1 := AddClaimTo(s, r, true);
    AddClaimEffect(s, r, true);
    var s2 := ExtendParent(s1, s.heap[r].parent, floor, depth, cfg);
    ReshapedValid(s1, s2);
    s2
  }

  /** "Extend parent claim down to subdivision level": when the floor is below the
      parent's, `setNewDepth(parent, depth)`, where `createClaim` passes the floor less
      the distance claims extend into the ground, in wrapping `int` arithmetic. */
  function ExtendParent(s: Store, parent: Option<Ref>, floor: int32, depth: int32, cfg: Config): (s': Store)
    requires WellFormed(s.heap) && (parent.Some? ==> parent.value in s.heap)
    ensures Reshaped(s, s')
  {
    if parent.Some? && floor < s.heap[parent.value].bounds.minY then
      Deepened(s, parent.value, depth, cfg)
    else s
  }

  /** `createClaim`. The border test and the creation event are parameters; in creative
      mode a 2D claim's floor is taken as the world's minimum height, after the corners
      are fixed, so it only decides whether the parent is extended. */
  function Create(s: Store, q: Request, dryRun: bool, border: Location -> bool, cancelled: bool, cfg: Config): (o: Created)
    requires Valid(s) && ParentOk(s, q.parent)
  {
    var k := RequestedCorners(q, cfg);
    if q.parent.Some? && OutsideParent(k, s.heap[q.parent.value].bounds, s.heap[q.parent.value].Is3D()) then
      Created(CreateResult(false, q.parent), s)
    else if !InsideBorder(k, q.world, border) then Created(CreateResult(false, None), s)
    else
      var floor := ExtensionFloor(q, k, cfg);
      Admit(s, NewClaim(q, k), floor, Sub32(floor, cfg.extendIntoGround), dryRun, cancelled, cfg)
  }

  /** The floor the parent is compared with: in creative mode a 2D claim reaches down
      to the world's minimum height. */
  function ExtensionFloor(q: Request, k: Corners, cfg: Config): (f: int32)
    ensures cfg.creative(q.world) && k.bigy == TWO_D_HEIGHT ==> f == q.world.minHeight
    ensures !(cfg.creative(q.world) && k.bigy == TWO_D_HEIGHT) ==> f == k.smally
  {
    if cfg.creative(q.world) && k.bigy == TWO_D_HEIGHT then q.world.minHeight else k.smally
  }

  /** The request passes the parent and border checks. */
  predicate PassesChecks(s: Store, q: Request, border: Location -> bool, cfg: Config)
    requires ParentOk(s, q.parent)
  {
    var k := RequestedCorners(q, cfg);
    !(q.parent.Some? && OutsideParent(k, s.heap[q.parent.value].bounds, s.heap[q.parent.value].Is3D()))
    && InsideBorder(k, q.world, border)
  }

  /** The box of the new claim: ordered corners on each axis, the floor and the top as
      sanitised and capped. When the sanitised floor is not above the capped top, the
      floor is at least the world's minimum height and the configured maximum depth, and
      a top that is not the 2D sentinel is at most the world's maximum height. */
  lemma NewBoxGeometry(q: Request, cfg: Config)
    ensures var k := RequestedCorners(q, cfg);
      var b := NewClaim(q, k).bounds;
      b.Normalised()
      && b.minX == Min(q.x1, q.x2) && b.maxX == Max(q.x1, q.x2)
      && b.minZ == Min(q.z1, q.z2) && b.maxZ == Max(q.z1, q.z2)
      && b.minY == Min(k.smally, k.bigy) && b.maxY == Max(k.smally, k.bigy)
      && (k.smally <= k.bigy ==>
            b.minY >= q.world.minHeight && b.minY >= cfg.maxDepth
            && (Max(q.y1, q.y2) != TWO_D_HEIGHT ==> b.maxY <= q.world.maxHeight))
  {
  }

  /** A request outside its parent fails and reports the parent; nothing changes. */
  lemma CreateOutsideParent(s: Store, q: Request, dryRun: bool, border: Location -> bool, cancelled: bool, cfg: Config)
    requires Valid(s) && ParentOk(s, q.parent) && q.parent.Some?
    requires OutsideParent(RequestedCorners(q, cfg), s.heap[q.parent.value].bounds, s.heap[q.parent.value].Is3D())
    ensures Create(s, q, dryRun, border, cancelled, cfg) == Created(CreateResult(false, q.parent), s)
  {
  }

  /** A request inside its parent (or without one) but crossing the world border fails
      and reports no claim; nothing changes. */
  lemma CreateOutsideBorder(s: Store, q: Request, dryRun: bool, border: Location -> bool, cancelled: bool, cfg: Config)
    requires Valid(s) && ParentOk(s, q.parent)
    requires !(q.parent.Some? && OutsideParent(RequestedCorners(q, cfg), s.heap[q.parent.value].bounds, s.heap[q.parent.value].Is3D()))
    requires !InsideBorder(RequestedCorners(q, cfg), q.world, border)
    ensures Create(s, q, dryRun, border, cancelled, cfg) == Created(CreateResult(false, None), s)
  {
  }

  /** The overlap scan, for a request that passes the checks: a success means no
      candidate with another id in the store overlaps the new claim; and when some do, it
      fails reporting the first of them in list order. */
  lemma CreateOverlap(s: Store, q: Request, dryRun: bool, border: Location -> bool, cancelled: bool, cfg: Config)
    requires Valid(s) && ParentOk(s, q.parent) && PassesChecks(s, q, border, cfg)
    ensures var o := Create(s, q, dryRun, border, cancelled, cfg);
      var c := NewClaim(q, RequestedCorners(q, cfg));
      var cands := Candidates(s, q.parent);
      (o.result.succeeded ==> forall i :: 0 <= i < |cands| ==> !Conflicts(s.heap, cands[i], c))
      && (forall i :: IsFirstConflict(s.heap, cands, c, i) ==> o.result == CreateResult(false, Some(cands[i])))
  {
    var c := NewClaim(q, RequestedCorners(q, cfg));
    var cands := Candidates(s, q.parent);
    var i := FirstConflict(s.heap, cands, c, 0);
    forall i' | IsFirstConflict(s.heap, cands, c, i')
      ensures i' == i
    {
      assert !(i < i') && !(i' < i);
    }
  }

  /** A dry run that finds no conflict allocates the new object and stops there. */
  lemma AdmitDryRun(s: Store, c: Claim, floor: int32, depth: int32, cancelled: bool, cfg: Config)
    requires Valid(s) && ParentOk(s, c.parent) && c.children == []
    ensures var o := Admit(s, c, floor, depth, true, cancelled, cfg);
      o.store == Allocated(s, c)
      && (o.result.succeeded ==> o.result.claim == Some(s.nextRef))
  {
  }

  /** A successful dry run reports a new object holding the new claim and changes no
      list, index, counter or existing object. */
  lemma CreateDryRun(s: Store, q: Request, border: Location -> bool, cancelled: bool, cfg: Config)
    requires Valid(s) && ParentOk(s, q.parent)
    ensures var o := Create(s, q, true, border, cancelled, cfg);
      o.store.claims == s.claims && o.store.index == s.index && o.store.nextClaimID == s.nextClaimID
      && (forall r :: r in s.heap ==> r in o.store.heap && o.store.heap[r] == s.heap[r])
      && (o.result.succeeded ==>
            o.result.claim == Some(s.nextRef) && s.nextRef !in s.heap && s.nextRef in o.store.heap
            && o.store.heap[s.nextRef] == NewClaim(q, RequestedCorners(q, cfg)))
  {
    var k := RequestedCorners(q, cfg);
    if PassesChecks(s, q, border, cfg) {
      AllocatedValid(s, NewClaim(q, k));
      var floor := ExtensionFloor(q, k, cfg);
      AdmitDryRun(s, NewClaim(q, k), floor, Sub32(floor, cfg.extendIntoGround), cancelled, cfg);
    }
  }

  /** `createClaim` leaves a valid store. */
  lemma CreateValid(s: Store, q: Request, dryRun: bool, border: Location -> bool, cancelled: bool, cfg: Config)
    requires Valid(s) && ParentOk(s, q.parent)
    ensures Valid(Create(s, q, dryRun, border, cancelled, cfg).store)
  {
  }

  /** A cancelled creation event fails with no claim. The claim list and the index do
      not change, but an id may already have been taken from the counter. */
  lemma AdmitCancelled(s: Store, c: Claim, floor: int32, depth: int32, cfg: Config)
    requires Valid(s) && ParentOk(s, c.parent) && c.children == []
    requires FirstConflict(s.heap, Candidates(s, c.parent), c, 0) == |Candidates(s, c.parent)|
    ensures var o := Admit(s, c, floor, depth, false, true, cfg);
      o.result == CreateResult(false, None)
      && o.store.claims == s.claims && o.store.index == s.index
      && o.store.nextClaimID == if Unassigned(c) then s.nextClaimID + 1 else s.nextClaimID
  {
    NumberedEffect(s, c);
  }

  /** What a real success does for a top-level claim: the reported claim is the new
      object, holding the new claim's box and an id, marked as in the store, appended to
      the claim list and indexed under each of its chunks. */
  lemma AdmitTopLevel(s: Store, c: Claim, floor: int32, depth: int32, cfg: Config)
    requires Valid(s) && c.parent.None? && c.children == []
    requires FirstConflict(s.heap, Candidates(s, c.parent), c, 0) == |Candidates(s, c.parent)|
    ensures var o := Admit(s, c, floor, depth, false, false, cfg);
      var r := s.nextRef;
      o.result == CreateResult(true, Some(r)) && r !in s.heap && r in o.store.heap
      && o.store.heap[r].bounds == c.bounds && o.store.heap[r].id.Some? && o.store.heap[r].inDataStore
      && o.store.claims == s.claims + [r]
      && forall k :: k in ChunkHashes(c.bounds) ==> r in Bucket(o.store.index, k)
  {
    var r := s.nextRef;
    AdmitCommitSteps(s, c, floor, depth, cfg);
    var s2 := Numbered(s, c);
    NumberedEffect(s, c);
    AddClaimEffect(s2, r, true);
    AddClaimValue(s2, r, true);
    assert Commit(s2, r, floor, depth, cfg) == AddClaimTo(s2, r, true);
  }

  /** Adding a subdivision and extending its parent: the subdivision is marked as in the
      store and among its parent's children; when the floor is below the parent's, the
      parent's floor goes to the given depth, sanitised, and otherwise the parent keeps its box. */
  lemma CommitSubdivision(s: Store, r: Ref, floor: int32, depth: int32, cfg: Config)
    requires Valid(s) && r in s.heap && s.heap[r].parent.Some?
    ensures var s' := Commit(s, r, floor, depth, cfg);
      var p := s.heap[r].parent.value;
      s'.heap[r].inDataStore && r in s'.heap[p].children
      && (floor < s.heap[p].bounds.minY ==>
            s'.heap[p].bounds.minY == Sanitize(depth, s.heap[p].world, cfg))
      && (floor >= s.heap[p].bounds.minY ==> s'.heap[p] == s.heap[p].(children := s'.heap[p].children))
  {
    var p := s.heap[r].parent.value;
    var s1 := AddClaimTo(s, r, true);
    AddClaimEffect(s, r, true);
    AddClaimValue(s, r, true);
    assert Commit(s, r, floor, depth, cfg) == ExtendParent(s1, Some(p), floor, depth, cfg);
    var i :| 0 <= i < |s1.heap[p].children| && s1.heap[p].children[i] == r;
    ExtendParentFlags(s1, p, floor, depth, cfg);
    if floor < s1.heap[p].bounds.minY {
      ExtendParentFloor(s1, p, floor, depth, cfg);
    }
  }

  /** Extending a parent whose floor is above the given one is `setNewDepth` on it. */
  lemma ExtendParentSteps(s: Store, p: Ref, floor: int32, depth: int32, cfg: Config)
    requires WellFormed(s.heap) && p in s.heap && floor < s.heap[p].bounds.minY
    ensures ExtendParent(s, Some(p), floor, depth, cfg) == Deepened(s, p, depth, cfg)
  {
  }

  /** Extending a top-level parent whose floor is above the given one: the parent's
      floor goes to the given depth, sanitised. */
  lemma ExtendParentFloor(s: Store, p: Ref, floor: int32, depth: int32, cfg: Config)
    requires WellFormed(s.heap) && p in s.heap && s.heap[p].parent.None? && floor < s.heap[p].bounds.minY
    ensures ExtendParent(s, Some(p), floor, depth, cfg).heap[p].bounds.minY
              == Sanitize(depth, s.heap[p].world, cfg)
  {
    ExtendParentSteps(s, p, floor, depth, cfg);
    DeepenedFloor(s, p, depth, cfg);
  }

  /** Extending a parent leaves its children in the store as they were. */
  lemma ExtendParentFlags(s: Store, p: Ref, floor: int32, depth: int32, cfg: Config)
    requires WellFormed(s.heap) && p in s.heap && s.heap[p].parent.None?
    ensures var s' := ExtendParent(s, Some(p), floor, depth, cfg);
      var kids := s.heap[p].children;
      forall j :: 0 <= j < |kids| ==> s'.heap[kids[j]].inDataStore == s.heap[kids[j]].inDataStore
  {
    if floor < s.heap[p].bounds.minY {
      ExtendParentSteps(s, p, floor, depth, cfg);
      DeepenedTopLevelChildren(s, p, depth, cfg);
    }
  }

  /** What a real success does for a subdivision: the reported claim is the new object,
      marked as in the store and among its parent's children; when the floor is below
      the parent's, the parent's floor goes to the given depth, sanitised, and otherwise
      the parent changes only by its children. */
  lemma AdmitSubdivision(s: Store, c: Claim, floor: int32, depth: int32, cfg: Config)
    requires Valid(s) && ParentOk(s, c.parent) && c.parent.Some? && c.children == []
    requires FirstConflict(s.heap, Candidates(s, c.parent), c, 0) == |Candidates(s, c.parent)|
    ensures var o := Admit(s, c, floor, depth, false, false, cfg);
      var r := s.nextRef;
      var p := c.parent.value;
      o.result == CreateResult(true, Some(r)) && r !in s.heap && r in o.store.heap
      && o.store.heap[r].inDataStore && r in o.store.heap[p].children
      && (floor < s.heap[p].bounds.minY ==>
            o.store.heap[p].bounds.minY == Sanitize(depth, s.heap[p].world, cfg))
      && (floor >= s.heap[p].bounds.minY ==> o.store.heap[p] == s.heap[p].(children := o.store.heap[p].children))
  {
    AdmitCommitSteps(s, c, floor, depth, cfg);
    NumberedEffect(s, c);
    CommitSubdivision(Numbered(s, c), s.nextRef, floor, depth, cfg);
  }

  /** `createClaim` for a top-level claim that passes the border test and overlaps no
      claim of the store: it succeeds with a new object holding the requested box and an
      id, marked as in the store, appended to the claim list and indexed under each of
      its chunks. */
  lemma CreateTopLevel(s: Store, q: Request, border: Location -> bool, cfg: Config)
    requires Valid(s) && q.parent.None? && InsideBorder(RequestedCorners(q, cfg), q.world, border)
    requires FirstConflict(s.heap, s.claims, NewClaim(q, RequestedCorners(q, cfg)), 0) == |s.claims|
    ensures var o := Create(s, q, false, border, false, cfg);
      var r := s.nextRef;
      var b := NewClaim(q, RequestedCorners(q, cfg)).bounds;
      o.result == CreateResult(true, Some(r)) && r !in s.heap && r in o.store.heap
      && o.store.heap[r].bounds == b && o.store.heap[r].id.Some? && o.store.heap[r].inDataStore
      && o.store.claims == s.claims + [r]
      && forall k :: k in ChunkHashes(b) ==> r in Bucket(o.store.index, k)
  {
    var k := RequestedCorners(q, cfg);
    var floor := ExtensionFloor(q, k, cfg);
    AdmitTopLevel(s, NewClaim(q, k), floor, Sub32(floor, cfg.extendIntoGround), cfg);
  }

  /** `createClaim` for a subdivision inside its parent and the border, overlapping no
      sibling: it succeeds with a new object marked as in the store and among the
      parent's children; when the floor (in creative mode, for a 2D claim, the world's
      minimum height) is below the parent's, the parent's floor goes to that floor less
      the distance claims extend into the ground (in wrapping `int` arithmetic),
      sanitised, and otherwise the parent changes only by its children. */
  lemma CreateSubdivision(s: Store, q: Request, border: Location -> bool, cfg: Config)
    requires Valid(s) && ParentOk(s, q.parent) && q.parent.Some? && PassesChecks(s, q, border, cfg)
    requires var p := q.parent.value;
      FirstConflict(s.heap, s.heap[p].children, NewClaim(q, RequestedCorners(q, cfg)), 0) == |s.heap[p].children|
    ensures var o := Create(s, q, false, border, false, cfg);
      var r := s.nextRef;
      var p := q.parent.value;
      var floor := ExtensionFloor(q, RequestedCorners(q, cfg), cfg);
      o.result == CreateResult(true, Some(r)) && r !in s.heap && r in o.store.heap
      && o.store.heap[r].inDataStore && r in o.store.heap[p].children
      && (floor < s.heap[p].bounds.minY ==>
            o.store.heap[p].bounds.minY == Sanitize(Sub32(floor, cfg.extendIntoGround), s.heap[p].world, cfg))
      && (floor >= s.heap[p].bounds.minY ==> o.store.heap[p] == s.heap[p].(children := o.store.heap[p].children))
  {
    var k := RequestedCorners(q, cfg);
    var floor := ExtensionFloor(q, k, cfg);
    CreateSteps(s, q, false, border, false, cfg);
    AdmitSubdivision(s, NewClaim(q, k), floor, Sub32(floor, cfg.extendIntoGround), cfg);
  }

  /** A request that passes the checks goes on to the overlap scan with the new claim. */
  lemma CreateSteps(s: Store, q: Request, dryRun: bool, border: Location -> bool, cancelled: bool, cfg: Config)
    requires Valid(s) && ParentOk(s, q.parent) && PassesChecks(s, q, border, cfg)
    ensures var k := RequestedCorners(q, cfg);
      var floor := ExtensionFloor(q, k, cfg);
      Create(s, q, dryRun, border, cancelled, cfg)
        == Admit(s, NewClaim(q, k), floor, Sub32(floor, cfg.extendIntoGround), dryRun, cancelled, cfg)
  {
  }
}
