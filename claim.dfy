/** `Claim`: one land claim — its world, its box, its owner, its permission tables and
    its place in the parent/subdivision hierarchy — and the permission resolution over
    it. Claim objects live in a `Heap` from references to claim values, so that a
    parent and its subdivisions can refer to each other as Java objects do. */
module Claims {
  import opened Wrappers
  import opened JavaInt
  import opened JavaString
  import opened BoundingBoxes
  import opened Uuids

  /** `Claim._2D_HEIGHT`: the top of a claim that reaches up to the sky (a "2D" claim). */
  const TWO_D_HEIGHT: int32 := 32_000_000

  /** A world, as far as claims need one: equal worlds are the same world. */
  datatype World = World(name: string, minHeight: int32, maxHeight: int32)

  /** A block location. */
  datatype Location = Location(world: World, x: int32, y: int32, z: int32)

  /** `ClaimPermission`, strongest first. */
  datatype ClaimPermission = Edit | Manage | Build | Inventory | Access
  {
    /** The declaration order. */
    function Rank(): (r: nat)
      ensures r <= 4
    {
      match this
      case Edit => 0
      case Manage => 1
      case Build => 2
      case Inventory => 3
      case Access => 4
    }

    /** `isGrantedBy`: a held level grants this one when it comes no later in the
        declaration order; `null` grants nothing. Only Build, Inventory and Access are
        ever held in a permission table (`setPermission` refuses Edit and keeps Manage
        in the manager list), so where Edit and Manage stand in the order changes no
        answer on a table built that way. */
    predicate IsGrantedBy(other: Option<ClaimPermission>)
    {
      other.Some? && other.value.Rank() <= Rank()
    }
  }

  /** The order `isGrantedBy` uses is total on the five levels: every level grants itself,
      `Edit` grants all, `Access` is granted by all, and granting chains. */
  lemma GrantOrder(a: ClaimPermission, b: ClaimPermission, c: ClaimPermission)
    ensures a.IsGrantedBy(Some(a)) && a.IsGrantedBy(Some(Edit)) && Access.IsGrantedBy(Some(a))
    ensures !a.IsGrantedBy(None)
    ensures a.IsGrantedBy(Some(b)) && b.IsGrantedBy(Some(c)) ==> a.IsGrantedBy(Some(c))
    ensures a.IsGrantedBy(Some(b)) && b.IsGrantedBy(Some(a)) ==> a == b
  {
  }

  /** The player a permission check is about: the id and `Player.hasPermission`. */
  datatype Player = Player(uniqueId: Uuid, hasPermission: string -> bool)

  /** The player-data flags the permission chain reads (`PlayerData.ignoreClaims`,
      `PlayerData.inPvpCombat()`), per player id. */
  datatype PlayerFlags = PlayerFlags(ignoreClaims: Uuid -> bool, inPvpCombat: Uuid -> bool)

  /** A denial reason, standing for the message supplier `getDefaultDenial` returns. */
  datatype Denial =
    | NoBuildPvP
      /** The catch-all message for the required level on this claim, with the
          ignore-claims advertisement when the player could bypass. */
    | NoPermission(required: ClaimPermission, claim: Ref, advertiseIgnoreClaims: bool)
      /** A clarifying message a caller substitutes for a denial. */
    | Override(message: string)

  /** A reference to a claim object. */
  type Ref = nat

  datatype Claim = Claim(
    world: World,
    bounds: Box,
    id: Option<int>,
    ownerID: Option<Uuid>,
    managers: seq<string>,
    permissions: map<string, ClaimPermission>,
    inDataStore: bool,
    areExplosivesAllowed: bool,
    parent: Option<Ref>,
    inheritNothing: bool,
    children: seq<Ref>,
    bannedPlayerIds: set<Uuid>)
  {
    /** `is3D`: the top is a real top, not the sentinel. */
    predicate Is3D()
    {
      bounds.maxY != TWO_D_HEIGHT
    }

    /** `isCorner`: on a corner column, and for a 3D claim also on the floor or the top. */
    predicate IsCorner(x: int32, y: int32, z: int32)
    {
      (x == bounds.minX || x == bounds.maxX) && (z == bounds.minZ || z == bounds.maxZ)
      && (!Is3D() || y == bounds.minY || y == bounds.maxY)
    }

    /** `isInside`: the full 3D test on the bounds. */
    predicate IsInside(x: int32, y: int32, z: int32)
    {
      bounds.Contains(x, y, z)
    }

    /** `overlaps`: never across worlds; the 3D intersection when both claims are 3D,
        the XZ intersection otherwise. */
    predicate Overlaps(other: Claim)
    {
      world == other.world
      && (if Is3D() && other.Is3D() then bounds.Intersects(other.bounds) else bounds.Intersects2d(other.bounds))
    }

    /** `greaterThan`: by the lesser corner's X, then its Z, then the world name (a
        smaller name counts as greater). */
    predicate GreaterThan(other: Claim)
    {
      if bounds.minX != other.bounds.minX then bounds.minX > other.bounds.minX
      else if bounds.minZ != other.bounds.minZ then bounds.minZ > other.bounds.minZ
      else LexLess(world.name, other.world.name)
    }

    /** `getArea`: one more than the box's length and width on each axis, multiplied,
        all in wrapping `int` arithmetic. */
    function GetArea(): (r: int32)
      ensures (r - (bounds.Length() as int + 1) * (bounds.Width() as int + 1)) % TWO_32 == 0
    {
      WrappedArea(bounds.Length() as int, bounds.Width() as int)
    }

    /** `getPermission`: `null` for a null or empty id; otherwise the level stored under
        the lower-cased id, if any. */
    function GetPermission(playerID: Option<string>): (r: Option<ClaimPermission>)
      ensures playerID.None? || playerID.value == "" ==> r.None?
      ensures playerID.Some? && playerID.value != "" ==>
                (r.Some? <==> ToLower(playerID.value) in permissions)
                && (r.Some? ==> r.value == permissions[ToLower(playerID.value)])
    {
      if playerID.None? || playerID.value == "" then None
      else Lookup(permissions, ToLower(playerID.value))
    }

    /** The copy constructor: the same state, not in the data store. (The Java copy
        shares the banned-player set with the original; a value cannot.) */
    function Copy(): (r: Claim)
      ensures !r.inDataStore
      ensures r.(inDataStore := inDataStore) == this
    {
      this.(inDataStore := false)
    }
  }

  /** (length + 1) * (width + 1) with each factor and the product wrapped to `int`. */
  function WrappedArea(length: int, width: int): (r: int32)
    ensures (r - (length + 1) * (width + 1)) % TWO_32 == 0
  {
    var claimLength := Wrap32(length + 1);
    var claimWidth := Wrap32(width + 1);
    var area := Wrap32(claimLength as int * claimWidth as int);
    WrapProduct(length + 1, claimLength as int, width + 1, claimWidth as int, area as int);
    area
  }

  /** A product of wrapped factors, wrapped again, wraps like the product of the factors. */
  lemma WrapProduct(a: int, wa: int, b: int, wb: int, w: int)
    requires (wa - a) % TWO_32 == 0 && (wb - b) % TWO_32 == 0 && (w - wa * wb) % TWO_32 == 0
    ensures (w - a * b) % TWO_32 == 0
  {
    var ka := (wa - a) / TWO_32;
    var kb := (wb - b) / TWO_32;
    var kw := (w - wa * wb) / TWO_32;
    assert wa == a + ka * TWO_32;
    assert wb == b + kb * TWO_32;
    assert w == wa * wb + kw * TWO_32;
    var k := a * kb + ka * b + ka * kb * TWO_32 + kw;
    assert w - a * b == k * TWO_32;
  }

  function Lookup(m: map<string, ClaimPermission>, key: string): (r: Option<ClaimPermission>)
    ensures r.Some? <==> key in m
    ensures r.Some? ==> r.value == m[key]
  {
    if key in m then Some(m[key]) else None
  }

  /** `getArea` counts one more block per axis than `BoundingBox.getArea`: for a
      normalised box small enough not to wrap, it is (length + 1) * (width + 1), which
      exceeds the box area by length + width + 1. */
  lemma GetAreaOneLargerPerAxis(c: Claim)
    requires c.bounds.Normalised()
    requires (c.bounds.maxX - c.bounds.minX + 2) * (c.bounds.maxZ - c.bounds.minZ + 2) < 0x8000_0000
    ensures var len, wid := c.bounds.maxX - c.bounds.minX + 1, c.bounds.maxZ - c.bounds.minZ + 1;
      c.GetArea() as int == (len + 1) * (wid + 1)
      && c.GetArea() as int == c.bounds.Area() as int + len + wid + 1
  {
    var len, wid := c.bounds.maxX - c.bounds.minX + 1, c.bounds.maxZ - c.bounds.minZ + 1;
    assert 1 <= len && 1 <= wid;
    MulMonotone(1, len + 1, wid + 1);
    MulMonotone(1, wid + 1, len + 1);
    assert InInt32(len + 1) && InInt32(wid + 1);
    assert c.bounds.Length() == len && c.bounds.Width() == wid;
    assert (len + 1) * (wid + 1) == len * wid + len + wid + 1;
  }

  /** A corner of a normalised claim lies on its boundary columns, and for a 3D claim
      inside it. */
  lemma CornerIsInside(c: Claim, x: int32, y: int32, z: int32)
    requires c.bounds.Normalised() && c.IsCorner(x, y, z)
    ensures c.bounds.Contains2d(x, z)
    ensures c.Is3D() ==> c.IsInside(x, y, z)
  {
  }

  /** `overlaps` is symmetric. */
  lemma OverlapsSymmetric(a: Claim, b: Claim)
    ensures a.Overlaps(b) <==> b.Overlaps(a)
  {
    IntersectsSymmetric(a.bounds, b.bounds);
  }

  /** Overlapping normalised claims share a column of blocks. */
  lemma OverlapsShareColumn(a: Claim, b: Claim)
    requires a.bounds.Normalised() && b.bounds.Normalised()
    requires a.Overlaps(b)
    ensures exists x, z :: a.bounds.Contains2d(x, z) && b.bounds.Contains2d(x, z)
  {
    IntersectsMeansCommonPoint(a.bounds, b.bounds);
  }

  /** `greaterThan` is a strict order: irreflexive, asymmetric and transitive. */
  lemma GreaterThanStrictOrder(a: Claim, b: Claim, c: Claim)
    ensures !a.GreaterThan(a)
    ensures a.GreaterThan(b) ==> !b.GreaterThan(a)
    ensures a.GreaterThan(b) && b.GreaterThan(c) ==> a.GreaterThan(c)
  {
    LexLessIrreflexive(a.world.name);
    if a.GreaterThan(b) && a.bounds.minX == b.bounds.minX && a.bounds.minZ == b.bounds.minZ {
      LexLessAsymmetric(a.world.name, b.world.name);
    }
    if a.GreaterThan(b) && b.GreaterThan(c)
       && a.bounds.minX == b.bounds.minX && b.bounds.minX == c.bounds.minX
       && a.bounds.minZ == b.bounds.minZ && b.bounds.minZ == c.bounds.minZ {
      LexLessTransitive(a.world.name, b.world.name, c.world.name);
    }
  }

  // ----- the claim objects -----

  type Heap = map<Ref, Claim>

  /** The shape the hierarchy keeps: a parent is a top-level claim, a subdivision has no
      subdivisions of its own, every listed child points back at its parent, and no
      child is listed twice. */
  predicate WellFormed(h: Heap)
  {
    (forall r :: r in h && h[r].parent.Some? ==>
       h[r].parent.value in h && h[h[r].parent.value].parent.None? && h[r].children == [])
    && (forall r, i :: r in h && 0 <= i < |h[r].children| ==>
          h[r].children[i] in h && h[h[r].children[i]].parent == Some(r))
    && (forall r, i, j :: r in h && 0 <= i < j < |h[r].children| ==> h[r].children[i] != h[r].children[j])
  }

  /** Two heaps with the same objects and the same links. */
  predicate SameLinks(h: Heap, h': Heap)
  {
    h.Keys == h'.Keys
    && forall r :: r in h ==> h'[r].parent == h[r].parent && h'[r].children == h[r].children
  }

  lemma SameLinksWellFormed(h: Heap, h': Heap)
    requires WellFormed(h) && SameLinks(h, h')
    ensures WellFormed(h')
  {
  }

  /** 1 for a top-level claim, 0 for a subdivision: what the recursions through the
      hierarchy decrease. */
  function Level(h: Heap, r: Ref): nat
    requires r in h
  {
    if h[r].parent.None? then 1 else 0
  }

  /** 1 for a subdivision, 0 for a top-level claim: what the recursions up to the
      parent decrease. */
  function Depth(h: Heap, r: Ref): nat
    requires r in h
  {
    if h[r].parent.Some? then 1 else 0
  }

  /** `getOwnerID`: a subdivision reports its parent's owner. */
  function OwnerID(h: Heap, r: Ref): (o: Option<Uuid>)
    requires WellFormed(h) && r in h
    ensures h[r].parent.None? ==> o == h[r].ownerID
    ensures h[r].parent.Some? ==> o == h[h[r].parent.value].ownerID
  {
    if h[r].parent.Some? then h[h[r].parent.value].ownerID else h[r].ownerID
  }

  /** `isAdminClaim`: the effective owner is `null`. */
  predicate IsAdminClaim(h: Heap, r: Ref)
    requires WellFormed(h) && r in h
  {
    OwnerID(h, r).None?
  }

  /** `checkBanned`: banned here, or — unless the claim inherits nothing — banned in
      the parent. */
  predicate CheckBanned(h: Heap, r: Ref, uid: Uuid)
    requires WellFormed(h) && r in h
    decreases Depth(h, r)
  {
    if uid in h[r].bannedPlayerIds then true
    else if !h[r].inheritNothing && h[r].parent.Some? then CheckBanned(h, h[r].parent.value, uid)
    else false
  }

  /** Ban inheritance reaches exactly one level up. */
  lemma {:induction false} CheckBannedMeans(h: Heap, r: Ref, uid: Uuid)
    requires WellFormed(h) && r in h
    ensures CheckBanned(h, r, uid) <==>
      uid in h[r].bannedPlayerIds
      || (!h[r].inheritNothing && h[r].parent.Some? && uid in h[h[r].parent.value].bannedPlayerIds)
  {
    if h[r].parent.Some? {
      var p := h[r].parent.value;
      assert h[p].parent.None?;
      assert CheckBanned(h, p, uid) <==> uid in h[p].bannedPlayerIds;
    }
  }

  /** `hasExplicitPermission(UUID, level)`: the effective owner always; for Manage,
      the id on the manager list; otherwise a stored level that grants the one asked. */
  predicate HasExplicitPermission(h: Heap, r: Ref, uuid: Uuid, level: ClaimPermission)
    requires WellFormed(h) && r in h
  {
    Some(uuid) == OwnerID(h, r)
    || (if level == Manage then UuidToString(uuid) in h[r].managers
        else level.IsGrantedBy(Lookup(h[r].permissions, UuidToString(uuid))))
  }

  /** A permission-node entry: `[node]` with something between the brackets. */
  predicate IsNode(k: string)
  {
    |k| >= 3 && k[0] == '[' && k[|k| - 1] == ']'
  }

  function NodeName(k: string): (n: string)
    requires IsNode(k)
    ensures |n| == |k| - 2 && k == "[" + n + "]"
  {
    k[1..|k| - 1]
  }

  /** A `[node]` entry on the manager list whose node the player holds. */
  predicate NodeManaged(managers: seq<string>, hasPermission: string -> bool)
  {
    exists i | 0 <= i < |managers| :: IsNode(managers[i]) && hasPermission(NodeName(managers[i]))
  }

  /** A `[node]` entry of the permission table, at a level that grants the one asked,
      whose node the player holds. */
  predicate NodeGranted(permissions: map<string, ClaimPermission>, hasPermission: string -> bool,
                        level: ClaimPermission)
  {
    exists k | k in permissions :: IsNode(k) && level.IsGrantedBy(Some(permissions[k])) && hasPermission(NodeName(k))
  }

  /** `hasExplicitPermission(Player, level)`: the id-based check, then the `[node]`
      entries the player holds the node of — on the manager list for Manage, and in
      the permission table with a granting level otherwise. */
  predicate PlayerHasExplicitPermission(h: Heap, r: Ref, player: Player, level: ClaimPermission)
    requires WellFormed(h) && r in h
  {
    HasExplicitPermission(h, r, player.uniqueId, level)
    || (if level == Manage then NodeManaged(h[r].managers, player.hasPermission)
        else NodeGranted(h[r].permissions, player.hasPermission, level))
  }

  /** `hasBypassPermission`: no player, no bypass; Edit needs deleteclaims, everything
      else ignoreclaims. */
  predicate HasBypassPermission(player: Option<Player>, permission: ClaimPermission)
  {
    player.Some?
    && player.value.hasPermission(if permission == Edit then "griefprevention.deleteclaims"
                                  else "griefprevention.ignoreclaims")
  }

  /** `PLACEABLE_FARMING_BLOCKS`, by material name. */
  const PlaceableFarmingBlocks: set<string> :=
    {"PUMPKIN_STEM", "WHEAT", "MELON_STEM", "CARROTS", "POTATOES", "NETHER_WART",
     "BEETROOTS", "COCOA", "GLOW_BERRIES", "CAVE_VINES", "CAVE_VINES_PLANT"}

  /** The rules at the head of `getDefaultDenial` that allow outright: the admin-claim
      node, deleteclaims for Edit on a player claim, the owner, ignore-claims mode with
      the bypass node, an explicit grant, and a public grant. */
  predicate EarlyGrant(h: Heap, r: Ref, player: Option<Player>, uuid: Uuid, permission: ClaimPermission,
                       flags: PlayerFlags)
    requires WellFormed(h) && r in h
  {
    (player.Some? && IsAdminClaim(h, r) && player.value.hasPermission("griefprevention.adminclaims"))
    || (player.Some? && !IsAdminClaim(h, r) && permission == Edit
        && player.value.hasPermission("griefprevention.deleteclaims"))
    || Some(uuid) == OwnerID(h, r)
    || (flags.ignoreClaims(uuid) && HasBypassPermission(player, permission))
    || (if player.Some? then PlayerHasExplicitPermission(h, r, player.value, permission)
        else HasExplicitPermission(h, r, uuid, permission))
    || permission.IsGrantedBy(Lookup(h[r].permissions, "public"))
  }

  /** `getDefaultDenial`: `None` allows. The material is that of the triggering block
      break or place event, if any. */
  function DefaultDenial(h: Heap, r: Ref, player: Option<Player>, uuid: Uuid, permission: ClaimPermission,
                         flags: PlayerFlags, material: Option<string>): (d: Option<Denial>)
    requires WellFormed(h) && r in h
    ensures EarlyGrant(h, r, player, uuid, permission, flags) ==> d.None?
    decreases Depth(h, r), if permission == Build then 1 else 0
  {
    var c := h[r];
    if player.Some? && IsAdminClaim(h, r) && player.value.hasPermission("griefprevention.adminclaims") then None
    else if player.Some? && !IsAdminClaim(h, r) && permission == Edit
            && player.value.hasPermission("griefprevention.deleteclaims") then None
    else if Some(uuid) == OwnerID(h, r) || (flags.ignoreClaims(uuid) && HasBypassPermission(player, permission)) then None
    else if (if player.Some? then PlayerHasExplicitPermission(h, r, player.value, permission)
             else HasExplicitPermission(h, r, uuid, permission)) then None
    else if permission.IsGrantedBy(Lookup(c.permissions, "public")) then None
    else if permission == Build && flags.inPvpCombat(uuid) then Some(NoBuildPvP)
    else if permission == Build && material.Some? && material.value in PlaceableFarmingBlocks
            && DefaultDenial(h, r, player, uuid, Inventory, flags, material).None? then None
    else if c.parent.Some? && !c.inheritNothing then
      DefaultDenial(h, c.parent.value, player, uuid, if permission == Edit then Manage else permission, flags, material)
    else Some(NoPermission(permission, r, HasBypassPermission(player, permission)))
  }

  /** The effective owner — the parent's owner for a subdivision — is always allowed. */
  lemma OwnerAlwaysAllowed(h: Heap, r: Ref, player: Option<Player>, uuid: Uuid, permission: ClaimPermission,
                           flags: PlayerFlags, material: Option<string>)
    requires WellFormed(h) && r in h
    requires Some(uuid) == OwnerID(h, r)
    ensures DefaultDenial(h, r, player, uuid, permission, flags, material).None?
  {
  }

  /** Without an early grant, Build is refused to a player in PvP combat, before any
      inheritance from the parent. */
  lemma PvpBlocksBuilding(h: Heap, r: Ref, player: Option<Player>, uuid: Uuid, flags: PlayerFlags,
                          material: Option<string>)
    requires WellFormed(h) && r in h
    requires !EarlyGrant(h, r, player, uuid, Build, flags) && flags.inPvpCombat(uuid)
    ensures DefaultDenial(h, r, player, uuid, Build, flags, material) == Some(NoBuildPvP)
  {
  }

  /** Without an early grant or combat, a farmable block is allowed to a player who
      passes the Inventory-level check. */
  lemma FarmingWithContainerTrust(h: Heap, r: Ref, player: Option<Player>, uuid: Uuid, flags: PlayerFlags,
                                  material: string)
    requires WellFormed(h) && r in h
    requires !EarlyGrant(h, r, player, uuid, Build, flags) && !flags.inPvpCombat(uuid)
    requires material in PlaceableFarmingBlocks
    requires DefaultDenial(h, r, player, uuid, Inventory, flags, Some(material)).None?
    ensures DefaultDenial(h, r, player, uuid, Build, flags, Some(material)).None?
  {
  }

  /** Past the early grants and the building rules, a subdivision that inherits returns
      its parent's verdict, asking the parent for Manage where it was asked for Edit;
      a claim that does not inherit denies with the catch-all message. */
  lemma InheritanceOrCatchAll(h: Heap, r: Ref, player: Option<Player>, uuid: Uuid, permission: ClaimPermission,
                              flags: PlayerFlags, material: Option<string>)
    requires WellFormed(h) && r in h
    requires !EarlyGrant(h, r, player, uuid, permission, flags)
    requires permission == Build ==> !flags.inPvpCombat(uuid) && (material.None? || material.value !in PlaceableFarmingBlocks)
    ensures h[r].parent.Some? && !h[r].inheritNothing ==>
      DefaultDenial(h, r, player, uuid, permission, flags, material)
      == DefaultDenial(h, h[r].parent.value, player, uuid, if permission == Edit then Manage else permission, flags, material)
    ensures h[r].parent.None? || h[r].inheritNothing ==>
      DefaultDenial(h, r, player, uuid, permission, flags, material)
      == Some(NoPermission(permission, r, HasBypassPermission(player, permission)))
  {
  }

  /** A level at or below Build is granted by what grants a stronger such level. */
  lemma GrantedBelow(p: ClaimPermission, q: ClaimPermission, held: Option<ClaimPermission>)
    requires p != Edit && p != Manage && p.Rank() <= q.Rank() && p.IsGrantedBy(held)
    ensures q.IsGrantedBy(held)
  {
  }

  /** The id-based explicit grant is monotone below Manage. */
  lemma IdGrantMonotone(h: Heap, r: Ref, uuid: Uuid, p: ClaimPermission, q: ClaimPermission)
    requires WellFormed(h) && r in h
    requires p != Edit && p != Manage && p.Rank() <= q.Rank()
    requires HasExplicitPermission(h, r, uuid, p)
    ensures HasExplicitPermission(h, r, uuid, q)
  {
    var held := Lookup(h[r].permissions, UuidToString(uuid));
    if Some(uuid) != OwnerID(h, r) {
      assert p.IsGrantedBy(held);
      GrantedBelow(p, q, held);
    }
  }

  /** So is the grant through a `[node]` entry of the permission table. */
  lemma NodeGrantMonotone(permissions: map<string, ClaimPermission>, hasPermission: string -> bool,
                          p: ClaimPermission, q: ClaimPermission)
    requires p != Edit && p != Manage && p.Rank() <= q.Rank()
    requires NodeGranted(permissions, hasPermission, p)
    ensures NodeGranted(permissions, hasPermission, q)
  {
    var k :| k in permissions && IsNode(k) && p.IsGrantedBy(Some(permissions[k])) && hasPermission(NodeName(k));
    GrantedBelow(p, q, Some(permissions[k]));
  }

  /** The explicit grants, by id or by node, are monotone below Manage. */
  lemma ExplicitMonotone(h: Heap, r: Ref, player: Option<Player>, uuid: Uuid, p: ClaimPermission, q: ClaimPermission)
    requires WellFormed(h) && r in h
    requires p != Edit && p != Manage && p.Rank() <= q.Rank()
    requires if player.Some? then PlayerHasExplicitPermission(h, r, player.value, p)
             else HasExplicitPermission(h, r, uuid, p)
    ensures if player.Some? then PlayerHasExplicitPermission(h, r, player.value, q)
            else HasExplicitPermission(h, r, uuid, q)
  {
    if player.Some? {
      if HasExplicitPermission(h, r, player.value.uniqueId, p) {
        IdGrantMonotone(h, r, player.value.uniqueId, p, q);
      } else {
        NodeGrantMonotone(h[r].permissions, player.value.hasPermission, p, q);
      }
    } else {
      IdGrantMonotone(h, r, uuid, p, q);
    }
  }

  /** The early grants are monotone below Manage: a rule that grants Build grants
      Inventory and Access, and one that grants Inventory grants Access. */
  lemma EarlyGrantMonotone(h: Heap, r: Ref, player: Option<Player>, uuid: Uuid, p: ClaimPermission,
                           q: ClaimPermission, flags: PlayerFlags)
    requires WellFormed(h) && r in h
    requires p != Edit && p != Manage && p.Rank() <= q.Rank()
    requires EarlyGrant(h, r, player, uuid, p, flags)
    ensures EarlyGrant(h, r, player, uuid, q, flags)
  {
    if if player.Some? then PlayerHasExplicitPermission(h, r, player.value, p)
       else HasExplicitPermission(h, r, uuid, p) {
      ExplicitMonotone(h, r, player, uuid, p, q);
    } else if p.IsGrantedBy(Lookup(h[r].permissions, "public")) {
      GrantedBelow(p, q, Lookup(h[r].permissions, "public"));
    }
  }

  /** Allowed Build, Inventory or Access through Build's farming rule. */
  predicate FarmingAllowed(h: Heap, r: Ref, player: Option<Player>, uuid: Uuid, permission: ClaimPermission,
                           flags: PlayerFlags, material: Option<string>)
    requires WellFormed(h) && r in h
  {
    permission == Build && material.Some? && material.value in PlaceableFarmingBlocks
    && DefaultDenial(h, r, player, uuid, Inventory, flags, material).None?
  }

  /** An allowance that no early rule and no farming rule gave came from the parent. */
  lemma AllowedByParent(h: Heap, r: Ref, player: Option<Player>, uuid: Uuid, permission: ClaimPermission,
                        flags: PlayerFlags, material: Option<string>)
    requires WellFormed(h) && r in h && permission != Edit
    requires !EarlyGrant(h, r, player, uuid, permission, flags)
    requires !FarmingAllowed(h, r, player, uuid, permission, flags, material)
    requires DefaultDenial(h, r, player, uuid, permission, flags, material).None?
    ensures h[r].parent.Some? && !h[r].inheritNothing
    ensures DefaultDenial(h, h[r].parent.value, player, uuid, permission, flags, material).None?
  {
  }

  /** Below Build, a claim with no early grant that inherits answers as its parent. */
  lemma AnswersAsParent(h: Heap, r: Ref, player: Option<Player>, uuid: Uuid, permission: ClaimPermission,
                        flags: PlayerFlags, material: Option<string>)
    requires WellFormed(h) && r in h && (permission == Inventory || permission == Access)
    requires !EarlyGrant(h, r, player, uuid, permission, flags)
    requires h[r].parent.Some? && !h[r].inheritNothing
    ensures DefaultDenial(h, r, player, uuid, permission, flags, material)
         == DefaultDenial(h, h[r].parent.value, player, uuid, permission, flags, material)
  {
  }

  /** Whoever may open containers may access: an early grant of Inventory grants Access,
      and past the early rules both levels are the parent's answer or a denial. */
  lemma {:induction false} InventoryMonotone(h: Heap, r: Ref, player: Option<Player>, uuid: Uuid,
                                             flags: PlayerFlags, material: Option<string>)
    requires WellFormed(h) && r in h
    requires DefaultDenial(h, r, player, uuid, Inventory, flags, material).None?
    ensures DefaultDenial(h, r, player, uuid, Access, flags, material).None?
    decreases Depth(h, r)
  {
    if EarlyGrant(h, r, player, uuid, Inventory, flags) {
      EarlyGrantMonotone(h, r, player, uuid, Inventory, Access, flags);
    } else if !EarlyGrant(h, r, player, uuid, Access, flags) {
      AllowedByParent(h, r, player, uuid, Inventory, flags, material);
      InventoryMonotone(h, h[r].parent.value, player, uuid, flags, material);
      AnswersAsParent(h, r, player, uuid, Access, flags, material);
    }
  }

  /** Whoever may build may open containers and access: farming allows Build only where
      Inventory is allowed, combat only denies, and an inherited Build allowance is the
      parent's, which is monotone in turn. */
  lemma {:induction false} BuildMonotone(h: Heap, r: Ref, player: Option<Player>, uuid: Uuid, q: ClaimPermission,
                                         flags: PlayerFlags, material: Option<string>)
    requires WellFormed(h) && r in h && (q == Inventory || q == Access)
    requires DefaultDenial(h, r, player, uuid, Build, flags, material).None?
    ensures DefaultDenial(h, r, player, uuid, q, flags, material).None?
    decreases Depth(h, r)
  {
    if EarlyGrant(h, r, player, uuid, Build, flags) {
      EarlyGrantMonotone(h, r, player, uuid, Build, q, flags);
    } else if FarmingAllowed(h, r, player, uuid, Build, flags, material) {
      if q == Access {
        InventoryMonotone(h, r, player, uuid, flags, material);
      }
    } else if !EarlyGrant(h, r, player, uuid, q, flags) {
      AllowedByParent(h, r, player, uuid, Build, flags, material);
      BuildMonotone(h, h[r].parent.value, player, uuid, q, flags, material);
      AnswersAsParent(h, r, player, uuid, q, flags, material);
    }
  }

  /** The monotonicity the permission levels promise: Build allowed means Inventory and
      Access allowed, and Inventory allowed means Access allowed. */
  lemma BuildImpliesWeaker(h: Heap, r: Ref, player: Option<Player>, uuid: Uuid, flags: PlayerFlags,
                           material: Option<string>)
    requires WellFormed(h) && r in h
    ensures DefaultDenial(h, r, player, uuid, Build, flags, material).None? ==>
      DefaultDenial(h, r, player, uuid, Inventory, flags, material).None?
      && DefaultDenial(h, r, player, uuid, Access, flags, material).None?
    ensures DefaultDenial(h, r, player, uuid, Inventory, flags, material).None? ==>
      DefaultDenial(h, r, player, uuid, Access, flags, material).None?
  {
    if DefaultDenial(h, r, player, uuid, Build, flags, material).None? {
      BuildMonotone(h, r, player, uuid, Inventory, flags, material);
      BuildMonotone(h, r, player, uuid, Access, flags, material);
    }
    if DefaultDenial(h, r, player, uuid, Inventory, flags, material).None? {
      InventoryMonotone(h, r, player, uuid, flags, material);
    }
  }

  /** `callPermissionCheck`: the default verdict, with a clarifying override put in
      place of a denial, handed to the event's listeners, whose final word is returned.
      Whatever the listeners do, the reason they are handed denies exactly when the
      default chain does, differs from the default only by being the override, and is
      the override whenever there is one and the default denies. */
  function CallPermissionCheck(h: Heap, r: Ref, player: Option<Player>, uuid: Uuid, permission: ClaimPermission,
                               flags: PlayerFlags, material: Option<string>, denialOverride: Option<string>,
                               listeners: Option<Denial> -> Option<Denial>): (d: Option<Denial>)
    requires WellFormed(h) && r in h
    ensures var dflt := DefaultDenial(h, r, player, uuid, permission, flags, material);
      exists reason: Option<Denial> ::
        d == listeners(reason)
        && (reason.None? <==> dflt.None?)
        && (reason != dflt ==> denialOverride.Some? && reason == Some(Override(denialOverride.value)))
        && (dflt.Some? && denialOverride.Some? ==> reason == Some(Override(denialOverride.value)))
  {
    var defaultDenial := DefaultDenial(h, r, player, uuid, permission, flags, material);
    var reason := if defaultDenial.Some? && denialOverride.Some? then Some(Override(denialOverride.value))
                  else defaultDenial;
    listeners(reason)
  }

  /** With listeners that leave the reason alone, the check allows exactly when the
      default chain allows, and an override shows only on a denial. */
  lemma OverrideOnlyReplacesDenial(h: Heap, r: Ref, player: Option<Player>, uuid: Uuid, permission: ClaimPermission,
                                   flags: PlayerFlags, material: Option<string>, denialOverride: Option<string>,
                                   listeners: Option<Denial> -> Option<Denial>)
    requires WellFormed(h) && r in h
    requires forall d :: listeners(d) == d
    ensures var d := CallPermissionCheck(h, r, player, uuid, permission, flags, material, denialOverride, listeners);
      var dflt := DefaultDenial(h, r, player, uuid, permission, flags, material);
      (d.None? <==> dflt.None?)
      && (dflt.Some? && denialOverride.Some? ==> d == Some(Override(denialOverride.value)))
      && (denialOverride.None? ==> d == dflt)
  {
  }

  // ----- location queries -----

  /** `contains(location, ignoreHeight, excludeSubdivisions)`. */
  predicate InClaim(h: Heap, r: Ref, loc: Location, ignoreHeight: bool, excludeSubdivisions: bool)
    requires WellFormed(h) && r in h
    decreases Level(h, r)
  {
    loc.world == h[r].world
    && (if ignoreHeight then h[r].bounds.Contains2d(loc.x, loc.z) else h[r].bounds.Contains(loc.x, loc.y, loc.z))
    && (excludeSubdivisions ==>
          forall i :: 0 <= i < |h[r].children| ==> !InClaim(h, h[r].children[i], loc, ignoreHeight, true))
  }

  /** `contains`, as the loop over the subdivisions runs it. */
  method Contains(h: Heap, r: Ref, loc: Location, ignoreHeight: bool, excludeSubdivisions: bool) returns (b: bool)
    requires WellFormed(h) && r in h
    ensures b == InClaim(h, r, loc, ignoreHeight, excludeSubdivisions)
    decreases Level(h, r)
  {
    var claim := h[r];
    if loc.world != claim.world {
      return false;
    }
    if ignoreHeight && !claim.bounds.Contains2d(loc.x, loc.z) {
      return false;
    } else if !ignoreHeight && !claim.bounds.Contains(loc.x, loc.y, loc.z) {
      return false;
    } else if excludeSubdivisions {
      var i := 0;
      while i < |claim.children|
        invariant 0 <= i <= |claim.children|
        invariant forall k :: 0 <= k < i ==> !InClaim(h, claim.children[k], loc, ignoreHeight, true)
      {
        var inChild := Contains(h, claim.children[i], loc, ignoreHeight, true);
        if inChild {
          return false;
        }
        i := i + 1;
      }
    }
    return true;
  }

  /** What `contains` promises: nothing in another world; the XZ test with
      `ignoreHeight`, the 3D test without; and with `excludeSubdivisions` nothing that
      a subdivision contains. */
  lemma InClaimMeans(h: Heap, r: Ref, loc: Location, ignoreHeight: bool, excludeSubdivisions: bool, i: nat)
    requires WellFormed(h) && r in h
    ensures loc.world != h[r].world ==> !InClaim(h, r, loc, ignoreHeight, excludeSubdivisions)
    ensures InClaim(h, r, loc, ignoreHeight, excludeSubdivisions) ==>
      if ignoreHeight then h[r].bounds.Contains2d(loc.x, loc.z) else h[r].bounds.Contains(loc.x, loc.y, loc.z)
    ensures excludeSubdivisions && i < |h[r].children| && InClaim(h, h[r].children[i], loc, ignoreHeight, true) ==>
      !InClaim(h, r, loc, ignoreHeight, excludeSubdivisions)
    ensures !excludeSubdivisions ==>
      (InClaim(h, r, loc, ignoreHeight, false) <==>
        loc.world == h[r].world
        && if ignoreHeight then h[r].bounds.Contains2d(loc.x, loc.z) else h[r].bounds.Contains(loc.x, loc.y, loc.z))
  {
  }

  /** `isNear`: inside the claim's box — the parent's for a subdivision — grown by
      `howNear` on every axis. The world is not compared. */
  predicate IsNear(h: Heap, r: Ref, loc: Location, howNear: int32)
    requires WellFormed(h) && r in h
    requires NearBounds(h, r).CanExpand3(howNear, howNear, howNear)
  {
    NearBounds(h, r).Expand3(howNear, howNear, howNear).Contains(loc.x, loc.y, loc.z)
  }

  function NearBounds(h: Heap, r: Ref): Box
    requires WellFormed(h) && r in h
  {
    if h[r].parent.Some? then h[h[r].parent.value].bounds else h[r].bounds
  }

  /** Whatever lies in the (top-level) box is near it for any non-negative distance. */
  lemma InsideIsNear(h: Heap, r: Ref, loc: Location, howNear: int32)
    requires WellFormed(h) && r in h
    requires NearBounds(h, r).CanExpand3(howNear, howNear, howNear) && howNear >= 0
    requires NearBounds(h, r).Contains(loc.x, loc.y, loc.z)
    ensures IsNear(h, r, loc, howNear)
  {
    Expand3Grows(NearBounds(h, r), howNear, howNear, howNear);
  }

  // ----- the permission tables -----

  /** `ArrayList.remove(Object)`: drops the first occurrence, if any. */
  function RemoveFirst<T(==)>(s: seq<T>, x: T): (r: seq<T>)
    ensures x !in s ==> r == s
    ensures x in s ==> |r| == |s| - 1
    decreases |s|
  {
    if |s| == 0 then s
    else
      assert s == [s[0]] + s[1..];
      if s[0] == x then s[1..]
      else [s[0]] + RemoveFirst(s[1..], x)
  }

  /** `ArrayList.remove(Object)` takes away exactly one occurrence, when there is one. */
  lemma {:induction false} RemoveFirstMultiset<T>(s: seq<T>, x: T)
    ensures multiset(RemoveFirst(s, x)) == multiset(s) - multiset{x}
    decreases |s|
  {
    if |s| > 0 {
      assert s == [s[0]] + s[1..];
      if s[0] != x {
        RemoveFirstMultiset(s[1..], x);
      }
    }
  }

  /** The effect `dropPermission` has on one claim: the id leaves the table and one
      occurrence leaves the manager list. */
  function DropOne(c: Claim, id: string): (r: Claim)
    ensures id !in r.permissions && r.permissions == c.permissions - {id}
    ensures multiset(r.managers) == multiset(c.managers) - multiset{id}
    ensures r == c.(permissions := r.permissions, managers := r.managers)
  {
    RemoveFirstMultiset(c.managers, id);
    c.(permissions := c.permissions - {id}, managers := RemoveFirst(c.managers, id))
  }

  /** The effect `clearPermissions` has on one claim. */
  function ClearOne(c: Claim): (r: Claim)
    ensures r.permissions == map[] && r.managers == []
    ensures r == c.(permissions := r.permissions, managers := r.managers)
  {
    c.(permissions := map[], managers := [])
  }

  /** The claim and its subdivisions. */
  function Family(h: Heap, r: Ref): (s: set<Ref>)
    requires r in h
    ensures forall q :: q in s <==> q == r || q in h[r].children
  {
    {r} + set q | q in h[r].children
  }

  /** The heap with every claim of `s` dropped of `id` once. */
  function DropIn(h: Heap, s: set<Ref>, id: string): (h': Heap)
    ensures h'.Keys == h.Keys
    ensures forall q :: q in h ==> h'[q] == if q in s then DropOne(h[q], id) else h[q]
  {
    map q | q in h :: if q in s then DropOne(h[q], id) else h[q]
  }

  /** The heap with every claim of `s` cleared. */
  function ClearIn(h: Heap, s: set<Ref>): (h': Heap)
    ensures h'.Keys == h.Keys
    ensures forall q :: q in h ==> h'[q] == if q in s then ClearOne(h[q]) else h[q]
  {
    map q | q in h :: if q in s then ClearOne(h[q]) else h[q]
  }

  /** The heap after `dropPermission(id)` on r: the claim and each subdivision dropped
      once, everything else untouched. */
  function Dropped(h: Heap, r: Ref, id: string): (h': Heap)
    requires r in h
    ensures h'.Keys == h.Keys
    ensures forall q :: q in h ==> h'[q] == if q == r || q in h[r].children then DropOne(h[q], id) else h[q]
  {
    DropIn(h, Family(h, r), id)
  }

  /** The heap after `clearPermissions` on r. */
  function Cleared(h: Heap, r: Ref): (h': Heap)
    requires r in h
    ensures h'.Keys == h.Keys
    ensures forall q :: q in h ==> h'[q] == if q == r || q in h[r].children then ClearOne(h[q]) else h[q]
  {
    ClearIn(h, Family(h, r))
  }

  /** A subdivision has no subdivisions, and a claim is not its own subdivision. */
  lemma ChildShape(h: Heap, r: Ref, i: nat)
    requires WellFormed(h) && r in h && i < |h[r].children|
    ensures h[r].children[i] != r
    ensures h[h[r].children[i]].children == []
    ensures h[r].parent.None?
    ensures h[r].children[i] !in h[r].children[..i]
  {
    var kids := h[r].children;
    forall j | 0 <= j < i
      ensures kids[..i][j] != kids[i]
    {
    }
  }

  lemma TakeOneMore<T>(s: seq<T>, i: nat)
    requires i < |s|
    ensures s[..i + 1] == s[..i] + [s[i]]
    ensures forall x :: x in s[..i + 1] <==> x in s[..i] || x == s[i]
  {
    assert s[..i + 1] == s[..i] + [s[i]];
  }

  /** On a claim without subdivisions, dropping touches that claim alone. */
  lemma DroppedLeaf(h: Heap, q: Ref, id: string)
    requires q in h && h[q].children == []
    ensures Dropped(h, q, id) == h[q := DropOne(h[q], id)]
  {
  }

  lemma ClearedLeaf(h: Heap, q: Ref)
    requires q in h && h[q].children == []
    ensures Cleared(h, q) == h[q := ClearOne(h[q])]
  {
  }

  /** Dropping one more claim, not yet dropped, extends the dropped set. */
  lemma DropInStep(h: Heap, h': Heap, s: set<Ref>, q: Ref, id: string)
    requires q in h && q !in s && h' == DropIn(h, s, id)
    ensures h'[q := DropOne(h'[q], id)] == DropIn(h, s + {q}, id)
  {
  }

  lemma ClearInStep(h: Heap, h': Heap, s: set<Ref>, q: Ref)
    requires q in h && q !in s && h' == ClearIn(h, s)
    ensures h'[q := ClearOne(h'[q])] == ClearIn(h, s + {q})
  {
  }

  /** Dropping keeps every object and every link. */
  lemma DropInLinks(h: Heap, s: set<Ref>, id: string)
    requires WellFormed(h)
    ensures SameLinks(h, DropIn(h, s, id)) && WellFormed(DropIn(h, s, id))
  {
    SameLinksWellFormed(h, DropIn(h, s, id));
  }

  lemma ClearInLinks(h: Heap, s: set<Ref>)
    requires WellFormed(h)
    ensures SameLinks(h, ClearIn(h, s)) && WellFormed(ClearIn(h, s))
  {
    SameLinksWellFormed(h, ClearIn(h, s));
  }

  /** One round of the child loop of `dropPermission`: the i-th subdivision is a leaf
      of the partly dropped heap, and dropping it there extends the dropped set. */
  lemma DropNext(h: Heap, h': Heap, r: Ref, kids: seq<Ref>, done: set<Ref>, i: nat, id: string)
    requires WellFormed(h) && r in h && kids == h[r].children && i < |kids|
    requires forall q :: q in done <==> q == r || q in kids[..i]
    requires h' == DropIn(h, done, id) && ToLower(id) == id
    ensures WellFormed(h') && kids[i] in h' && Level(h', kids[i]) < Level(h, r)
    ensures Dropped(h', kids[i], ToLower(id)) == DropIn(h, done + {kids[i]}, id)
    ensures forall q :: q in done + {kids[i]} <==> q == r || q in kids[..i + 1]
  {
    ChildShape(h, r, i);
    DropInLinks(h, done, id);
    DroppedLeaf(h', kids[i], id);
    DropInStep(h, h', done, kids[i], id);
    TakeOneMore(kids, i);
  }

  /** Before the child loop of `dropPermission`: only the claim itself is dropped. */
  lemma DropStart(h: Heap, r: Ref, kids: seq<Ref>, id: string)
    requires r in h && kids == h[r].children
    ensures h[r := DropOne(h[r], id)] == DropIn(h, {r}, id)
    ensures forall q :: q in {r} <==> q == r || q in kids[..0]
  {
    var d := DropIn(h, {r}, id);
    var e := h[r := DropOne(h[r], id)];
    forall q | q in h
      ensures d[q] == e[q]
    {
    }
    assert d.Keys == e.Keys;
  }

  /** After the child loop of `dropPermission`: the claim and all its subdivisions. */
  lemma DropDone(h: Heap, h': Heap, r: Ref, kids: seq<Ref>, done: set<Ref>, id: string)
    requires WellFormed(h) && r in h && kids == h[r].children
    requires forall q :: q in done <==> q == r || q in kids[..|kids|]
    requires h' == DropIn(h, done, id)
    ensures h' == Dropped(h, r, id) && SameLinks(h, h') && WellFormed(h')
  {
    assert kids[..|kids|] == kids;
    assert done == Family(h, r);
    DropInLinks(h, done, id);
  }

  /** `dropPermission`: lower-cases the id, drops it here and recurses into every
      subdivision. */
  method DropPermission(h: Heap, r: Ref, playerID: string) returns (h': Heap)
    requires WellFormed(h) && r in h
    ensures h' == Dropped(h, r, ToLower(playerID))
    ensures SameLinks(h, h') && WellFormed(h')
    decreases Level(h, r)
  {
    var id := ToLower(playerID);
    ToLowerIdempotent(playerID);
    var kids := h[r].children;
    DropStart(h, r, kids, id);
    h' := h[r := DropOne(h[r], id)];
    ghost var done: set<Ref> := {r};
    var i := 0;
    while i < |kids|
      invariant 0 <= i <= |kids|
      invariant forall q :: q in done <==> q == r || q in kids[..i]
      invariant h' == DropIn(h, done, id)
    {
      DropNext(h, h', r, kids, done, i, id);
      h' := DropPermission(h', kids[i], id);
      done := done + {kids[i]};
      i := i + 1;
    }
    DropDone(h, h', r, kids, done, id);
  }

  /** One round of the child loop of `clearPermissions`. */
  lemma ClearNext(h: Heap, h': Heap, r: Ref, kids: seq<Ref>, done: set<Ref>, i: nat)
    requires WellFormed(h) && r in h && kids == h[r].children && i < |kids|
    requires forall q :: q in done <==> q == r || q in kids[..i]
    requires h' == ClearIn(h, done)
    ensures WellFormed(h') && kids[i] in h' && Level(h', kids[i]) < Level(h, r)
    ensures Cleared(h', kids[i]) == ClearIn(h, done + {kids[i]})
    ensures forall q :: q in done + {kids[i]} <==> q == r || q in kids[..i + 1]
  {
    ChildShape(h, r, i);
    ClearInLinks(h, done);
    ClearedLeaf(h', kids[i]);
    ClearInStep(h, h', done, kids[i]);
    TakeOneMore(kids, i);
  }

  /** `clearPermissions`: empties both tables here and in every subdivision. */
  method ClearPermissions(h: Heap, r: Ref) returns (h': Heap)
    requires WellFormed(h) && r in h
    ensures h' == Cleared(h, r)
    ensures SameLinks(h, h') && WellFormed(h')
    decreases Level(h, r)
  {
    ClearInStep(h, ClearIn(h, {}), {}, r);
    assert h == ClearIn(h, {});
    h' := h[r := ClearOne(h[r])];
    var kids := h[r].children;
    ghost var done: set<Ref> := {r};
    var i := 0;
    while i < |kids|
      invariant 0 <= i <= |kids|
      invariant forall q :: q in done <==> q == r || q in kids[..i]
      invariant h' == ClearIn(h, done)
    {
      ClearNext(h, h', r, kids, done, i);
      h' := ClearPermissions(h', kids[i]);
      done := done + {kids[i]};
      i := i + 1;
    }
    assert kids[..i] == kids;
    assert done == Family(h, r);
    ClearInLinks(h, done);
  }

  /** `setPermission(id, level)`: Edit is refused with an exception; a null or empty id
      changes nothing; `null` drops the id; Manage appends the lower-cased id to the
      manager list; any other level is stored under the lower-cased id. */
  method SetPermission(h: Heap, r: Ref, playerID: Option<string>, level: Option<ClaimPermission>)
    returns (res: Result<Heap, string>)
    requires WellFormed(h) && r in h
    ensures res.Failure? <==> level == Some(Edit)
    ensures res.Success? ==> SameLinks(h, res.value) && WellFormed(res.value)
    ensures res.Success? && (playerID.None? || playerID.value == "") ==> res.value == h
    ensures res.Success? && playerID.Some? && playerID.value != "" ==>
      var id := ToLower(playerID.value);
      res.value == match level
        case None => Dropped(h, r, id)
        case Some(Manage) => h[r := h[r].(managers := h[r].managers + [id])]
        case Some(p) => h[r := h[r].(permissions := h[r].permissions[id := p])]
  {
    if level == Some(Edit) {
      return Failure("Cannot add editors!");
    }
    if playerID.None? || playerID.value == "" {
      return Success(h);
    }
    var id := ToLower(playerID.value);
    if level.None? {
      var h' := DropPermission(h, r, playerID.value);
      return Success(h');
    } else if level.value == Manage {
      var h' := h[r := h[r].(managers := h[r].managers + [id])];
      assert SameLinks(h, h');
      SameLinksWellFormed(h, h');
      return Success(h');
    } else {
      var h' := h[r := h[r].(permissions := h[r].permissions[id := level.value])];
      assert SameLinks(h, h');
      SameLinksWellFormed(h, h');
      return Success(h');
    }
  }

  /** After trusting a player's id at Build, Inventory or Access, `getPermission` of that
      id answers the level, and the player holds it explicitly. */
  lemma TrustIsExplicit(h: Heap, r: Ref, u: Uuid, level: ClaimPermission)
    requires WellFormed(h) && r in h
    requires level in {Build, Inventory, Access}
    ensures var id := UuidToString(u);
      var h' := h[r := h[r].(permissions := h[r].permissions[ToLower(id) := level])];
      WellFormed(h')
      && h'[r].GetPermission(Some(id)) == Some(level)
      && HasExplicitPermission(h', r, u, level)
  {
    var id := UuidToString(u);
    var h' := h[r := h[r].(permissions := h[r].permissions[ToLower(id) := level])];
    assert SameLinks(h, h');
    SameLinksWellFormed(h, h');
    LowerCaseFixed(id);
    assert Lookup(h'[r].permissions, id) == Some(level);
  }

  /** After `dropPermission(id)`, neither the claim nor any subdivision stores a level
      for the lower-cased id. */
  lemma DroppedEverywhere(h: Heap, r: Ref, id: string)
    requires WellFormed(h) && r in h
    ensures var h' := Dropped(h, r, ToLower(id));
      ToLower(id) !in h'[r].permissions
      && forall i :: 0 <= i < |h[r].children| ==> ToLower(id) !in h'[h[r].children[i]].permissions
  {
  }

  /** `getPermissions`: appends each stored id to the builders, containers or accessors
      list by its level (every level other than Build and Inventory counts as
      accessor), in the table's iteration order, then appends the manager list. */
  method GetPermissions(c: Claim, builders: seq<string>, containers: seq<string>, accessors: seq<string>,
                        managers: seq<string>)
    returns (b: seq<string>, ct: seq<string>, a: seq<string>, m: seq<string>)
    ensures |b| >= |builders| && |ct| >= |containers| && |a| >= |accessors|
    ensures b[..|builders|] == builders && ct[..|containers|] == containers && a[..|accessors|] == accessors
    ensures forall k :: k in b[|builders|..] <==> k in c.permissions && c.permissions[k] == Build
    ensures forall k :: k in ct[|containers|..] <==> k in c.permissions && c.permissions[k] == Inventory
    ensures forall k :: k in a[|accessors|..] <==>
      k in c.permissions && c.permissions[k] != Build && c.permissions[k] != Inventory
    ensures (|b| - |builders|) + (|ct| - |containers|) + (|a| - |accessors|) == |c.permissions|
    ensures m == managers + c.managers
  {
    var nb, nc, na := [], [], [];
    var rest := c.permissions.Keys;
    ghost var done: set<string> := {};
    while rest != {}
      invariant rest + done == c.permissions.Keys && rest !! done
      invariant forall k :: k in nb <==> k in done && c.permissions[k] == Build
      invariant forall k :: k in nc <==> k in done && c.permissions[k] == Inventory
      invariant forall k :: k in na <==> k in done && c.permissions[k] != Build && c.permissions[k] != Inventory
      invariant |nb| + |nc| + |na| == |done|
      decreases |rest|
    {
      var k :| k in rest;
      if c.permissions[k] == Build {
        nb := nb + [k];
      } else if c.permissions[k] == Inventory {
        nc := nc + [k];
      } else {
        na := na + [k];
      }
      rest := rest - {k};
      done := done + {k};
    }
    b, ct, a := builders + nb, containers + nc, accessors + na;
    assert b[|builders|..] == nb && ct[|containers|..] == nc && a[|accessors|..] == na;
    m := managers + c.managers;
  }
}
