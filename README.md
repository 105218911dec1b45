# GriefPrevention claim core, modelled in Dafny

GriefPrevention protects land on a Minecraft server. A player marks out a claim,
an axis-aligned box of blocks, and decides who may build, open containers or use
doors inside it. A top-level claim can hold subdivisions. A subdivision lies inside
its parent and inherits the parent's permissions.

This project models the in-memory core of that system and proves properties of the
model:

- **`BoundingBox`, the box type.** `Box` is the value of the six inclusive bounds
  (`bounding_box.dfy`). The class `BoundingBox` has six `int32` fields, and its
  methods overwrite them in place as the Java methods do.
- **`Claim`.** This covers its geometry, its permission tables, the default
  permission chain (`getDefaultDenial`), ban inheritance and the permission
  mutators (`claim.dfy`). Claim objects live in a heap from references to claim
  values. That way a parent and its subdivisions can point at each other as the
  Java objects do.
- **The claim half of `DataStore`.**
  - The pure model is `Store`, a value holding the heap, the top-level claim list,
    the chunk index (`chunksToClaimsMap`) and the id counter. Each operation is a
    function over it: `store.dfy`, `chunk_index.dfy`, `creation.dfy`, `depth.dfy`,
    `resize.dfy`, `lookups.dfy`, `purge.dfy`, `deletion.dfy` and `transfer.dfy`.
  - The class `DataStores.DataStore` (`data_store.dfy`) holds the same state in
    fields. Its methods run the Java loops, and each one's `ensures` ties the new
    state to the function that specifies it.
  - Location strings (`locations.dfy`), soft mutes and group bonus blocks
    (`records.dfy`) and message substitution (`messages.dfy`) are modelled too.
- **The utilities.** These are `StringUtil.enumNameToCamelCase`,
  `UUIDUtil.fastRandomUUID`, `Registry`, `DefaultedRegistry` and `HashSetTag`.
- **The Java library operations the core relies on.** These are `int` and `long`
  arithmetic, `String.split`, `Integer.parseInt`/`toString`, `toLowerCase` and
  `replace`. They are in `java_int.dfy` and `java_string.dfy`.

Several things the claim code reads from the server are parameters of the model:

- the world border test;
- the listeners of the creation, extension, transfer and permission-check events;
- the player-data flags;
- the configuration: the maximum depth, the distance claims extend into the ground,
  and which worlds are in creative mode.

Integers are unbounded in Dafny. The model therefore states Java's 32-bit and 64-bit
arithmetic explicitly wherever the source relies on it.

## Model

A row that says "definition of" names a function that transcribes the Java code; what its result means is stated by the lemmas the row lists, which have rows of their own.
`Indexed` is the index completeness the Java code relies on: every claim of the list that is in the store is in the bucket of each chunk it touches. The `Indexing` lemmas show that every store operation keeps it.

| member | source | states |
|---|---|---|
| BoundingBoxes.Box.Length | src/main/java/me/ryanhamshire/GriefPrevention/util/BoundingBox.java:360-363 | the X size is max - min + 1 modulo 2^32, and at least 1 for a normalised box whose size fits in an `int` |
| BoundingBoxes.Box.Height | src/main/java/me/ryanhamshire/GriefPrevention/util/BoundingBox.java:370-373 | the Y size, the same way |
| BoundingBoxes.Box.Width | src/main/java/me/ryanhamshire/GriefPrevention/util/BoundingBox.java:380-383 | the Z size, the same way |
| BoundingBoxes.Box.Area | src/main/java/me/ryanhamshire/GriefPrevention/util/BoundingBox.java:444-447 | the base area is the exact product of length and width, since widening one factor to `long` cannot overflow |
| BoundingBoxes.Box.Volume | src/main/java/me/ryanhamshire/GriefPrevention/util/BoundingBox.java:454-457 | the volume is area times height modulo 2^64 |
| BoundingBoxes.Box.Intersection | src/main/java/me/ryanhamshire/GriefPrevention/util/BoundingBox.java:995-1007 | null exactly when the boxes do not intersect; otherwise a box inside both, normalised when both are, whose points are exactly the common points |
| BoundingBoxes.Box.WithX | src/main/java/me/ryanhamshire/GriefPrevention/util/BoundingBox.java:245-253 | the X bounds become the two values in order, and nothing else changes |
| BoundingBoxes.Box.WithY | src/main/java/me/ryanhamshire/GriefPrevention/util/BoundingBox.java:255-263 | the Y bounds become the two values in order, and nothing else changes |
| BoundingBoxes.Box.WithZ | src/main/java/me/ryanhamshire/GriefPrevention/util/BoundingBox.java:265-273 | the Z bounds become the two values in order, and nothing else changes |
| BoundingBoxes.Box.ExpandX | src/main/java/me/ryanhamshire/GriefPrevention/util/BoundingBox.java:555-560 | both X bounds move outwards by x; a negative x re-orders the axis; Y and Z stay |
| BoundingBoxes.Box.ExpandY | src/main/java/me/ryanhamshire/GriefPrevention/util/BoundingBox.java:562-567 | the same on the Y axis |
| BoundingBoxes.Box.ExpandZ | src/main/java/me/ryanhamshire/GriefPrevention/util/BoundingBox.java:569-574 | the same on the Z axis |
| BoundingBoxes.Box.Expand | src/main/java/me/ryanhamshire/GriefPrevention/util/BoundingBox.java:489-497 | the six-amount expand always yields a normalised box |
| BoundingBoxes.Box.SetClamped | src/main/java/me/ryanhamshire/GriefPrevention/util/BoundingBox.java:591-600 | in a clamped `set`, each new min is capped by the old max and each new max floored by the old min; a requested bound on the right side of the old box is taken as it is |
| BoundingBoxes.Box.Move | src/main/java/me/ryanhamshire/GriefPrevention/util/BoundingBox.java:669-672 | moving yields a normalised box |
| BoundingBoxes.Box.UnionPoint | src/main/java/me/ryanhamshire/GriefPrevention/util/BoundingBox.java:682-691 | per axis, the min and max with the point |
| BoundingBoxes.Box.UnionBox | src/main/java/me/ryanhamshire/GriefPrevention/util/BoundingBox.java:743-752 | per axis, the min and max with the other box |
| BoundingBoxes.Box.Contains2d | src/main/java/me/ryanhamshire/GriefPrevention/util/BoundingBox.java:763-778 | definition of `contains2d(x, z)`: the column lies within the X and Z bounds; ContainsImplies2d and IntersectsMeansCommonPoint state what follows from it |
| BoundingBoxes.Box.Contains | src/main/java/me/ryanhamshire/GriefPrevention/util/BoundingBox.java:879-896 | definition of `contains(x, y, z)`: the point lies within all six bounds; ContainsBoxMeansAllPoints relates it to box containment |
| BoundingBoxes.Box.ContainsBox | src/main/java/me/ryanhamshire/GriefPrevention/util/BoundingBox.java:964-967 | definition of `contains(BoundingBox)`; ContainsBoxMeansAllPoints, ContainsBoxReflexive and ContainsBoxTransitive state its meaning |
| BoundingBoxes.Box.Contains2dBox | src/main/java/me/ryanhamshire/GriefPrevention/util/BoundingBox.java:863-866 | definition of `contains2d(BoundingBox)`; ContainsImplies2d states that 3D containment implies it |
| BoundingBoxes.Box.Intersects | src/main/java/me/ryanhamshire/GriefPrevention/util/BoundingBox.java:975-981 | definition of `intersects`; IntersectsSymmetric and IntersectsMeansCommonPoint state its meaning |
| BoundingBoxes.Box.Intersects2d | src/main/java/me/ryanhamshire/GriefPrevention/util/BoundingBox.java:983-987 | definition of `intersects2d`; IntersectsSymmetric and IntersectsMeansCommonPoint state its meaning on columns |
| BoundingBoxes.Normalise | src/main/java/me/ryanhamshire/GriefPrevention/util/BoundingBox.java:239-243 | the result is normalised, and each axis holds the min and the max of the two values |
| BoundingBoxes.OfPoint | src/main/java/me/ryanhamshire/GriefPrevention/util/BoundingBox.java:204-207 | the single-block box contains exactly that block |
| BoundingBoxes.ProductOfIntsFitsLong | src/main/java/me/ryanhamshire/GriefPrevention/util/BoundingBox.java:446 | the product of two `int`s always fits in a `long` |
| BoundingBoxes.ContainsBoxMeansAllPoints | src/main/java/me/ryanhamshire/GriefPrevention/util/BoundingBox.java:964-967 | `contains(box)` holds exactly when every point of the (normalised) other box is contained |
| BoundingBoxes.ContainsRegionMeans | src/main/java/me/ryanhamshire/GriefPrevention/util/BoundingBox.java:953-956 | `contains(x1, y1, z1, x2, y2, z2)` holds exactly when every block between the corners, taken in either order, is in the box |
| BoundingBoxes.Contains2dRectMeans | src/main/java/me/ryanhamshire/GriefPrevention/util/BoundingBox.java:833-853 | `contains2d(x1, z1, x2, z2)` holds exactly when every column between the corners, taken in either order, is in the box |
| BoundingBoxes.Box.ContainsRegion | src/main/java/me/ryanhamshire/GriefPrevention/util/BoundingBox.java:953-956 | definition of `contains(x1, y1, z1, x2, y2, z2)`, `ContainsBox` of the normalised corners; ContainsRegionMeans states its meaning |
| BoundingBoxes.Box.Contains2dRect | src/main/java/me/ryanhamshire/GriefPrevention/util/BoundingBox.java:833-853 | definition of `contains2d(x1, z1, x2, z2)`, `Contains2dBox` of the ordered corners; Contains2dRectMeans states its meaning |
| BoundingBoxes.Box.ContainsPoint | src/main/java/me/ryanhamshire/GriefPrevention/util/BoundingBox.java:904-940 | definition of `contains(IntVector)`, `contains(Location)` and `contains(Block)`, the test on the point's three block coordinates; OfPoint and BoundingLeast state their results with it |
| BoundingBoxes.ContainsBoxReflexive | src/main/java/me/ryanhamshire/GriefPrevention/util/BoundingBox.java:964-967 | a box contains itself |
| BoundingBoxes.ContainsBoxTransitive | src/main/java/me/ryanhamshire/GriefPrevention/util/BoundingBox.java:964-967 | containment of boxes chains |
| BoundingBoxes.ContainsImplies2d | src/main/java/me/ryanhamshire/GriefPrevention/util/BoundingBox.java:863-866 | 3D containment implies XZ containment |
| BoundingBoxes.IntersectsSymmetric | src/main/java/me/ryanhamshire/GriefPrevention/util/BoundingBox.java:975-987 | both `intersects` and `intersects2d` are symmetric |
| BoundingBoxes.IntersectsMeansCommonPoint | src/main/java/me/ryanhamshire/GriefPrevention/util/BoundingBox.java:975-987 | for normalised boxes, `intersects` holds exactly when they share a block, and `intersects2d` exactly when they share a column |
| BoundingBoxes.UnionPointLeast | src/main/java/me/ryanhamshire/GriefPrevention/util/BoundingBox.java:682-691 | union with a point is the least box containing the old box and the point |
| BoundingBoxes.UnionBoxLeast | src/main/java/me/ryanhamshire/GriefPrevention/util/BoundingBox.java:743-752 | union is the least box containing both, and normalised when the first box is |
| BoundingBoxes.MoveShifts | src/main/java/me/ryanhamshire/GriefPrevention/util/BoundingBox.java:669-672 | moving a normalised box shifts both corners by the delta, keeps every size, and moves every contained point by the delta |
| BoundingBoxes.ExpandGrows | src/main/java/me/ryanhamshire/GriefPrevention/util/BoundingBox.java:489-497 | expanding a normalised box by non-negative amounts gives exactly the pushed-out bounds, and the result contains the old box |
| BoundingBoxes.Expand3Grows | src/main/java/me/ryanhamshire/GriefPrevention/util/BoundingBox.java:548-553 | the same for `expand(x, y, z)` |
| BoundingBoxes.Expand3Normalised | src/main/java/me/ryanhamshire/GriefPrevention/util/BoundingBox.java:548-574 | `expand(x, y, z)` keeps a normalised box normalised, whatever the signs of the amounts |
| BoundingBoxes.SetClampedInside | src/main/java/me/ryanhamshire/GriefPrevention/util/BoundingBox.java:591-612 | a clamped `set` to an ordered box inside the current one gives exactly that box |
| BoundingBoxes.SizesOfSmallBox | src/main/java/me/ryanhamshire/GriefPrevention/util/BoundingBox.java:360-457 | without overflow, the sizes are max - min + 1, the area is length × width and the volume is length × width × height |
| BoundingBoxes.Bounding | src/main/java/me/ryanhamshire/GriefPrevention/util/BoundingBox.java:38-54 | the box `ofBlocks` builds is normalised |
| BoundingBoxes.BoundingLeast | src/main/java/me/ryanhamshire/GriefPrevention/util/BoundingBox.java:38-54 | the box `ofBlocks` builds contains every block and is the least box that does |
| BoundingBoxes.OfBlocks | src/main/java/me/ryanhamshire/GriefPrevention/util/BoundingBox.java:38-54 | fails exactly on an empty collection; otherwise a fresh box equal to `Bounding(blocks)` |
| BoundingBoxes.BoundingBox.constructor | src/main/java/me/ryanhamshire/GriefPrevention/util/BoundingBox.java:137-140 | the public constructor normalises its corners |
| BoundingBoxes.BoundingBox.Init | src/main/java/me/ryanhamshire/GriefPrevention/util/BoundingBox.java:111-125 | the protected constructor normalises when `verify` is set and stores the corners as given otherwise |
| BoundingBoxes.BoundingBox.OfBlock | src/main/java/me/ryanhamshire/GriefPrevention/util/BoundingBox.java:204-207 | the `Block` constructor holds the single block |
| BoundingBoxes.BoundingBox.Copy | src/main/java/me/ryanhamshire/GriefPrevention/util/BoundingBox.java:465-473 | `copy(other)` takes the other box's six bounds |
| BoundingBoxes.BoundingBox.Assign | src/main/java/me/ryanhamshire/GriefPrevention/util/BoundingBox.java:480-482 | `copy(claim)`: the box takes the six bounds of the claim's box value, and nothing else of it remains |
| BoundingBoxes.BoundingBox.Expand | src/main/java/me/ryanhamshire/GriefPrevention/util/BoundingBox.java:489-497 | the fields become `Box.Expand` of the old fields |
| BoundingBoxes.BoundingBox.ExpandX | src/main/java/me/ryanhamshire/GriefPrevention/util/BoundingBox.java:555-560 | the fields become `Box.ExpandX` of the old fields |
| BoundingBoxes.BoundingBox.ExpandY | src/main/java/me/ryanhamshire/GriefPrevention/util/BoundingBox.java:562-567 | the fields become `Box.ExpandY` of the old fields |
| BoundingBoxes.BoundingBox.ExpandZ | src/main/java/me/ryanhamshire/GriefPrevention/util/BoundingBox.java:569-574 | the fields become `Box.ExpandZ` of the old fields |
| BoundingBoxes.BoundingBox.Expand3 | src/main/java/me/ryanhamshire/GriefPrevention/util/BoundingBox.java:548-553 | the three axis expansions, in order |
| BoundingBoxes.BoundingBox.ExpandAll | src/main/java/me/ryanhamshire/GriefPrevention/util/BoundingBox.java:544-546 | `expand(int)` is `expand(e, e, e)` |
| BoundingBoxes.BoundingBox.SetX | src/main/java/me/ryanhamshire/GriefPrevention/util/BoundingBox.java:576-579 | the fields become `Box.WithX` of the old fields |
| BoundingBoxes.BoundingBox.SetY | src/main/java/me/ryanhamshire/GriefPrevention/util/BoundingBox.java:581-584 | the fields become `Box.WithY` of the old fields |
| BoundingBoxes.BoundingBox.SetZ | src/main/java/me/ryanhamshire/GriefPrevention/util/BoundingBox.java:586-589 | the fields become `Box.WithZ` of the old fields |
| BoundingBoxes.BoundingBox.Set | src/main/java/me/ryanhamshire/GriefPrevention/util/BoundingBox.java:591-612 | with `clamp`, the clamped box; without it, the normalised box of the six values |
| BoundingBoxes.BoundingBox.Resize | src/main/java/me/ryanhamshire/GriefPrevention/util/BoundingBox.java:618-626 | the fields become the normalised box of the corners |
| BoundingBoxes.BoundingBox.Move | src/main/java/me/ryanhamshire/GriefPrevention/util/BoundingBox.java:669-672 | the fields become `Box.Move` of the old fields |
| BoundingBoxes.BoundingBox.UnionPoint | src/main/java/me/ryanhamshire/GriefPrevention/util/BoundingBox.java:682-691 | the fields become `Box.UnionPoint` of the old fields |
| BoundingBoxes.BoundingBox.UnionBox | src/main/java/me/ryanhamshire/GriefPrevention/util/BoundingBox.java:743-752 | the fields become `Box.UnionBox` of the old fields and the other box |
| BoundingBoxes.BoundingBox.Intersection | src/main/java/me/ryanhamshire/GriefPrevention/util/BoundingBox.java:995-1007 | null exactly when the boxes do not intersect; otherwise a fresh box holding `Box.Intersection` |
| BoundingBoxes.BoundingBox.Clone | src/main/java/me/ryanhamshire/GriefPrevention/util/BoundingBox.java:1043-1053 | a fresh box with the same bounds |
| BoundingBoxes.BoundingBox.Equals | src/main/java/me/ryanhamshire/GriefPrevention/util/BoundingBox.java:1010-1022 | definition of `equals`: two boxes are equal exactly when their six bounds are |
| ChunkIndex.ChunkHash | src/main/java/me/ryanhamshire/GriefPrevention/DataStore.java:817-821 | the low 32 bits of the hash are chunkz; the high word is chunkx, inverted when chunkz is negative |
| ChunkIndex.ChunkHashInjective | src/main/java/me/ryanhamshire/GriefPrevention/DataStore.java:817-821 | two different chunks never share a hash |
| ChunkIndex.ChunkHashLowBits | src/main/java/me/ryanhamshire/GriefPrevention/DataStore.java:817-821 | the hash's low word gives chunkz back |
| ChunkIndex.ChunkHashesExactlyOnce | src/main/java/me/ryanhamshire/GriefPrevention/DataStore.java:837-853 | `getChunkHashes(box)` lists each chunk the box's XZ extent touches exactly once, and nothing else |
| ChunkIndex.ChunkHashes | src/main/java/me/ryanhamshire/GriefPrevention/DataStore.java:837-853 | definition of `getChunkHashes`, the chunk columns row by row; ChunkHashesExactlyOnce and LocationChunkListed state what it lists |
| ChunkIndex.LocationChunkListed | src/main/java/me/ryanhamshire/GriefPrevention/DataStore.java:823-826 | the chunk of any block in the box's columns is among the box's chunk hashes |
| ChunkIndex.GetChunkHashes | src/main/java/me/ryanhamshire/GriefPrevention/DataStore.java:837-853 | the nested loop returns exactly `ChunkHashes(box)` |
| ChunkIndex.AddHashesCovers | src/main/java/me/ryanhamshire/GriefPrevention/DataStore.java:475-491 | after the add loop, the claim is in the bucket of every hash |
| ChunkIndex.AddHashesElsewhere | src/main/java/me/ryanhamshire/GriefPrevention/DataStore.java:475-491 | the add loop changes no other bucket |
| ChunkIndex.AddHashesOnce | src/main/java/me/ryanhamshire/GriefPrevention/DataStore.java:475-491 | with distinct hashes, each bucket gains the claim exactly once, at its end |
| ChunkIndex.AddHashesNonEmpty | src/main/java/me/ryanhamshire/GriefPrevention/DataStore.java:475-491 | the add loop never leaves a bucket empty |
| ChunkIndex.RemoveFirstWithId | src/main/java/me/ryanhamshire/GriefPrevention/DataStore.java:500-508 | the first claim with the id leaves the bucket, and the rest stays in order |
| ChunkIndex.RemoveFirstWithIdTakes | src/main/java/me/ryanhamshire/GriefPrevention/DataStore.java:500-508 | when the bucket holds r and no other claim with r's id, exactly r leaves |
| ChunkIndex.RemoveFirstWithIdKeeps | src/main/java/me/ryanhamshire/GriefPrevention/DataStore.java:500-508 | a claim of the bucket whose id differs from the target stays in the bucket |
| ChunkIndex.RemoveOnlyWithId | src/main/java/me/ryanhamshire/GriefPrevention/DataStore.java:500-508 | when at most one claim of the bucket has the id, none with it is left |
| ChunkIndex.RemoveHashes | src/main/java/me/ryanhamshire/GriefPrevention/DataStore.java:493-516 | every claim the index holds after the remove loop is still an object of the heap |
| ChunkIndex.RemoveHashesEffect | src/main/java/me/ryanhamshire/GriefPrevention/DataStore.java:493-516 | only the buckets of the hashes change, none is left empty, and with distinct hashes each loses exactly its first claim with the id |
| ChunkIndex.RemoveHashesShrinks | src/main/java/me/ryanhamshire/GriefPrevention/DataStore.java:493-516 | the remove loop adds no entry |
| ChunkIndex.RemoveHashesAbsent | src/main/java/me/ryanhamshire/GriefPrevention/DataStore.java:493-516 | removing an id no bucket holds leaves the index as it was |
| Claims.GrantOrder | src/main/java/me/ryanhamshire/GriefPrevention/Claim.java:400 | `isGrantedBy` is a total order: reflexive, Edit grants all, Access is granted by all, null grants nothing, transitive and antisymmetric |
| Claims.Claim.GetArea | src/main/java/me/ryanhamshire/GriefPrevention/Claim.java:286-292 | the area is (length + 1) × (width + 1), modulo 2^32 |
| Claims.GetAreaOneLargerPerAxis | src/main/java/me/ryanhamshire/GriefPrevention/Claim.java:286-292 | without overflow, `getArea` exceeds the box's base area by length + width + 1 |
| Claims.Claim.GetPermission | src/main/java/me/ryanhamshire/GriefPrevention/Claim.java:687-693 | null for a null or empty id; otherwise exactly the level stored under the lower-cased id |
| Claims.Claim.Copy | src/main/java/me/ryanhamshire/GriefPrevention/Claim.java:267-283 | the copy equals the original except that it is not in the data store |
| Claims.CornerIsInside | src/main/java/me/ryanhamshire/GriefPrevention/Claim.java:846-849 | a corner of a normalised claim lies on its boundary columns, and inside it when the claim is 3D |
| Claims.Claim.Is3D | src/main/java/me/ryanhamshire/GriefPrevention/Claim.java:851-853 | definition of `is3D`, a top other than the 2D sentinel; CornerIsInside, Overlaps and the depth lemmas use it |
| Claims.Claim.IsCorner | src/main/java/me/ryanhamshire/GriefPrevention/Claim.java:846-849 | definition of `isCorner`; CornerIsInside states where a corner lies |
| Claims.Claim.IsInside | src/main/java/me/ryanhamshire/GriefPrevention/Claim.java:868-874 | definition of `isInside`, the box's `contains(x, y, z)`; CornerIsInside states that a corner of a 3D claim is inside |
| Claims.OverlapsSymmetric | src/main/java/me/ryanhamshire/GriefPrevention/Claim.java:857-866 | `overlaps` is symmetric |
| Claims.OverlapsShareColumn | src/main/java/me/ryanhamshire/GriefPrevention/Claim.java:857-866 | overlapping normalised claims share a column |
| Claims.Claim.Overlaps | src/main/java/me/ryanhamshire/GriefPrevention/Claim.java:857-866 | definition of `overlaps`; OverlapsSymmetric and OverlapsShareColumn state its meaning |
| Claims.GreaterThanStrictOrder | src/main/java/me/ryanhamshire/GriefPrevention/Claim.java:950-964 | `greaterThan` is irreflexive, asymmetric and transitive |
| Claims.Claim.GreaterThan | src/main/java/me/ryanhamshire/GriefPrevention/Claim.java:950-964 | definition of `greaterThan`; GreaterThanStrictOrder states that it is a strict order |
| Claims.IsAdminClaim | src/main/java/me/ryanhamshire/GriefPrevention/Claim.java:105-108 | definition of `isAdminClaim`: the claim has no owner; DefaultDenial and Purging.Doomed use it |
| Claims.OwnerID | src/main/java/me/ryanhamshire/GriefPrevention/Claim.java:793-800 | a top-level claim reports its own owner, and a subdivision its parent's |
| Claims.CheckBannedMeans | src/main/java/me/ryanhamshire/GriefPrevention/Claim.java:467-474 | banned means banned here, or in the parent when the claim inherits |
| Claims.CheckBanned | src/main/java/me/ryanhamshire/GriefPrevention/Claim.java:467-474 | definition of `checkBanned(uid)`, walking up the parents; CheckBannedMeans states its meaning |
| Claims.DefaultDenial | src/main/java/me/ryanhamshire/GriefPrevention/Claim.java:545-619 | every early rule allows: the admin node, deleteclaims for Edit, the owner, ignore-claims with bypass, an explicit grant and a public grant |
| Claims.HasBypassPermission | src/main/java/me/ryanhamshire/GriefPrevention/Claim.java:630-637 | definition of `hasBypassPermission`: no player means no bypass, Edit needs the deleteclaims node and everything else ignoreclaims; DefaultDenial and InheritanceOrCatchAll state where it decides |
| Claims.OwnerAlwaysAllowed | src/main/java/me/ryanhamshire/GriefPrevention/Claim.java:565-568 | the effective owner is allowed at every level |
| Claims.PvpBlocksBuilding | src/main/java/me/ryanhamshire/GriefPrevention/Claim.java:584-591 | without an early grant, Build is denied with the PvP message to a player in combat |
| Claims.FarmingWithContainerTrust | src/main/java/me/ryanhamshire/GriefPrevention/Claim.java:593-600 | without an early grant or combat, a farmable block is allowed to Build exactly when Inventory is allowed |
| Claims.InheritanceOrCatchAll | src/main/java/me/ryanhamshire/GriefPrevention/Claim.java:603-618 | past the earlier rules, an inheriting subdivision answers as its parent (Edit asked as Manage); otherwise the catch-all denial |
| Claims.EarlyGrantMonotone | src/main/java/me/ryanhamshire/GriefPrevention/Claim.java:545-581 | an early rule granting Build grants Inventory and Access, and one granting Inventory grants Access |
| Claims.ExplicitMonotone | src/main/java/me/ryanhamshire/GriefPrevention/Claim.java:394-431 | explicit grants, by id or by `[node]`, are monotone below Manage |
| Claims.PlayerHasExplicitPermission | src/main/java/me/ryanhamshire/GriefPrevention/Claim.java:403-431 | definition of `hasExplicitPermission(Player, level)`: the id check, then the `[node]` entries the player holds; ExplicitMonotone states its monotonicity |
| Claims.InventoryMonotone | src/main/java/me/ryanhamshire/GriefPrevention/Claim.java:545-619 | whoever may open containers may also access |
| Claims.BuildMonotone | src/main/java/me/ryanhamshire/GriefPrevention/Claim.java:545-619 | whoever may build may also open containers and access |
| Claims.BuildImpliesWeaker | src/main/java/me/ryanhamshire/GriefPrevention/Claim.java:545-619 | the level monotonicity: Build allowed ⇒ Inventory and Access allowed, and Inventory allowed ⇒ Access allowed |
| Claims.CallPermissionCheck | src/main/java/me/ryanhamshire/GriefPrevention/Claim.java:517-534 | the result is what the listeners make of a reason that denies exactly when the default chain does and differs from it only by the override, which replaces every denial when one is given |
| Claims.OverrideOnlyReplacesDenial | src/main/java/me/ryanhamshire/GriefPrevention/Claim.java:517-534 | with listeners that change nothing, the check allows exactly when the default chain allows, and the override shows only on a denial |
| Claims.Contains | src/main/java/me/ryanhamshire/GriefPrevention/Claim.java:805-840 | the loop over the subdivisions answers exactly `InClaim` |
| Claims.InClaimMeans | src/main/java/me/ryanhamshire/GriefPrevention/Claim.java:805-840 | nothing in another world; the XZ test with `ignoreHeight`, the 3D test without; with `excludeSubdivisions`, nothing a subdivision contains |
| Claims.InsideIsNear | src/main/java/me/ryanhamshire/GriefPrevention/Claim.java:317-320 | a block in the (top-level) box is near it at any non-negative distance |
| Claims.IsNear | src/main/java/me/ryanhamshire/GriefPrevention/Claim.java:317-320 | definition of `isNear`; InsideIsNear states that a location inside the claim is near it |
| Claims.RemoveFirstMultiset | src/main/java/me/ryanhamshire/GriefPrevention/Claim.java:715 | `ArrayList.remove(Object)` takes away exactly one occurrence when there is one |
| Claims.Dropped | src/main/java/me/ryanhamshire/GriefPrevention/Claim.java:711-721 | after `dropPermission`, the claim and each subdivision have the id removed once, and nothing else changed |
| Claims.DropPermission | src/main/java/me/ryanhamshire/GriefPrevention/Claim.java:711-721 | the recursive loop gives exactly `Dropped` on the lower-cased id, keeping every link |
| Claims.DroppedEverywhere | src/main/java/me/ryanhamshire/GriefPrevention/Claim.java:711-721 | afterwards, neither the claim nor any subdivision stores a level for the id |
| Claims.Cleared | src/main/java/me/ryanhamshire/GriefPrevention/Claim.java:724-733 | after `clearPermissions`, the claim and each subdivision have empty tables, and nothing else changed |
| Claims.ClearPermissions | src/main/java/me/ryanhamshire/GriefPrevention/Claim.java:724-733 | the recursive loop gives exactly `Cleared`, keeping every link |
| Claims.SetPermission | src/main/java/me/ryanhamshire/GriefPrevention/Claim.java:696-708 | fails exactly for Edit; a null or empty id changes nothing; null drops; Manage appends to managers; other levels are stored under the lower-cased id |
| Claims.TrustIsExplicit | src/main/java/me/ryanhamshire/GriefPrevention/Claim.java:394-401 | after trusting a UUID at Build, Inventory or Access, `getPermission` answers that level and the player holds it explicitly |
| Claims.HasExplicitPermission | src/main/java/me/ryanhamshire/GriefPrevention/Claim.java:394-401 | definition of `hasExplicitPermission`; TrustIsExplicit and ExplicitMonotone state its meaning |
| Claims.GetPermissions | src/main/java/me/ryanhamshire/GriefPrevention/Claim.java:737-759 | the builders, containers and accessors each gain exactly the ids at their level, every id once, and the managers gain the manager list |
| Stores.Put | src/main/java/me/ryanhamshire/GriefPrevention/DataStore.java:1121 | writing back a claim value keeps the links and the validity of the store |
| Stores.AssignId | src/main/java/me/ryanhamshire/GriefPrevention/DataStore.java:583-591 | saving changes only claim contents and the counter: the same objects, links, list and index |
| Stores.AssignIdFresh | src/main/java/me/ryanhamshire/GriefPrevention/DataStore.java:583-591 | after saving, the claim has an id; a new one is used by no other claim, and every id stays below the counter |
| Stores.AddToIndexEffect | src/main/java/me/ryanhamshire/GriefPrevention/DataStore.java:475-491 | a top-level claim enters each bucket of its chunks once more; a subdivision is not indexed; no other bucket changes |
| Stores.AddToIndex | src/main/java/me/ryanhamshire/GriefPrevention/DataStore.java:475-491 | definition of `addToChunkClaimMap`; AddToIndexEffect states its effect on every bucket |
| Stores.RemoveFromIndexEffect | src/main/java/me/ryanhamshire/GriefPrevention/DataStore.java:493-516 | each bucket of the chunks loses its first claim with the id, none is left empty, and no other bucket changes |
| Stores.RemoveFromIndex | src/main/java/me/ryanhamshire/GriefPrevention/DataStore.java:493-516 | definition of `removeFromChunkClaimMap`; RemoveFromIndexEffect and RemovedFromIndex state its effect |
| Stores.RemovedFromIndex | src/main/java/me/ryanhamshire/GriefPrevention/DataStore.java:493-516 | a claim whose id each bucket held at most once has left every bucket of its chunks |
| Stores.LinkedWellFormed | src/main/java/me/ryanhamshire/GriefPrevention/DataStore.java:441-444 | appending a new subdivision to its parent's children keeps the hierarchy well formed |
| Stores.AddClaimEffect | src/main/java/me/ryanhamshire/GriefPrevention/DataStore.java:438-473 | adding keeps the store valid and marks the claim: a subdivision joins its parent's children, a top-level claim the end of the list and the bucket of each of its chunks |
| Stores.AddClaimValue | src/main/java/me/ryanhamshire/GriefPrevention/DataStore.java:438-473 | adding changes the claim only by its mark and, when written, its id, and changes no other claim except a subdivision's parent's children |
| Stores.AddClaimTo | src/main/java/me/ryanhamshire/GriefPrevention/DataStore.java:438-473 | definition of `addClaim`; AddClaimEffect and AddClaimValue state its effect |
| Stores.RemoveFirstWithIdAtMostOnce | src/main/java/me/ryanhamshire/GriefPrevention/DataStore.java:660-667 | removing from a list keeps an id that occurred at most once occurring at most once |
| Stores.DetachOnce | src/main/java/me/ryanhamshire/GriefPrevention/DataStore.java:649-670 | removing one claim keeps every id that occurred at most once, in the list and in each bucket, occurring at most once |
| Stores.Detach | src/main/java/me/ryanhamshire/GriefPrevention/DataStore.java:649-670 | definition of the part of `deleteClaim` that removes one claim; DetachOnce, DeletedUnlinks, DeletedFromList and DeletedFromIndex state its effect |
| Stores.DetachIndexed | src/main/java/me/ryanhamshire/GriefPrevention/DataStore.java:649-670 | removing a claim keeps the index complete for the list when no other claim of the list has its id |
| Stores.DeleteChildren | src/main/java/me/ryanhamshire/GriefPrevention/DataStore.java:644-647 | the child loop keeps the store valid, the identities and the counters; when no subdivision shares an id with a claim of the list, it keeps the list and keeps the index complete for it |
| Stores.Deleted | src/main/java/me/ryanhamshire/GriefPrevention/DataStore.java:641-695 | `deleteClaim` keeps the store valid, every identity and the counters |
| Stores.DeleteChildrenEffect | src/main/java/me/ryanhamshire/GriefPrevention/DataStore.java:644-647 | the child loop deletes exactly the children at even positions; those at odd positions stay in the list, untouched |
| Stores.DeletedUnlinks | src/main/java/me/ryanhamshire/GriefPrevention/DataStore.java:649-656 | after deletion the claim is marked deleted and no longer among its parent's children |
| Stores.DeletedChildren | src/main/java/me/ryanhamshire/GriefPrevention/DataStore.java:644-647 | of the claim's own children, those at even positions are deleted and those at odd positions stay, unchanged |
| Stores.DeletedFromList | src/main/java/me/ryanhamshire/GriefPrevention/DataStore.java:658-666 | no list entry has the deleted claim's id, when at most one had it |
| Stores.DeletedFromIndex | src/main/java/me/ryanhamshire/GriefPrevention/DataStore.java:668 | no bucket of the claim's chunks holds its id, when each held it at most once |
| Deletions.DeletedGone | src/main/java/me/ryanhamshire/GriefPrevention/DataStore.java:641-695 | one deletion leaves the claim gone: marked, unlinked, and out of the list and its buckets |
| Deletions.DeletedTwiceFewChildren | src/main/java/me/ryanhamshire/GriefPrevention/DataStore.java:641-695 | as written: with at most one child, deleting twice is deleting once |
| Deletions.DeletedTwiceManyChildren | src/main/java/me/ryanhamshire/GriefPrevention/DataStore.java:644-647 | as written: with two or more children, a second deletion changes the store again |
| Deletions.DeleteAllChildren | src/main/java/me/ryanhamshire/GriefPrevention/DataStore.java:644-647 | corrected child loop: no child is left, every child is deleted, validity and once-ness are kept |
| Deletions.DeletedAll | src/main/java/me/ryanhamshire/GriefPrevention/DataStore.java:641-695 | corrected deletion keeps the store valid, the identities and the counters |
| Deletions.DeletedAllEffect | src/main/java/me/ryanhamshire/GriefPrevention/DataStore.java:641-695 | corrected deletion marks the claim and all its children, and unlinks the claim |
| Deletions.DeletedAllGone | src/main/java/me/ryanhamshire/GriefPrevention/DataStore.java:641-695 | corrected deletion leaves the claim gone |
| Deletions.DeletedAllTwice | src/main/java/me/ryanhamshire/GriefPrevention/DataStore.java:641-695 | corrected deletion is idempotent, whatever the number of children |
| Creation.RequestedCorners | src/main/java/me/ryanhamshire/GriefPrevention/DataStore.java:878-916 | each axis is ordered, the floor sanitised, and a top that is not the 2D sentinel capped at the world's height |
| Creation.NewClaim | src/main/java/me/ryanhamshire/GriefPrevention/DataStore.java:944-954 | the new object has the corners' box, the given owner, parent and id, no permissions, and is not in the store |
| Creation.FirstConflict | src/main/java/me/ryanhamshire/GriefPrevention/DataStore.java:967-977 | the scan finds the first conflicting candidate, and no earlier one conflicts |
| Creation.Admit | src/main/java/me/ryanhamshire/GriefPrevention/DataStore.java:956-1007 | the overlap check, the creation event, the add and the parent extension together leave a valid store |
| Creation.Commit | src/main/java/me/ryanhamshire/GriefPrevention/DataStore.java:997-1002 | adding and extending keep the store valid |
| Creation.ExtendParent | src/main/java/me/ryanhamshire/GriefPrevention/DataStore.java:999-1002 | extending the parent changes only claim contents: the same objects, links, list and index |
| Creation.ExtensionFloor | src/main/java/me/ryanhamshire/GriefPrevention/DataStore.java:937-941 | in creative mode a 2D claim reaches to the world's minimum height |
| Creation.NewBoxGeometry | src/main/java/me/ryanhamshire/GriefPrevention/DataStore.java:878-916 | the new box is the ordered corners; with the floor not above the top, the floor is at least the minimum height and the maximum depth, and a 3D top at most the world height |
| Creation.CreateOutsideParent | src/main/java/me/ryanhamshire/GriefPrevention/DataStore.java:918-926 | a request outside its parent fails, reports the parent and changes nothing |
| Creation.CreateOutsideBorder | src/main/java/me/ryanhamshire/GriefPrevention/DataStore.java:929-935 | a request across the world border fails with no claim and changes nothing |
| Creation.CreateOverlap | src/main/java/me/ryanhamshire/GriefPrevention/DataStore.java:956-977 | success means no overlapping candidate with another id is in the store; otherwise it fails, reporting the first conflict in list order |
| Creation.CreateDryRun | src/main/java/me/ryanhamshire/GriefPrevention/DataStore.java:979-985 | a successful dry run reports the new claim and changes no list, index, counter or existing object |
| Creation.CreateValid | src/main/java/me/ryanhamshire/GriefPrevention/DataStore.java:874-1008 | `createClaim` leaves a valid store |
| Creation.AdmitCancelled | src/main/java/me/ryanhamshire/GriefPrevention/DataStore.java:986-995 | a cancelled event fails with no claim; the list and index stay, though an id may have been taken |
| Creation.CreateTopLevel | src/main/java/me/ryanhamshire/GriefPrevention/DataStore.java:874-1008 | a top-level request that passes every check succeeds: a new object with the requested box and an id, in the store, at the end of the list and in each bucket of its chunks |
| Creation.CreateSubdivision | src/main/java/me/ryanhamshire/GriefPrevention/DataStore.java:874-1008 | a subdivision request that passes every check succeeds, joins its parent's children, and the parent's floor drops when the new floor is below it |
| Creation.Create | src/main/java/me/ryanhamshire/GriefPrevention/DataStore.java:874-1008 | definition of `createClaim`; CreateOutsideParent, CreateOutsideBorder, CreateOverlap, CreateDryRun, CreateValid, CreateTopLevel and CreateSubdivision state its outcomes |
| Depths.Sanitize | src/main/java/me/ryanhamshire/GriefPrevention/DataStore.java:1095-1099 | the floor is the request raised to the world's minimum height and the maximum depth |
| Depths.SanitizeIdempotent | src/main/java/me/ryanhamshire/GriefPrevention/DataStore.java:1095-1099 | sanitising twice is sanitising once |
| Depths.SanitizeMonotone | src/main/java/me/ryanhamshire/GriefPrevention/DataStore.java:1095-1099 | sanitising keeps the order of floors |
| Depths.NewDepth | src/main/java/me/ryanhamshire/GriefPrevention/DataStore.java:1109-1116 | the settled depth is at least the sanitised request, and the parent's floor for a 2D subdivision or one of a 3D parent |
| Depths.ChildBounds | src/main/java/me/ryanhamshire/GriefPrevention/DataStore.java:1125-1139 | one pass leaves a child's floor and top at or above the depth, a 2D child's floor at it, and X and Z untouched |
| Depths.Deepened | src/main/java/me/ryanhamshire/GriefPrevention/DataStore.java:1108-1141 | `setNewDepth` changes only claim contents and the counter: the same objects, links, list and index |
| Depths.DeepenedSides | src/main/java/me/ryanhamshire/GriefPrevention/DataStore.java:1108-1141 | `setNewDepth` changes heights only: every object keeps its world and its X and Z extent |
| Depths.DeepenedTopLevel | src/main/java/me/ryanhamshire/GriefPrevention/DataStore.java:1108-1141 | a top-level claim's floor goes to the sanitised depth with its top at or above it; each child ends at or above it, a 2D child at it; nothing else changes |
| Depths.DeepenedTopLevelOwn | src/main/java/me/ryanhamshire/GriefPrevention/DataStore.java:1118-1123 | a top-level claim changes only its floor, a top raised to the floor, and an id when it had none |
| Depths.DeepenedSubdivision | src/main/java/me/ryanhamshire/GriefPrevention/DataStore.java:1108-1141 | a subdivision's floor is the settled depth, at least the sanitised request and not below its parent's; no object outside the family changes |
| Depths.DeepenedKeeps | src/main/java/me/ryanhamshire/GriefPrevention/DataStore.java:1108-1141 | `setNewDepth` renumbers no claim that had an id |
| Depths.DeepenedApart | src/main/java/me/ryanhamshire/GriefPrevention/DataStore.java:1108-1141 | `setNewDepth` keeps ids below the counter and subdivision ids out of the index |
| Depths.Extended | src/main/java/me/ryanhamshire/GriefPrevention/DataStore.java:1070-1086 | `extendClaim` changes only claim contents and the counter: the same objects, links, list and index |
| Depths.ExtendTarget | src/main/java/me/ryanhamshire/GriefPrevention/DataStore.java:1072 | a subdivision stands for its parent |
| Depths.ExtendIgnores3D | src/main/java/me/ryanhamshire/GriefPrevention/DataStore.java:1073 | a 3D claim is never extended |
| Depths.ExtendNeverRaises | src/main/java/me/ryanhamshire/GriefPrevention/DataStore.java:1070-1086 | with an event depth not above the sanitised request, the floor never rises |
| Resizing.Truncated | src/main/java/me/ryanhamshire/GriefPrevention/DataStore.java:1203-1231 | the clamped `set` keeps the cut box touching the child's old box on every axis: no new minimum above its old maximum, no new maximum below its old minimum |
| Resizing.TruncatedIsIntersection | src/main/java/me/ryanhamshire/GriefPrevention/DataStore.java:1203-1233 | for a normalised child, truncation keeps exactly the boxes that meet the parent's and cuts them to the common part |
| Resizing.TruncateChild | src/main/java/me/ryanhamshire/GriefPrevention/DataStore.java:1200-1238 | one pass keeps the objects, the list and every parent link |
| Resizing.TruncateChildOwn | src/main/java/me/ryanhamshire/GriefPrevention/DataStore.java:1231-1237 | one pass changes the child only by its box, which becomes the truncated one, and by an id when saved |
| Resizing.TruncateChildOthers | src/main/java/me/ryanhamshire/GriefPrevention/DataStore.java:1233-1236 | the parent loses the child exactly when it is dropped; no other object changes |
| Resizing.Truncate | src/main/java/me/ryanhamshire/GriefPrevention/DataStore.java:1196-1239 | `truncateSubdivisions` keeps the store valid |
| Resizing.TruncateKeeps | src/main/java/me/ryanhamshire/GriefPrevention/DataStore.java:1196-1239 | the claim keeps, in order, exactly those subdivisions whose boxes meet its own, each now inside its box, cut to the common part |
| Resizing.TruncateValues | src/main/java/me/ryanhamshire/GriefPrevention/DataStore.java:1196-1239 | every subdivision's box is cut to the claim's; an id is assigned only when cut and saving was asked; nothing else changes |
| Resizing.ResizeRequest | src/main/java/me/ryanhamshire/GriefPrevention/DataStore.java:1174 | the dry run asks with the claim's world, owner, parent and id |
| Resizing.CappedBox | src/main/java/me/ryanhamshire/GriefPrevention/DataStore.java:1183 | a 3D copied box has its top capped at the world's height |
| Resizing.Resized | src/main/java/me/ryanhamshire/GriefPrevention/DataStore.java:1171-1194 | `resizeClaim` keeps the store valid and every object |
| Resizing.ResizeFails | src/main/java/me/ryanhamshire/GriefPrevention/DataStore.java:1171-1194 | the resize succeeds exactly when its dry run does; a failure returns the dry run's result and changes nothing existing |
| Resizing.ResizedTopLevel | src/main/java/me/ryanhamshire/GriefPrevention/DataStore.java:1171-1194 | after success on a top-level claim, the box spans the requested X and Z with the sanitised floor; only box, id and subdivisions change; the claim is in each bucket of its new chunks |
| Resizing.ResizedSubdivision | src/main/java/me/ryanhamshire/GriefPrevention/DataStore.java:1171-1194 | after success on a subdivision, the box spans the requested X and Z, with a floor at or above the sanitised one and the parent's |
| Resizing.ResizedIndex | src/main/java/me/ryanhamshire/GriefPrevention/DataStore.java:1179-1190 | each bucket of the old chunks loses the first entry with the claim's id, each bucket of the new chunks gains the claim at its end, and no other entry moves; with one entry per id, the claim leaves every old bucket outside its new box |
| Resizing.ResizedIds | src/main/java/me/ryanhamshire/GriefPrevention/DataStore.java:1171-1194 | a successful resize renumbers no claim that had an id, and the claim ends with one |
| Resizing.ResizedSubdivisionIndex | src/main/java/me/ryanhamshire/GriefPrevention/DataStore.java:1179-1190 | resizing a subdivision leaves the chunk index as it was |
| Resizing.ResizedToOwnBox | src/main/java/me/ryanhamshire/GriefPrevention/DataStore.java:1171-1194 | resizing a top-level claim to its own corners gives back its box and changes nothing else but a missing id and dropped subdivisions; every bucket keeps the same multiset of claims |
| Resizing.SettledIndex | src/main/java/me/ryanhamshire/GriefPrevention/DataStore.java:1188-1190 | settling leaves the index as `addToChunkClaimMap` of the claim on the old index |
| Resizing.MovedIndex | src/main/java/me/ryanhamshire/GriefPrevention/DataStore.java:1179 | the move takes the claim out of its old buckets and changes nothing else of the index |
| Lookups.SubdivisionAt | src/main/java/me/ryanhamshire/GriefPrevention/DataStore.java:734-739 | the first subdivision, from position j on, that is in the store and holds the location |
| Lookups.BucketSearch | src/main/java/me/ryanhamshire/GriefPrevention/DataStore.java:729-744 | the bucket search answers a claim that is in the store and holds the location's column |
| Lookups.ClaimAtMeans | src/main/java/me/ryanhamshire/GriefPrevention/DataStore.java:718-747 | an answer is in the store, in the location's world, and holds its column; with `ignoreSubclaims` it is top-level; with no cache hit and no bucket, there is no answer; when the index is complete for the list (`Indexed`), a claim of the list in the store that holds the location guarantees an answer |
| Lookups.ClaimAt | src/main/java/me/ryanhamshire/GriefPrevention/DataStore.java:718-747 | definition of `getClaimAt`; ClaimAtMeans and SubdivisionsWin state its answers |
| Lookups.ClaimAtFinds | src/main/java/me/ryanhamshire/GriefPrevention/DataStore.java:718-747 | with the index complete for the list, a claim of the list in the store whose box holds the location (its column when it is 2D and height is ignored) is found: the answer is not null |
| Lookups.SubdivisionsWin | src/main/java/me/ryanhamshire/GriefPrevention/DataStore.java:733-743 | a top-level claim is answered only when none of its subdivisions in the store holds the location |
| Lookups.ChildWithId | src/main/java/me/ryanhamshire/GriefPrevention/DataStore.java:758-762 | the first subdivision from position j on with the id |
| Lookups.ClaimWithId | src/main/java/me/ryanhamshire/GriefPrevention/DataStore.java:750-770 | an answer has the id asked for |
| Lookups.ClaimWithIdMeans | src/main/java/me/ryanhamshire/GriefPrevention/DataStore.java:750-770 | `getClaim` answers exactly when a top-level claim in the store, or a subdivision of one, has the id |
| Lookups.ClaimsOfChunksMeans | src/main/java/me/ryanhamshire/GriefPrevention/DataStore.java:790-815 | a claim is collected exactly when it is in the store, in the world and in a bucket of one of the hashes |
| Lookups.ClaimsOfChunks | src/main/java/me/ryanhamshire/GriefPrevention/DataStore.java:797-812 | definition of the loop over the chunk buckets in `getChunkClaims`; ClaimsOfChunksMeans states what it collects |
| Lookups.ChunkClaimsMeans | src/main/java/me/ryanhamshire/GriefPrevention/DataStore.java:790-815 | `getChunkClaims` returns exactly the in-store claims of the world indexed under a chunk the box touches |
| Lookups.ChunkClaims | src/main/java/me/ryanhamshire/GriefPrevention/DataStore.java:790-815 | definition of `getChunkClaims`; ChunkClaimsMeans states what it returns |
| Lookups.RepairedNextId | src/main/java/me/ryanhamshire/GriefPrevention/DataStore.java:148-157 | the repaired counter is above every id of the list and at least the old counter |
| Lookups.RepairNeedless | src/main/java/me/ryanhamshire/GriefPrevention/DataStore.java:148-157 | a counter already above every id is left as it is |
| Purging.DeletedListEntry | src/main/java/me/ryanhamshire/GriefPrevention/DataStore.java:659-666 | deleting the claim at position i of a list kept apart by ids takes out exactly that entry |
| Purging.DeletedShrinks | src/main/java/me/ryanhamshire/GriefPrevention/DataStore.java:659-666 | deleting a claim of the list shortens it, whatever the ids |
| Purging.Survivors | src/main/java/me/ryanhamshire/GriefPrevention/DataStore.java:1795-1807 | the survivors are the entries that are not doomed, in order |
| Purging.WorldDeleted | src/main/java/me/ryanhamshire/GriefPrevention/DataStore.java:1795-1807 | `deleteClaimsInWorld` keeps the store valid |
| Purging.WorldDeletedPurges | src/main/java/me/ryanhamshire/GriefPrevention/DataStore.java:1795-1807 | the loop keeps the objects and counters, and leaves the entries before position i followed by the survivors |
| Purging.WorldDeletedMeans | src/main/java/me/ryanhamshire/GriefPrevention/DataStore.java:1795-1807 | with ids apart, no claim of the world is left (bar admin claims when kept), and every other entry stays in the list |
| Indexing.AssignIdIndexed | src/main/java/me/ryanhamshire/GriefPrevention/DataStore.java:583-591 | giving a claim an id keeps the index complete for the list |
| Indexing.OwnerChangedIndexed | src/main/java/me/ryanhamshire/GriefPrevention/DataStore.java:389-436 | a transfer keeps the index complete for the list |
| Indexing.DeepenedIndexed | src/main/java/me/ryanhamshire/GriefPrevention/DataStore.java:1108-1141 | lowering a claim keeps the index complete for the list |
| Indexing.ExtendedIndexed | src/main/java/me/ryanhamshire/GriefPrevention/DataStore.java:1070-1086 | `extendClaim` keeps the index complete for the list, cancelled or not |
| Indexing.AllocatedIndexed | src/main/java/me/ryanhamshire/GriefPrevention/DataStore.java:944-954 | allocating a new claim object keeps the index complete for the list |
| Indexing.AddClaimIndexed | src/main/java/me/ryanhamshire/GriefPrevention/DataStore.java:438-473 | `addClaim` keeps the index complete, the new top-level claim included |
| Indexing.AdmitIndexed | src/main/java/me/ryanhamshire/GriefPrevention/DataStore.java:956-1007 | admitting a created claim keeps the index complete, dry run and cancelled event included |
| Indexing.CreateIndexed | src/main/java/me/ryanhamshire/GriefPrevention/DataStore.java:874-1008 | `createClaim` keeps the index complete for the list on every outcome |
| Indexing.TruncateIndexed | src/main/java/me/ryanhamshire/GriefPrevention/DataStore.java:1196-1239 | truncating subdivisions keeps the index complete, when ids are apart in the index |
| Indexing.ResizedOthers | src/main/java/me/ryanhamshire/GriefPrevention/DataStore.java:1171-1194 | a resize keeps the list, and every other top-level claim keeps its columns and its place in the store |
| Indexing.ResizedTopLevelIndexed | src/main/java/me/ryanhamshire/GriefPrevention/DataStore.java:1171-1194 | a successful resize of a top-level claim keeps the index complete, the moved claim included, when ids are apart |
| Indexing.ResizedSubdivisionIndexed | src/main/java/me/ryanhamshire/GriefPrevention/DataStore.java:1171-1194 | a resize of a subdivision keeps the index complete, when ids are apart |
| Indexing.ResizedIndexed | src/main/java/me/ryanhamshire/GriefPrevention/DataStore.java:1171-1194 | `resizeClaim` keeps the index complete on every outcome, when ids are apart |
| Indexing.DeletedIndexed | src/main/java/me/ryanhamshire/GriefPrevention/DataStore.java:641-695 | `deleteClaim` keeps the index complete for what stays in the list, when ids are apart |
| Indexing.WorldDeletedIndexed | src/main/java/me/ryanhamshire/GriefPrevention/DataStore.java:1795-1807 | `deleteClaimsInWorld` keeps the index complete for the survivors, when ids are apart |
| Locations.LocationFromString | src/main/java/me/ryanhamshire/GriefPrevention/DataStore.java:533-573 | the method returns exactly `ParsedLocation` |
| Locations.FirstWorld | src/main/java/me/ryanhamshire/GriefPrevention/DataStore.java:550-558 | the first world, in list order, whose name equals the given one ignoring case |
| Locations.FindWorld | src/main/java/me/ryanhamshire/GriefPrevention/DataStore.java:550-558 | the search loop returns `FirstWorld` |
| Locations.LocationRoundTrip | src/main/java/me/ryanhamshire/GriefPrevention/DataStore.java:520-573 | reading back a written location gives its coordinates in the first world matching its name ignoring case, or the unknown-world error |
| Locations.PartsRoundTrip | src/main/java/me/ryanhamshire/GriefPrevention/DataStore.java:538-571 | parsing the four written fields gives the same coordinates |
| Locations.LocationRoundTripExact | src/main/java/me/ryanhamshire/GriefPrevention/DataStore.java:520-573 | a location in a loaded world that no other loaded world's name matches comes back as it was |
| Locations.LocationToString | src/main/java/me/ryanhamshire/GriefPrevention/DataStore.java:519-531 | definition of `locationToString`; LocationRoundTrip and LocationRoundTripExact state that parsing it gives the location back |
| PlayerRecords.Toggled | src/main/java/me/ryanhamshire/GriefPrevention/DataStore.java:280-288 | the toggled player's `isSoftMuted` flips, every other player's stays, and the player gets an entry |
| PlayerRecords.ToggledTwice | src/main/java/me/ryanhamshire/GriefPrevention/DataStore.java:280-294 | toggling a player twice restores every player's soft-mute state |
| PlayerRecords.SoftMuted | src/main/java/me/ryanhamshire/GriefPrevention/DataStore.java:290-294 | definition of `isSoftMuted`; Toggled and ToggledTwice state how toggling changes it |
| PlayerRecords.BonusAdjusted | src/main/java/me/ryanhamshire/GriefPrevention/DataStore.java:363-375 | the group's total becomes the old one (0 if none) plus the amount, wrapped to `int`; every other group stays |
| PlayerRecords.BonusAdjustmentsAdd | src/main/java/me/ryanhamshire/GriefPrevention/DataStore.java:363-375 | two adjustments add up to the wrapped sum of both amounts |
| MessageText.NoPlaceholderUnchanged | src/main/java/me/ryanhamshire/GriefPrevention/DataStore.java:1714-1725 | a text without `{` comes back unchanged |
| MessageText.OneArgument | src/main/java/me/ryanhamshire/GriefPrevention/DataStore.java:1714-1725 | a text with one `{0}` and no other `{` takes the argument in its place |
| MessageText.Substituted | src/main/java/me/ryanhamshire/GriefPrevention/DataStore.java:1718-1722 | definition of the placeholder loop of `getMessage`; NoPlaceholderUnchanged and OneArgument state its effect |
| Transfers.OwnerChanged | src/main/java/me/ryanhamshire/GriefPrevention/DataStore.java:389-436 | fails exactly for a subdivision; a cancelled event changes nothing; otherwise only the claim changes, taking the event's owner and an id |
| Transfers.OwnerChangedValid | src/main/java/me/ryanhamshire/GriefPrevention/DataStore.java:389-436 | a transfer keeps the store valid |
| Transfers.UnopposedTransfer | src/main/java/me/ryanhamshire/GriefPrevention/DataStore.java:389-436 | with no listener in the way, a top-level claim ends up owned by the requested owner |
| DataStores.DataStore.ToggleSoftMute | src/main/java/me/ryanhamshire/GriefPrevention/DataStore.java:280-288 | the map becomes `Toggled`, and the new flag is returned |
| DataStores.DataStore.AdjustGroupBonusBlocks | src/main/java/me/ryanhamshire/GriefPrevention/DataStore.java:363-375 | the map becomes `BonusAdjusted`, and the new total is returned |
| DataStores.DataStore.GetMessage | src/main/java/me/ryanhamshire/GriefPrevention/DataStore.java:1714-1725 | each `{i}` is replaced by argument i, in turn |
| DataStores.DataStore.ChangeClaimOwner | src/main/java/me/ryanhamshire/GriefPrevention/DataStore.java:389-436 | the store becomes `OwnerChanged`, or stays on an exception |
| DataStores.DataStore.AssignClaimID | src/main/java/me/ryanhamshire/GriefPrevention/DataStore.java:583-591 | the state becomes `AssignId` |
| DataStores.DataStore.SaveClaim | src/main/java/me/ryanhamshire/GriefPrevention/DataStore.java:576-581 | the state becomes `AssignId` |
| DataStores.DataStore.AddToChunkClaimMap | src/main/java/me/ryanhamshire/GriefPrevention/DataStore.java:475-491 | the index becomes `AddToIndex` |
| DataStores.DataStore.RemoveFromChunkClaimMap | src/main/java/me/ryanhamshire/GriefPrevention/DataStore.java:493-516 | the index becomes `RemoveFromIndex` |
| DataStores.DataStore.AddClaim | src/main/java/me/ryanhamshire/GriefPrevention/DataStore.java:438-473 | the state becomes `AddClaimTo` |
| DataStores.DataStore.DeleteClaim | src/main/java/me/ryanhamshire/GriefPrevention/DataStore.java:641-695 | the state becomes `Deleted` |
| DataStores.DataStore.DeleteClaimsInWorld | src/main/java/me/ryanhamshire/GriefPrevention/DataStore.java:1795-1807 | the state becomes `WorldDeleted` |
| DataStores.DataStore.GetClaimAt | src/main/java/me/ryanhamshire/GriefPrevention/DataStore.java:718-747 | returns `ClaimAt` and changes nothing |
| DataStores.DataStore.GetClaim | src/main/java/me/ryanhamshire/GriefPrevention/DataStore.java:750-770 | returns `ClaimWithId` and changes nothing |
| DataStores.DataStore.GetChunkClaims | src/main/java/me/ryanhamshire/GriefPrevention/DataStore.java:790-815 | returns `ChunkClaims` and changes nothing |
| DataStores.DataStore.CreateClaim | src/main/java/me/ryanhamshire/GriefPrevention/DataStore.java:874-1008 | result and state are `Create` |
| DataStores.DataStore.ResizeClaim | src/main/java/me/ryanhamshire/GriefPrevention/DataStore.java:1171-1194 | result and state are `Resized` |
| DataStores.DataStore.TruncateSubdivisions | src/main/java/me/ryanhamshire/GriefPrevention/DataStore.java:1196-1239 | the state becomes `Truncate` |
| DataStores.DataStore.SetNewDepth | src/main/java/me/ryanhamshire/GriefPrevention/DataStore.java:1108-1141 | the state becomes `Deepened`, and the settled depth is returned |
| DataStores.DataStore.ExtendClaim | src/main/java/me/ryanhamshire/GriefPrevention/DataStore.java:1070-1086 | the state becomes `Extended` |
| DataStores.DataStore.RepairNextClaimID | src/main/java/me/ryanhamshire/GriefPrevention/DataStore.java:148-157 | the counter becomes `RepairedNextId` |
| StringUtil.Segment | src/main/java/me/ryanhamshire/GriefPrevention/util/StringUtil.java:11-16 | the cased piece has the piece's length |
| StringUtil.EnumNameToCamelCase | src/main/java/me/ryanhamshire/GriefPrevention/util/StringUtil.java:7-19 | the builder loop returns exactly `CamelCase(value)` |
| StringUtil.NoUnderscore | src/main/java/me/ryanhamshire/GriefPrevention/util/StringUtil.java:7-19 | the result holds no underscore |
| StringUtil.EmptyPiecesIgnored | src/main/java/me/ryanhamshire/GriefPrevention/util/StringUtil.java:7-19 | leading, trailing and doubled underscores change nothing: only the non-empty pieces count |
| StringUtil.OutputLength | src/main/java/me/ryanhamshire/GriefPrevention/util/StringUtil.java:7-19 | for ASCII input, the result is the input's length less its underscores |
| StringUtil.SingleWord | src/main/java/me/ryanhamshire/GriefPrevention/util/StringUtil.java:7-19 | a name without underscores becomes the capitalised, otherwise lower-cased word |
| StringUtil.TwoWords | src/main/java/me/ryanhamshire/GriefPrevention/util/StringUtil.java:7-19 | two words joined by an underscore come out as their two segments |
| StringUtil.DarkAqua | src/main/java/me/ryanhamshire/GriefPrevention/util/StringUtil.java:7-19 | "DARK_AQUA" becomes "DarkAqua" |
| StringUtil.CamelCase | src/main/java/me/ryanhamshire/GriefPrevention/util/StringUtil.java:7-19 | definition of the name `enumNameToCamelCase` builds; NoUnderscore, EmptyPiecesIgnored, OutputLength, SingleWord and TwoWords state its properties |
| Uuids.UuidToString | src/main/java/me/ryanhamshire/GriefPrevention/Claim.java:400 | `UUID.toString()` is 36 lower-case characters |
| Uuids.FastRandomUuid | src/main/java/me/ryanhamshire/GriefPrevention/util/UUIDUtil.java:8-25 | the method returns exactly `RandomUuid(bytes)` |
| Uuids.VersionIsFour | src/main/java/me/ryanhamshire/GriefPrevention/util/UUIDUtil.java:12-13 | the version field is 4 |
| Uuids.VariantIsIetf | src/main/java/me/ryanhamshire/GriefPrevention/util/UUIDUtil.java:14-15 | the variant bits are binary 10 |
| Uuids.OtherBitsAreRandom | src/main/java/me/ryanhamshire/GriefPrevention/util/UUIDUtil.java:17-22 | every other bit of the two halves is the corresponding random bit, big-endian |
| Uuids.RandomUuid | src/main/java/me/ryanhamshire/GriefPrevention/util/UUIDUtil.java:8-25 | definition of the UUID `fastRandomUUID` builds from its random bytes; FastRandomUuid, VersionIsFour, VariantIsIetf and OtherBitsAreRandom state its properties |
| Registries.Registry.constructor | src/main/java/me/ryanhamshire/GriefPrevention/registry/Registry.java:13-16 | a new registry is empty, with the given name |
| Registries.Registry.Get | src/main/java/me/ryanhamshire/GriefPrevention/registry/Registry.java:26-28 | the mapped value, null for an absent key |
| Registries.Registry.GetOrDefault | src/main/java/me/ryanhamshire/GriefPrevention/registry/Registry.java:30-32 | the mapped value when the key is present, null included; the default otherwise |
| Registries.Registry.Register | src/main/java/me/ryanhamshire/GriefPrevention/registry/Registry.java:34-36 | the key maps to the value, the previous mapping is returned, every other key stays |
| Registries.Registry.Unregister | src/main/java/me/ryanhamshire/GriefPrevention/registry/Registry.java:38-40 | the key is removed, its previous mapping returned, every other key stays |
| Registries.Registry.Keys | src/main/java/me/ryanhamshire/GriefPrevention/registry/Registry.java:46-48 | exactly the registered keys |
| Registries.Registry.Items | src/main/java/me/ryanhamshire/GriefPrevention/registry/Registry.java:42-44 | exactly the values of the mappings |
| Registries.Registry.Size | src/main/java/me/ryanhamshire/GriefPrevention/registry/Registry.java:50-52 | the number of registered keys |
| Registries.Registry.IsEmpty | src/main/java/me/ryanhamshire/GriefPrevention/registry/Registry.java:54-56 | no key is registered |
| Registries.SizeOfUpdate | src/main/java/me/ryanhamshire/GriefPrevention/registry/Registry.java:34-36 | registering grows the size exactly when the key was new |
| Registries.SizeOfRemoval | src/main/java/me/ryanhamshire/GriefPrevention/registry/Registry.java:38-40 | unregistering shrinks the size exactly when the key was present |
| Registries.DefaultedRegistry.SetDefaultValue | src/main/java/me/ryanhamshire/GriefPrevention/registry/DefaultedRegistry.java:29-32 | a lightweight provider answering the value for every key |
| Registries.DefaultedRegistry.SetDefaultProvider | src/main/java/me/ryanhamshire/GriefPrevention/registry/DefaultedRegistry.java:34-38 | the provider is installed in provider mode |
| Registries.DefaultedRegistry.Get | src/main/java/me/ryanhamshire/GriefPrevention/registry/DefaultedRegistry.java:40-48 | a non-null mapping is returned in both modes; an absent key gets the default; a null mapping stays null only in lightweight mode |
| Tags.HashSetTag.constructor | src/main/java/me/ryanhamshire/GriefPrevention/tags/HashSetTag.java:17-20 | a new tag holds nothing |
| Tags.HashSetTag.WithTags | src/main/java/me/ryanhamshire/GriefPrevention/tags/HashSetTag.java:22-25 | a tag built from a collection holds exactly its elements |
| Tags.HashSetTag.Add | src/main/java/me/ryanhamshire/GriefPrevention/tags/HashSetTag.java:27-30 | a null item fails before any change; otherwise the item is tagged and the answer says whether it was new |
| Tags.HashSetTag.AddAll | src/main/java/me/ryanhamshire/GriefPrevention/tags/HashSetTag.java:32-34 | every element is tagged, and the answer says whether the set changed |
| Tags.HashSetTag.Remove | src/main/java/me/ryanhamshire/GriefPrevention/tags/HashSetTag.java:36-38 | the item is not tagged afterwards, the rest stays, and the answer says whether it was tagged |
| Tags.HashSetTag.GetValues | src/main/java/me/ryanhamshire/GriefPrevention/tags/HashSetTag.java:45-49 | the read-only view is the tagged set |
| Tags.HashSetTag.IsTagged | src/main/java/me/ryanhamshire/GriefPrevention/tags/HashSetTag.java:41-43 | definition of `isTagged`, membership of the tagged set; the constructor, Add, AddAll, Remove and GetValues state their effect on it |
| Tags.HashSetTag.GetKey | src/main/java/me/ryanhamshire/GriefPrevention/tags/HashSetTag.java:51-55 | `getKey` returns the key the tag was made with |
| JavaInt.Add32Wraps | src/main/java/me/ryanhamshire/GriefPrevention/DataStore.java:368 | `int` addition is the sum modulo 2^32 |
| JavaInt.Sub32Wraps | src/main/java/me/ryanhamshire/GriefPrevention/DataStore.java:1001 | `int` subtraction is the difference modulo 2^32 |
| JavaInt.ShiftRight4 | src/main/java/me/ryanhamshire/GriefPrevention/DataStore.java:825 | `x >> 4` is floor division by 16 |
| JavaInt.ShiftRight4Monotone | src/main/java/me/ryanhamshire/GriefPrevention/DataStore.java:839-842 | chunk indices keep the order of block coordinates |
| JavaString.ToLowerIdempotent | src/main/java/me/ryanhamshire/GriefPrevention/Claim.java:692 | lower-casing twice is lower-casing once |
| JavaString.ToLower | src/main/java/me/ryanhamshire/GriefPrevention/Claim.java:692 | definition of ASCII `toLowerCase`; ToLowerIdempotent states that lowering twice is lowering once |
| JavaString.ToUpperChar | src/main/java/me/ryanhamshire/GriefPrevention/util/StringUtil.java:12 | ASCII `Character.toUpperCase`: a lower-case letter becomes its upper-case letter, 32 code points below, every other character stays |
| JavaString.EqualsIgnoreCase | src/main/java/me/ryanhamshire/GriefPrevention/DataStore.java:555 | definition of `equalsIgnoreCase` as equal lower-cased strings; EqualsIgnoreCaseMeans states that this is the per-character test of `String.regionMatches` |
| JavaString.EqualsIgnoreCaseMeans | src/main/java/me/ryanhamshire/GriefPrevention/DataStore.java:555 | two strings are equal ignoring case exactly when they have equal lengths and each pair of characters is equal as it is, after upper-casing or after lower-casing |
| JavaString.Split | src/main/java/me/ryanhamshire/GriefPrevention/DataStore.java:536 | a string without the delimiter splits to itself, and no piece holds the delimiter |
| JavaString.SplitJoin | src/main/java/me/ryanhamshire/GriefPrevention/DataStore.java:536 | splitting a join of at least two delimiter-free parts, the last non-empty, gives them back |
| JavaString.ParseInt | src/main/java/me/ryanhamshire/GriefPrevention/DataStore.java:566-568 | a string parses exactly when it is an optional `-` or `+` followed by at least one decimal digit and the value fits in an `int`; the result is the value of the digits, negated after `-` |
| JavaString.ParseIntToString | src/main/java/me/ryanhamshire/GriefPrevention/DataStore.java:524-528 | parsing what `Integer.toString` writes gives the same `int` |
| JavaString.IntToString | src/main/java/me/ryanhamshire/GriefPrevention/DataStore.java:524-528 | definition of `Integer.toString`; ParseIntToString states that parsing it gives the number back |
| JavaString.ReplaceAbsent | src/main/java/me/ryanhamshire/GriefPrevention/DataStore.java:1722 | a string without the target is unchanged |
| JavaString.ReplaceSingle | src/main/java/me/ryanhamshire/GriefPrevention/DataStore.java:1722 | a target occurring once, as the only place its first character appears, is spliced out for the replacement |
| JavaString.Replace | src/main/java/me/ryanhamshire/GriefPrevention/DataStore.java:1722 | definition of `String.replace`; ReplaceAbsent and ReplaceSingle state its effect |
| JavaString.LexLessTransitive | src/main/java/me/ryanhamshire/GriefPrevention/Claim.java:963 | `compareTo < 0` on names is transitive |
| JavaString.LexLess | src/main/java/me/ryanhamshire/GriefPrevention/Claim.java:963 | definition of `compareTo < 0` on names; LexLessIrreflexive, LexLessAsymmetric and LexLessTransitive state that it is a strict order |

## Left out

- Persistence is not modelled: claim files, the database, secondary-storage deletion,
  the soft-mute and bonus-block files, and `incrementNextClaimID`'s write. Saving a
  claim is only its id assignment.
- Player data is not modelled: `getPlayerData`, the per-player claim lists that
  `addClaim`, `deleteClaim` and `changeClaimOwner` update, and `savePlayerData`.
  These touch only the player records, not the claim state.
- Events are not modelled as objects. Each event (claim created, extended, deleted
  or transferred, and the permission check) is a parameter standing for what its
  listeners decide. `ClaimDeletedEvent` has no effect on the state and is left out.
- Concurrency (`synchronized`, the asynchronous save thread) is left out. Each
  operation is modelled as one atomic step.
- World objects are values: equal names and heights mean the same world. The world
  border test and `Player.hasPermission` are parameters.
- RemoveFirstWithId: compares `Option` ids, so a claim with no id matches a target
  with no id. Java's `c.id.equals(claim.id)` (`DataStore.java:505`, and the list
  loop at `DataStore.java:662`) throws a NullPointerException when the bucket or
  list holds a claim with a null id.
- Lookups.ChildWithId, Lookups.ClaimWithId: skip a claim with no id. Java's
  `getID() == id` unboxes null and throws.
- Lookups.RepairedNextId: passes over a claim with no id, where the Java unboxing
  throws. The counter is an unbounded integer, so `claim.id + 1` does not model a
  `long` overflow.
- JavaString.ToLower: maps ASCII letters only. Java's `toLowerCase` also maps other
  Unicode letters, so permission keys outside ASCII are not modelled faithfully.
  `EqualsIgnoreCase` and `ToUpperChar` are ASCII-only in the same way.
- Claims.Claim.Copy: gives the copy its own banned set. The Java copy constructor
  shares `bannedPlayerIds` with the original, so a later ban through one object
  shows in the other. A value type cannot share.
- BoundingBoxes.OfBlocks: returns None on an empty collection, where Java throws
  IllegalArgumentException.
- BoundingBoxes.Box.Expand, BoundingBoxes.Box.Move, BoundingBoxes.Box.ExpandX,
  BoundingBoxes.Box.ExpandY, BoundingBoxes.Box.ExpandZ: require that no new bound
  leaves the `int` range. Java's `int` arithmetic would wrap. The class methods of
  the same names carry the same requirement.
- Claims.GetPermissions: takes the table's keys in an arbitrary order fixed by the
  model, not `HashMap` iteration order. The contract states the contents of each list
  and leaves the order open.
- Registries.DefaultedRegistry.SetDefaultProvider: a null provider is reported as
  `ok == false` with nothing changed, where `requireNonNull` throws a
  NullPointerException. Registry names and registry keys are non-null by their
  types.
- Claims.IsGrantedBy: is not shown in the source. It is modelled as the declaration
  order of `ClaimPermission`, strongest first.
- `getDefaultDenial`'s messages are values (`Denial`), not suppliers of text. The
  text of the catch-all message is not modelled, beyond whether it carries the
  ignore-claims advertisement.
- ChunkIndex.ChunkHash: states the hash arithmetically, as a signed high word and an
  unsigned low word. The bit-level identity with `chunkz ^ (chunkx << 32)` is
  written out in the comment but not proved.
- Creation.Admit and DataStores.DataStore.CreateClaim: require that a parent is a
  top-level claim of the store. The source never creates a claim under a
  subdivision. The two-level hierarchy is what `WellFormed` keeps.
- Stores.Deleted, Purging.WorldDeletedMeans, Resizing.ResizedIndex,
  Resizing.ResizedSubdivisionIndex, Stores.DeleteChildren, Indexing.TruncateIndexed,
  Indexing.ResizedTopLevelIndexed, Indexing.ResizedSubdivisionIndexed, Indexing.ResizedIndexed, Indexing.DeletedIndexed, Indexing.WorldDeletedIndexed: assume, where stated, that ids are apart. That
  means no two claims share an id, and no subdivision shares one with an indexed
  claim. Removal from the list and from the index goes by id, so without this
  condition the source removes whichever claim comes first with the id.
- BoundingBoxes.BoundingBox.Expand3, BoundingBoxes.BoundingBox.ExpandAll: require
  `CanExpand3`, that no new bound leaves the `int` range. Java's `int` arithmetic
  would wrap there; the wrapped box is not modelled.
- Registries.Registry.Items: is the set of values. Java's `values()` is a
  `Collection` that holds a value once per key, so two keys with the same value
  count once here.
- JavaString.ParseInt: accepts ASCII digits `0`-`9` only. `Integer.parseInt` goes
  through `Character.digit`, which also accepts other Unicode decimal digits.
- JavaString.LexLess: compares characters as Unicode scalar values. Java's
  `compareTo` compares UTF-16 code units, so a character above U+FFFF (a surrogate
  pair starting at U+D800) sorts below U+FFFF in Java and above it here. Names made
  of characters in the Basic Multilingual Plane order the same way.
- Lookups.ClaimAtMeans: finds a claim that holds the location only when the index
  is complete (`Indexed`). The `Indexing` lemmas show every operation keeps it, some
  under ids apart. That a store loaded from disk starts out complete is not
  modelled, since loading is not.
- Java's `int` widths on block coordinates are kept, as `int32`. Double-valued
  centres, `BlockFace` resizing and moving, and the Bukkit and vector constructors
  of `BoundingBox` are left out: they are floating point or foreign types.
- The claim operations outside the core are left out: siege, fluids, entity and
  active-block limits, investment scores, `deleteClaimsForPlayer`,
  `resizeClaimWithChecks`, and message loading.

## Findings

| source | as written | input that shows it | evidently intended | confidence | as-written member | corrected member |
|---|---|---|---|---|---|---|
| src/main/java/me/ryanhamshire/GriefPrevention/DataStore.java:644-647 | `deleteClaim`'s child loop moves `j` on after each deletion, while each deletion shifts the remaining children down one place, so only the children at even positions are deleted | a top-level claim with two subdivisions: the second stays among the children, still marked as in the store, and a second `deleteClaim` deletes it | delete every subdivision, so that deleting a claim twice is the same as deleting it once | not executed | Deletions.DeletedTwiceManyChildren | Deletions.DeletedAllTwice |
| src/main/java/me/ryanhamshire/GriefPrevention/Claim.java:286-292 | `getArea` adds 1 to `getLength()` and `getWidth()`, which already count both end blocks | a one-block claim: the box area is 1, `getArea` answers 4 | the number of blocks in the claim's base, (max - min + 1) on each axis multiplied | not executed | Claims.GetAreaOneLargerPerAxis | BoundingBoxes.SizesOfSmallBox |
