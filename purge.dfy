/** `deleteClaimsInWorld`: the loop over the top-level list that deletes each claim of a
    world — admin claims only when asked to — and steps back after each deletion. */
module Purging {
  import opened Wrappers
  import opened Claims
  import opened ChunkIndex
  import opened Stores
  import opened Lookups

  /** Ids keep the top-level list apart: no two entries share an id, and no
      subdivision object has the id of an entry. */
  predicate IdsApart(s: Store)
  {
    ChildIdsApart(s)
    && forall a, b :: 0 <= a < b < |s.claims| ==>
         s.claims[a] in s.heap && s.claims[b] in s.heap && s.heap[s.claims[a]].id != s.heap[s.claims[b]].id
  }

  /** The list with position i taken out. */
  function Without(list: seq<Ref>, i: nat): (r: seq<Ref>)
    requires i < |list|
    ensures |r| == |list| - 1
  {
    list[..i] + list[i + 1..]
  }

  /** Entry a of the list without position i. */
  lemma WithoutAt(list: seq<Ref>, i: nat, a: nat)
    requires i < |list| && a < |list| - 1
    ensures Without(list, i)[a] == if a < i then list[a] else list[a + 1]
  {
  }

  /** The removal loop of `deleteClaim` stops at position k when the entry there is the
      first one with the id. */
  lemma {:induction false} RemoveFirstWithIdAt(b: seq<Ref>, h: Heap, id: Option<int>, k: nat)
    requires AllIn(h, b) && k < |b| && h[b[k]].id == id
    requires forall j :: 0 <= j < k ==> h[b[j]].id != id
    ensures RemoveFirstWithId(b, h, id) == Without(b, k)
    decreases k
  {
    if k == 0 {
      assert b[..0] + b[1..] == b[1..];
    } else {
      var tail := b[1..];
      assert h[b[0]].id != id;
      assert RemoveFirstWithId(b, h, id) == [b[0]] + RemoveFirstWithId(tail, h, id);
      RemoveFirstWithIdAt(tail, h, id, k - 1);
      assert b[..k] == [b[0]] + tail[..k - 1];
      assert b[k + 1..] == tail[k..];
    }
  }

  /** Taking one entry out of a list kept apart by ids keeps it apart, under any heap
      that agrees on the ids and parents. */
  lemma WithoutApart(s: Store, t: Store, i: nat)
    requires IdsApart(s) && AllIn(s.heap, s.claims) && i < |s.claims|
    requires t.claims == Without(s.claims, i) && SameIdentity(s.heap, t.heap)
    ensures IdsApart(t)
  {
    forall a | 0 <= a < |t.claims|
      ensures t.claims[a] in t.heap
    {
      WithoutAt(s.claims, i, a);
    }
    forall a, b | 0 <= a < b < |t.claims|
      ensures t.heap[t.claims[a]].id != t.heap[t.claims[b]].id
    {
      var a0 := if a < i then a else a + 1;
      var b0 := if b < i then b else b + 1;
      WithoutAt(s.claims, i, a);
      WithoutAt(s.claims, i, b);
      assert t.claims[a] == s.claims[a0] && t.claims[b] == s.claims[b0] && a0 < b0;
      assert s.heap[s.claims[a0]].id != s.heap[s.claims[b0]].id;
      assert t.heap[s.claims[a0]].id == s.heap[s.claims[a0]].id && t.heap[s.claims[b0]].id == s.heap[s.claims[b0]].id;
    }
    forall j, q | 0 <= j < |t.claims| && q in t.heap && t.heap[q].parent.Some?
      ensures t.claims[j] in t.heap && t.heap[t.claims[j]].id != t.heap[q].id
    {
      var j0 := if j < i then j else j + 1;
      WithoutAt(s.claims, i, j);
      assert t.claims[j] == s.claims[j0];
      assert q in s.heap && s.heap[q].parent.Some? && t.heap[q].id == s.heap[q].id;
      assert s.heap[s.claims[j0]].id != s.heap[q].id;
    }
    assert ChildIdsApart(t);
  }

  /** Deleting the top-level claim at position i of a list kept apart by ids takes out
      exactly that entry, and keeps the list apart. */
  lemma DeletedListEntry(s: Store, i: nat)
    requires Valid(s) && IdsApart(s) && i < |s.claims|
    ensures Deleted(s, s.claims[i]).claims == Without(s.claims, i)
    ensures IdsApart(Deleted(s, s.claims[i]))
  {
    var c := s.claims[i];
    var s1 := DeleteChildren(s, c, 1);
    assert s1.claims == s.claims;
    assert forall j :: 0 <= j < i ==> s1.heap[s.claims[j]].id != s1.heap[c].id;
    RemoveFirstWithIdAt(s1.claims, s1.heap, s1.heap[c].id, i);
    var s' := Deleted(s, c);
    assert s'.claims == Without(s.claims, i);
    WithoutApart(s, s', i);
  }

  lemma DeletedEntryIfApart(s: Store, i: nat)
    requires Valid(s) && i < |s.claims|
    ensures IdsApart(s) ==>
      Deleted(s, s.claims[i]).claims == Without(s.claims, i) && IdsApart(Deleted(s, s.claims[i]))
  {
    if IdsApart(s) {
      DeletedListEntry(s, i);
    }
  }

  /** Deleting a claim of the list shortens the list, whatever the ids. */
  lemma DeletedShrinks(s: Store, i: nat)
    requires Valid(s) && i < |s.claims|
    ensures |Deleted(s, s.claims[i]).claims| < |s.claims|
  {
    var c := s.claims[i];
    var s1 := DeleteChildren(s, c, 1);
    RemovalShrinks(s.claims, s1.claims, s1.heap, i);
  }

  /** The removal loop shortens a list that still holds the claim at position i, or one
      already shorter. */
  lemma RemovalShrinks(list: seq<Ref>, list1: seq<Ref>, h1: Heap, i: nat)
    requires AllIn(h1, list1) && i < |list| && list[i] in h1
    requires |list1| < |list| || list1 == list
    ensures |RemoveFirstWithId(list1, h1, h1[list[i]].id)| < |list|
  {
    if list1 == list {
      assert h1[list1[i]].id == h1[list[i]].id;
    }
  }

  /** The claims `deleteClaimsInWorld` deletes: those of the world, admin claims only
      when `deleteAdminClaims` is set. */
  predicate Doomed(h: Heap, r: Ref, world: World, deleteAdminClaims: bool)
    requires WellFormed(h) && r in h
  {
    h[r].world == world && (deleteAdminClaims || !IsAdminClaim(h, r))
  }

  /** The entries that are not doomed, in order. */
  function Survivors(h: Heap, rs: seq<Ref>, world: World, deleteAdminClaims: bool): (r: seq<Ref>)
    requires WellFormed(h) && AllIn(h, rs)
    ensures forall x :: x in r <==> x in rs && !Doomed(h, x, world, deleteAdminClaims)
    decreases |rs|
  {
    if rs == [] then []
    else
      assert forall x :: x in rs <==> x == rs[0] || x in rs[1..];
      (if Doomed(h, rs[0], world, deleteAdminClaims) then [] else [rs[0]])
      + Survivors(h, rs[1..], world, deleteAdminClaims)
  }

  /** Heaps that agree on ids, worlds, parents and owners doom the same claims. */
  lemma DoomedSameIdentity(h: Heap, h': Heap, r: Ref, world: World, deleteAdminClaims: bool)
    requires WellFormed(h) && WellFormed(h') && SameIdentity(h, h') && r in h
    ensures Doomed(h', r, world, deleteAdminClaims) == Doomed(h, r, world, deleteAdminClaims)
  {
  }

  lemma {:induction false} SurvivorsSameIdentity(h: Heap, h': Heap, rs: seq<Ref>, world: World, deleteAdminClaims: bool)
    requires WellFormed(h) && WellFormed(h') && SameIdentity(h, h') && AllIn(h, rs)
    ensures Survivors(h', rs, world, deleteAdminClaims) == Survivors(h, rs, world, deleteAdminClaims)
    decreases |rs|
  {
    if rs != [] {
      DoomedSameIdentity(h, h', rs[0], world, deleteAdminClaims);
      SurvivorsSameIdentity(h, h', rs[1..], world, deleteAdminClaims);
    }
  }

  /** A doomed head is dropped. */
  lemma SurvivorsDoomedHead(h: Heap, rs: seq<Ref>, world: World, deleteAdminClaims: bool)
    requires WellFormed(h) && AllIn(h, rs) && rs != [] && Doomed(h, rs[0], world, deleteAdminClaims)
    ensures Survivors(h, rs, world, deleteAdminClaims) == Survivors(h, rs[1..], world, deleteAdminClaims)
  {
  }

  /** Any other head is kept. */
  lemma SurvivorsKeptHead(h: Heap, rs: seq<Ref>, world: World, deleteAdminClaims: bool)
    requires WellFormed(h) && AllIn(h, rs) && rs != [] && !Doomed(h, rs[0], world, deleteAdminClaims)
    ensures Survivors(h, rs, world, deleteAdminClaims) == [rs[0]] + Survivors(h, rs[1..], world, deleteAdminClaims)
  {
  }

  /** One deletion of the loop, in closed form: `list1` is the list after the deletion,
      under heap h1, and `list2` the list the rest of the loop leaves. */
  lemma DeleteStep(h: Heap, h1: Heap, list: seq<Ref>, list1: seq<Ref>, list2: seq<Ref>, i: nat, world: World, deleteAdminClaims: bool)
    requires WellFormed(h) && WellFormed(h1) && SameIdentity(h, h1) && AllIn(h, list)
    requires i < |list| && Doomed(h, list[i], world, deleteAdminClaims)
    requires list1 == Without(list, i) && AllIn(h1, list1)
    requires list2 == list1[..i] + Survivors(h1, list1[i..], world, deleteAdminClaims)
    ensures list2 == list[..i] + Survivors(h, list[i..], world, deleteAdminClaims)
  {
    var rest := list[i..];
    assert AllIn(h, rest) && AllIn(h1, list1[i..]);
    var tail := rest[1..];
    assert list1[..i] == list[..i];
    assert list1[i..] == tail;
    SurvivorsSameIdentity(h, h1, tail, world, deleteAdminClaims);
    SurvivorsDoomedHead(h, rest, world, deleteAdminClaims);
  }

  /** One skip of the loop, in closed form. */
  lemma SkipStep(h: Heap, list: seq<Ref>, list2: seq<Ref>, i: nat, world: World, deleteAdminClaims: bool)
    requires WellFormed(h) && AllIn(h, list) && i < |list|
    requires !Doomed(h, list[i], world, deleteAdminClaims)
    requires list2 == list[..i + 1] + Survivors(h, list[i + 1..], world, deleteAdminClaims)
    ensures list2 == list[..i] + Survivors(h, list[i..], world, deleteAdminClaims)
  {
    var rest := list[i..];
    assert AllIn(h, rest);
    assert list[..i + 1] == list[..i] + [list[i]];
    assert rest[1..] == list[i + 1..];
    SurvivorsKeptHead(h, rest, world, deleteAdminClaims);
    var tail := Survivors(h, list[i + 1..], world, deleteAdminClaims);
    assert list[..i] + ([list[i]] + tail) == list[..i] + [list[i]] + tail;
  }

  /** What the loop from position i promises besides validity: s' has the same objects
      with the same identities and counters, and — when ids keep the list apart — keeps
      the entries before i and the survivors from i on. */
  predicate PurgedFrom(s: Store, s': Store, world: World, deleteAdminClaims: bool, i: nat)
  {
    WellFormed(s.heap) && AllIn(s.heap, s.claims)
    && SameIdentity(s.heap, s'.heap)
    && s'.nextRef == s.nextRef && s'.nextClaimID == s.nextClaimID
    && (IdsApart(s) && i <= |s.claims| ==>
          s'.claims == s.claims[..i] + Survivors(s.heap, s.claims[i..], world, deleteAdminClaims))
  }

  /** The end of the list: nothing is left to visit. */
  lemma PurgedAtEnd(s: Store, world: World, deleteAdminClaims: bool, i: nat)
    requires WellFormed(s.heap) && AllIn(s.heap, s.claims) && i >= |s.claims|
    ensures PurgedFrom(s, s, world, deleteAdminClaims, i)
  {
    assert i == |s.claims| ==> s.claims[..i] == s.claims && s.claims[i..] == [];
  }

  /** A doomed claim at position i is deleted — s1 is the store after the deletion, with
      the entry taken out when ids keep the list apart — and the rest of the loop starts
      again at i. */
  lemma PurgedAfterDelete(s: Store, s1: Store, s2: Store, world: World, deleteAdminClaims: bool, i: nat)
    requires WellFormed(s.heap) && AllIn(s.heap, s.claims) && WellFormed(s1.heap) && AllIn(s1.heap, s1.claims)
    requires SameIdentity(s.heap, s1.heap) && s1.nextRef == s.nextRef && s1.nextClaimID == s.nextClaimID
    requires i < |s.claims| && Doomed(s.heap, s.claims[i], world, deleteAdminClaims)
    requires IdsApart(s) ==> s1.claims == Without(s.claims, i) && IdsApart(s1)
    requires PurgedFrom(s1, s2, world, deleteAdminClaims, i)
    ensures PurgedFrom(s, s2, world, deleteAdminClaims, i)
  {
    SameIdentityTransitive(s.heap, s1.heap, s2.heap);
    if IdsApart(s) {
      DeleteStep(s.heap, s1.heap, s.claims, s1.claims, s2.claims, i, world, deleteAdminClaims);
    }
  }

  /** The same, with the deletion of `deleteClaimsInWorld` as the step: what the loop
      does after deleting the claim at position i, it does from position i. */
  lemma PurgedDeleteCase(s: Store, world: World, deleteAdminClaims: bool, i: nat)
    requires Valid(s) && i < |s.claims| && Doomed(s.heap, s.claims[i], world, deleteAdminClaims)
    ensures var s1 := Deleted(s, s.claims[i]);
      PurgedFrom(s1, WorldDeleted(s1, world, deleteAdminClaims, i), world, deleteAdminClaims, i) ==>
      PurgedFrom(s, WorldDeleted(s, world, deleteAdminClaims, i), world, deleteAdminClaims, i)
  {
    var s1 := Deleted(s, s.claims[i]);
    if PurgedFrom(s1, WorldDeleted(s1, world, deleteAdminClaims, i), world, deleteAdminClaims, i) {
      DeletedEntryIfApart(s, i);
      PurgedAfterDelete(s, s1, WorldDeleted(s1, world, deleteAdminClaims, i), world, deleteAdminClaims, i);
    }
  }

  /** Any other claim at position i is passed. */
  lemma PurgedAfterSkip(s: Store, s2: Store, world: World, deleteAdminClaims: bool, i: nat)
    requires WellFormed(s.heap) && AllIn(s.heap, s.claims)
    requires i < |s.claims| && !Doomed(s.heap, s.claims[i], world, deleteAdminClaims)
    requires PurgedFrom(s, s2, world, deleteAdminClaims, i + 1)
    ensures PurgedFrom(s, s2, world, deleteAdminClaims, i)
  {
    if IdsApart(s) {
      SkipStep(s.heap, s.claims, s2.claims, i, world, deleteAdminClaims);
    }
  }

  /** `deleteClaimsInWorld(world, deleteAdminClaims)`, from list position i: a doomed
      claim is deleted and the position is visited again (`i--`); any other claim is
      passed. */
  function WorldDeleted(s: Store, world: World, deleteAdminClaims: bool, i: nat): (s': Store)
    requires Valid(s)
    ensures Valid(s')
    decreases |s.claims|, |s.claims| - i
  {
    if i >= |s.claims| then s
    else
      var c := s.claims[i];
      if s.heap[c].world == world && (deleteAdminClaims || !IsAdminClaim(s.heap, c)) then
        DeletedShrinks(s, i);
        WorldDeleted(Deleted(s, c), world, deleteAdminClaims, i)
      else
        WorldDeleted(s, world, deleteAdminClaims, i + 1)
  }

  /** The loop at the end of the list. */
  lemma PurgedEndCase(s: Store, world: World, deleteAdminClaims: bool, i: nat)
    requires Valid(s) && i >= |s.claims|
    ensures PurgedFrom(s, WorldDeleted(s, world, deleteAdminClaims, i), world, deleteAdminClaims, i)
  {
    PurgedAtEnd(s, world, deleteAdminClaims, i);
  }

  /** The loop passing the claim at position i. */
  lemma PurgedSkipCase(s: Store, world: World, deleteAdminClaims: bool, i: nat)
    requires Valid(s) && i < |s.claims| && !Doomed(s.heap, s.claims[i], world, deleteAdminClaims)
    ensures PurgedFrom(s, WorldDeleted(s, world, deleteAdminClaims, i + 1), world, deleteAdminClaims, i + 1) ==>
      PurgedFrom(s, WorldDeleted(s, world, deleteAdminClaims, i), world, deleteAdminClaims, i)
  {
    if PurgedFrom(s, WorldDeleted(s, world, deleteAdminClaims, i + 1), world, deleteAdminClaims, i + 1) {
      PurgedAfterSkip(s, WorldDeleted(s, world, deleteAdminClaims, i + 1), world, deleteAdminClaims, i);
    }
  }

  /** The deletion from position i keeps the objects and the counters, and leaves the
      list's first i entries followed by the survivors of the rest. */
  lemma {:induction false} WorldDeletedPurges(s: Store, world: World, deleteAdminClaims: bool, i: nat)
    requires Valid(s)
    ensures PurgedFrom(s, WorldDeleted(s, world, deleteAdminClaims, i), world, deleteAdminClaims, i)
    decreases |s.claims|, |s.claims| - i
  {
    if i >= |s.claims| {
      PurgedEndCase(s, world, deleteAdminClaims, i);
    } else {
      var c := s.claims[i];
      if Doomed(s.heap, c, world, deleteAdminClaims) {
        DeletedShrinks(s, i);
        WorldDeletedPurges(Deleted(s, c), world, deleteAdminClaims, i);
        PurgedDeleteCase(s, world, deleteAdminClaims, i);
      } else {
        WorldDeletedPurges(s, world, deleteAdminClaims, i + 1);
        PurgedSkipCase(s, world, deleteAdminClaims, i);
      }
    }
  }

  /** What `deleteClaimsInWorld` promises, when ids keep the list apart: no claim of the
      world is left in the list — except admin claims when they are not to be deleted —
      and every other entry stays. */
  lemma WorldDeletedMeans(s: Store, world: World, deleteAdminClaims: bool)
    requires Valid(s) && IdsApart(s)
    ensures var s' := WorldDeleted(s, world, deleteAdminClaims, 0);
      (forall j :: 0 <= j < |s'.claims| ==>
         s'.heap[s'.claims[j]].world != world || (!deleteAdminClaims && IsAdminClaim(s'.heap, s'.claims[j])))
      && (forall j :: 0 <= j < |s.claims| && !Doomed(s.heap, s.claims[j], world, deleteAdminClaims) ==>
            s.claims[j] in s'.claims)
  {
    var s' := WorldDeleted(s, world, deleteAdminClaims, 0);
    WorldDeletedPurges(s, world, deleteAdminClaims, 0);
    assert s.claims[..0] == [] && s.claims[0..] == s.claims;
    forall j | 0 <= j < |s'.claims|
      ensures s'.heap[s'.claims[j]].world != world || (!deleteAdminClaims && IsAdminClaim(s'.heap, s'.claims[j]))
    {
      assert s'.claims[j] in Survivors(s.heap, s.claims, world, deleteAdminClaims);
      DoomedSameIdentity(s.heap, s'.heap, s'.claims[j], world, deleteAdminClaims);
    }
  }
}
