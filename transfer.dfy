/** `changeClaimOwner`: handing a top-level claim to a new owner. The transfer event is
    an input: whether a listener cancelled it, and the owner it names after listeners
    ran. The player-data claim lists it also updates are not modelled. */
module Transfers {
  import opened Wrappers
  import opened Uuids
  import opened Claims
  import opened Stores

  /** `ClaimTransferEvent` once every listener has seen it. */
  datatype TransferEvent = TransferEvent(cancelled: bool, newOwner: Option<Uuid>)

  /** `DataStore.NoTransferException`. */
  datatype NoTransferException = NoTransferException(message: string)

  const SubdivisionTransferMessage := "Subdivisions can't be transferred.  Only top-level claims may change owners."

  /** The event as fired, before any listener: not cancelled, naming the requested owner. */
  function FiredEvent(newOwnerID: Option<Uuid>): TransferEvent
  {
    TransferEvent(false, newOwnerID)
  }

  /** `changeClaimOwner(claim, newOwnerID)`: a subdivision throws; a cancelled event leaves
      the store as it was; otherwise the claim takes the event's owner and is saved,
      which assigns an id when it has none. */
  function OwnerChanged(s: Store, r: Ref, event: TransferEvent): (t: Result<Store, NoTransferException>)
    requires r in s.heap
    ensures t.Failure? <==> s.heap[r].parent.Some?
    ensures t.Success? ==> Reshaped(s, t.value)
    ensures t.Success? && event.cancelled ==> t.value == s
    ensures t.Success? && !event.cancelled ==>
      t.value.heap[r] == s.heap[r].(ownerID := event.newOwner, id := t.value.heap[r].id)
      && t.value.heap[r].id.Some?
      && (s.heap[r].id.Some? && s.heap[r].id != Some(-1) ==> t.value.heap[r].id == s.heap[r].id)
    ensures t.Success? ==> forall q :: q in s.heap && q != r ==> t.value.heap[q] == s.heap[q]
  {
    if s.heap[r].parent.Some? then Failure(NoTransferException(SubdivisionTransferMessage))
    else if event.cancelled then Success(s)
    else
      var moved := Put(s, r, s.heap[r].(ownerID := event.newOwner));
      AssignIdFresh(moved, r);
      Success(AssignId(moved, r))
  }

  /** A transfer keeps the store consistent. */
  lemma OwnerChangedValid(s: Store, r: Ref, event: TransferEvent)
    requires Valid(s) && r in s.heap
    ensures OwnerChanged(s, r, event).Success? ==> Valid(OwnerChanged(s, r, event).value)
  {
    if OwnerChanged(s, r, event).Success? {
      ReshapedValid(s, OwnerChanged(s, r, event).value);
    }
  }

  /** With no listener in the way, a top-level claim ends up owned by the requested owner. */
  lemma UnopposedTransfer(s: Store, r: Ref, newOwnerID: Option<Uuid>)
    requires r in s.heap && s.heap[r].parent.None?
    ensures OwnerChanged(s, r, FiredEvent(newOwnerID)).Success?
    ensures OwnerChanged(s, r, FiredEvent(newOwnerID)).value.heap[r].ownerID == newOwnerID
  {
  }
}
