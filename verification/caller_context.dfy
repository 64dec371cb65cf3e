/** The per-thread caller slot (`Approvals.currentCaller`).

    The slot holds the chain captured by the last `SetCaller` on this thread,
    or nothing before the first capture. `live` is the chain a fresh capture
    would see at this point of the call. */
module CallerContext {
  import opened Wrappers
  import opened CallChain

  /** SetCaller: replace the slot with a fresh capture. */
  function SetCaller(live: Chain): (slot: Option<Chain>)
    ensures slot.Some? && slot.value == live
  {
    Some(live)
  }

  /** CurrentCaller: the cached chain, capturing one first when the slot is empty.
      Returns the chain read and the slot afterwards. */
  function CurrentCaller(slot: Option<Chain>, live: Chain): (r: (Chain, Option<Chain>))
    ensures r.1 == Some(r.0)
    ensures slot.Some? ==> r.0 == slot.value && r.1 == slot
    ensures slot.None? ==> r.0 == live
  {
    match slot
    case Some(c) => (c, slot)
    case None => (live, SetCaller(live))
  }

  /** Once a chain is cached, later reads return it whatever the live chain
      is by then: the cache is only replaced by SetCaller. */
  lemma CachedChainIsSticky(slot: Option<Chain>, live1: Chain, live2: Chain)
    ensures CurrentCaller(CurrentCaller(slot, live1).1, live2) == CurrentCaller(slot, live1)
  {
  }

  /** A read straight after SetCaller sees exactly the fresh capture. */
  lemma ReadAfterSetCallerIsFresh(slot: Option<Chain>, live: Chain)
    ensures CurrentCaller(SetCaller(live), live).0 == live
  {
  }
}
