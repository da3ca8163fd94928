/** Two places where Writer.h, as written, steps outside its stack of
    MaxStack slots. Each is modelled here on the stack index as written,
    with the input that shows it; the Writer class and WriterSpec model the
    corrected behaviour (at most MaxStack containers open; popping the last
    container empties the stack rather than moving the index below it). */
module WriterFindings {
  import opened WriterSpec
  import TokenizerFindings
  import Toolbox

  /** push() as written, on a stack whose innermost slot is `index`
      (`empty` when isStackEmpty() holds): the slot the container is
      written to, which is the new index, or None when push() refuses.
      isStackAvailable() only checks `_stackIndex < MAX_STACK`, before the
      index is moved up. */
  function PushAsWritten(index: nat, empty: bool): (r: Toolbox.Maybe<nat>)
    ensures r.Some? <==> index < MaxStack
    ensures r.Some? ==> r.value == if empty then index else index + 1
  {
    if index < MaxStack then Toolbox.Some(if empty then index else index + 1) else Toolbox.None
  }

  /** The index after `k` pushes onto an empty stack as written, or None
      once one of them is refused. */
  function IndexAfterPushes(k: nat): (r: Toolbox.Maybe<nat>)
    requires k >= 1
    ensures k <= MaxStack + 1 ==> r == Toolbox.Some(k - 1)
    ensures k > MaxStack + 1 ==> r == Toolbox.None
  {
    if k == 1 then PushAsWritten(0, true)
    else match IndexAfterPushes(k - 1)
      case None => Toolbox.None
      case Some(i) => PushAsWritten(i, false)
  }

  /** Opening MaxStack + 1 containers is accepted as written, and the last
      one is written to `_stack[MaxStack]`, one past the array; only the
      next open is refused. The corrected push refuses the 21st (see
      NestingBounded). */
  lemma {:induction false} OpenPastStack()
    ensures IndexAfterPushes(MaxStack + 1) == Toolbox.Some(MaxStack)
    ensures IndexAfterPushes(MaxStack + 2) == Toolbox.None
  {
  }

  /** pop() as written: the index after it. On a stack that is not empty
      it always does `_stackIndex -= 1`, in size_t arithmetic. */
  function PopAsWritten(index: nat, empty: bool): (r: nat)
    requires index < TokenizerFindings.SizeTModulus
    ensures empty ==> r == index
    ensures !empty && index > 0 ==> r == index - 1
  {
    if empty then index else TokenizerFindings.SizeT(index - 1)
  }

  /** openList() then close(): the root list is pushed at index 0 without
      moving the index, and closing it moves the index to 2^64 - 1; the
      peek() that picks the next mask, and every later peek(), reads
      `_stack[2^64 - 1]`, outside the array. The corrected pop leaves
      index 0 with the slot cleared, so the stack reads as empty. */
  lemma {:induction false} CloseRootLeavesStack()
    ensures IndexAfterPushes(1) == Toolbox.Some(0)
    ensures PopAsWritten(0, false) == TokenizerFindings.SizeTModulus - 1
    ensures PopAsWritten(0, false) >= MaxStack
    ensures Popped([EmptyList]) == [] && Top(Popped([EmptyList])) == None
  {
  }
}
