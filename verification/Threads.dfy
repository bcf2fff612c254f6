/** The thread record of src/thread_android.c and its delete handshake with a wait set. */
module Threads {
  import opened Members
  import opened WaitSets

  datatype DetachState = DETACH | JOIN

  /** ANDROID_THREAD as far as deleting goes. */
  class AndroidThread {
    var deleteMe: bool
    var waitSet: WaitSet?
    var detachState: DetachState

    constructor (detachState: DetachState)
      ensures !deleteMe && waitSet == null && this.detachState == detachState
    {
      deleteMe := false;
      waitSet := null;
      this.detachState := detachState;
    }

    ghost function Registered(): set<WaitSet>
      reads this`waitSet
    {
      if waitSet == null then {} else {waitSet}
    }

    /** ofc_thread_set_waitset_impl. */
    method SetWaitset(waitSet: WaitSet?)
      modifies this`waitSet
      ensures this.waitSet == waitSet
    {
      this.waitSet := waitSet;
    }

    /** ofc_thread_delete_impl: the flag goes up before the wake, and a registered set of positive
        capacity has something in its pipe afterwards even if it was full. */
    method Delete()
      modifies this`deleteMe, Registered()`pipe
      ensures deleteMe
      ensures waitSet != null ==>
        waitSet.pipe == (if |old(waitSet.pipe)| < waitSet.capacity then old(waitSet.pipe) + [NULL_HANDLE]
                         else old(waitSet.pipe)) &&
        (waitSet.capacity > 0 ==> waitSet.pipe != [])
    {
      deleteMe := true;
      if waitSet != null {
        waitSet.Wake();
      }
    }

    /** ofc_thread_is_deleting_impl. */
    method IsDeleting() returns (deleting: bool)
      ensures deleting == deleteMe
    {
      deleting := deleteMe;
    }

    /** ofc_thread_detach_impl. */
    method Detach()
      modifies this`detachState
      ensures detachState == DETACH
    {
      detachState := DETACH;
    }
  }
}
