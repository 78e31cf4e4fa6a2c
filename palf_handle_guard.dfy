/** PalfHandleGuard: a move-only owner of a PALF handle that closes the handle
    through its PalfEnv when reset or destroyed. What a handle or an environment
    does is not modelled; a handle is a value naming its implementation, an
    environment is an object identity, and every close the guard asks for is
    recorded in a ghost log. */
module PalfGuard {
  import opened ObCommon

  /** palf::PalfHandle as a value: the implementation it refers to, if any. */
  datatype PalfHandle = PalfHandle(impl: Option<nat>)

  /** A default-constructed PalfHandle refers to no implementation. */
  const EmptyHandle: PalfHandle := PalfHandle(None)

  /** A caller's PalfHandle variable, which set() reads and then disowns. */
  class HandleSlot {
    var handle: PalfHandle

    constructor(h: PalfHandle)
      ensures handle == h
    {
      handle := h;
    }
  }

  /** palf::PalfEnv, by identity only. */
  class PalfEnv {
    constructor() {}
  }

  /** common::ObRole. */
  datatype Role = InvalidRole | Leader | Follower | StandbyLeader

  /** One palf_env_->close(palf_handle_) call: the binding (the number of the
      set() call that made it) together with the environment and handle closed. */
  datatype CloseEvent = CloseEvent(binding: nat, env: PalfEnv, handle: PalfHandle)

  /** Each binding appears at most once in a close log, and bindings are closed
      in the order they were made. */
  ghost predicate ClosedInOrder(closes: seq<CloseEvent>)
  {
    forall i, j :: 0 <= i < j < |closes| ==> closes[i].binding < closes[j].binding
  }

  class PalfHandleGuard {
    var palfHandle: PalfHandle
    var palfEnv: PalfEnv?
    /** How many times set() has been called. */
    ghost var binding: nat
    /** Every close this guard has asked its environments for, oldest first. */
    ghost var closes: seq<CloseEvent>

    /** Closes go to past or current bindings, each at most once, and a guard
        that holds an environment has not yet closed its current binding. */
    ghost predicate Valid()
      reads this
    {
      && ClosedInOrder(closes)
      && (forall i :: 0 <= i < |closes| ==> closes[i].binding <= binding)
      && (palfEnv != null ==> forall i :: 0 <= i < |closes| ==> closes[i].binding < binding)
    }

    /** PalfHandleGuard(): an empty handle and no environment. */
    constructor()
      ensures Valid()
      ensures palfHandle == EmptyHandle && palfEnv == null
      ensures binding == 0 && closes == []
    {
      palfHandle := EmptyHandle;
      palfEnv := null;
      binding := 0;
      closes := [];
    }

    /** reset(): with an environment, close the held handle through it and forget
        the environment; without one, do nothing. */
    method Reset()
      requires Valid()
      modifies this
      ensures Valid()
      ensures palfEnv == null
      ensures palfHandle == old(palfHandle) && binding == old(binding)
      ensures old(palfEnv) != null ==>
                closes == old(closes) + [CloseEvent(old(binding), old(palfEnv), old(palfHandle))]
      ensures old(palfEnv) == null ==> closes == old(closes)
    {
      if palfEnv != null {
        closes := closes + [CloseEvent(binding, palfEnv, palfHandle)];
        palfEnv := null;
      }
    }

    /** ~PalfHandleGuard(): always runs reset(). */
    method Destroy()
      requires Valid()
      modifies this
      ensures Valid()
      ensures palfEnv == null
      ensures palfHandle == old(palfHandle) && binding == old(binding)
      ensures old(palfEnv) != null ==>
                closes == old(closes) + [CloseEvent(old(binding), old(palfEnv), old(palfHandle))]
      ensures old(palfEnv) == null ==> closes == old(closes)
    {
      Reset();
    }

    /** set(palf_handle, palf_env): take over the caller's handle and the
        environment, and clear the caller's implementation pointer. An earlier
        binding is overwritten, not closed. */
    method Set(src: HandleSlot, env: PalfEnv?)
      requires Valid()
      modifies this, src
      ensures Valid()
      ensures palfHandle == old(src.handle) && palfEnv == env
      ensures src.handle == old(src.handle).(impl := None)
      ensures binding == old(binding) + 1
      ensures closes == old(closes)
    {
      palfHandle := src.handle;
      palfEnv := env;
      src.handle := src.handle.(impl := None);
      binding := binding + 1;
    }

    /** get_role(role, proposal_id): ask the held handle, whose answer `roleOf`
        stands for, and drop its pending flag. */
    function GetRole(roleOf: PalfHandle -> (RetCode, Role, int, bool)): (r: (RetCode, Role, int))
      reads this
      ensures r.0 == roleOf(palfHandle).0
      ensures r.1 == roleOf(palfHandle).1 && r.2 == roleOf(palfHandle).2
    {
      var answer := roleOf(palfHandle);
      (answer.0, answer.1, answer.2)
    }
  }

  /** A guard's whole life when it owns one handle: constructed, set, and
      destroyed at the end of its scope closes that handle through that
      environment exactly once, and leaves the caller's variable disowned. */
  method ScopedGuard(src: HandleSlot, env: PalfEnv) returns (ghost closes: seq<CloseEvent>)
    modifies src
    ensures closes == [CloseEvent(1, env, old(src.handle))]
    ensures src.handle.impl.None?
  {
    var guard := new PalfHandleGuard();
    guard.Set(src, env);
    guard.Destroy();
    closes := guard.closes;
  }

  /** Resetting twice closes once: the second reset finds no environment. */
  method ResetTwice(g: PalfHandleGuard)
    requires g.Valid()
    modifies g
    ensures g.Valid() && g.palfEnv == null
    ensures |g.closes| == |old(g.closes)| + (if old(g.palfEnv) != null then 1 else 0)
  {
    g.Reset();
    g.Reset();
  }

  /** Setting a guard that is still bound leaves the earlier binding unclosed:
      the close log does not grow, and the earlier environment is gone. */
  method RebindLeavesOpen(g: PalfHandleGuard, src: HandleSlot, env: PalfEnv?)
    requires g.Valid() && g.palfEnv != null
    modifies g, src
    ensures g.closes == old(g.closes)
    ensures forall i :: 0 <= i < |g.closes| ==> g.closes[i].binding != old(g.binding)
  {
    g.Set(src, env);
  }
}
