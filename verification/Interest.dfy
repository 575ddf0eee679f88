/**
 Interest-list tracking: what a channel believes about the epoll set (`listed`
 and `events`) against what the kernel holds.

 `Watch` is one channel together with the kernel's entry for its descriptor.  The
 kernel accepts ADD only for an absent descriptor and MOD or DEL only for a
 present one.
 */
module Interest {
  import opened Text

  datatype Event = In | Pri | Out | RdHup | Err | Hup

  type Mask = set<Event>

  const READ_EVENTS: Mask := {In, Pri}

  datatype CtlOp = Add | Mod | Del

  /** `ctl_op_from`. */
  function CtlOpFrom(listed: bool, events: Mask): CtlOp {
    if !listed then Add else if events == {} then Del else Mod
  }

  predicate KernelAccepts(present: bool, op: CtlOp) {
    op.Add? != present
  }

  /** The kernel's rules: EEXIST for a second ADD, ENOENT for anything else on an absent one. */
  lemma KernelRules(present: bool)
    ensures KernelAccepts(present, Add) <==> !present
    ensures KernelAccepts(present, Mod) <==> present
    ensures KernelAccepts(present, Del) <==> present
  {
  }

  /** `set_state_in_interest_list`, after a successful call. */
  function ListedAfter(listed: bool, events: Mask): bool {
    !listed || events != {}
  }

  /** A channel and the kernel's entry for it; `faults` counts the refused `epoll_ctl`
      calls and the failed asserts of `ctl_op_from`. */
  datatype Watch = Watch(events: Mask, listed: bool, kernel: Option<Mask>, faults: nat)

  const UNWATCHED := Watch({}, false, None, 0)

  /** `update_channel`, for the mask the channel now has. */
  function Update(w: Watch): Watch {
    var op := CtlOpFrom(w.listed, w.events);
    if (w.listed || w.events != {}) && KernelAccepts(w.kernel.Some?, op)
    then w.(kernel := if op.Del? then None else Some(w.events),
            listed := ListedAfter(w.listed, w.events))
    else w.(faults := w.faults + 1)
  }

  function EnableReading(w: Watch): Watch {
    Update(w.(events := w.events + READ_EVENTS))
  }

  function EnableWriting(w: Watch): Watch {
    Update(w.(events := w.events + {Out}))
  }

  function DisableWriting(w: Watch): Watch {
    Update(w.(events := w.events - {Out}))
  }

  function DisableAll(w: Watch): Watch {
    Update(w.(events := {}))
  }

  /** The channel's flag and mask are the truth about the kernel, and nothing was refused. */
  predicate Agrees(w: Watch) {
    && w.faults == 0
    && w.kernel == (if w.listed then Some(w.events) else None)
    && (w.listed <==> w.events != {})
  }

  /** From an agreeing channel, changing the mask to `e` keeps agreement exactly when the
      channel was listed or `e` is not empty; and then the kernel holds exactly `e`. */
  lemma UpdateExact(w: Watch, e: Mask)
    requires Agrees(w)
    ensures Agrees(Update(w.(events := e))) <==> w.listed || e != {}
    ensures Agrees(Update(w.(events := e))) ==>
              Update(w.(events := e)).kernel == if e == {} then None else Some(e)
  {
  }

  // ---- The code --------------------------------------------------------------------------

  class Epoller {
    // The kernel's interest set.
    var kernel: map<nat, Mask>

    constructor ()
      ensures kernel == map[]
    {
      kernel := map[];
    }

    /** `::epoll_ctl`. */
    method EpollCtl(op: CtlOp, fd: nat, mask: Mask) returns (ok: bool)
      modifies this
      ensures ok == KernelAccepts(fd in old(kernel), op)
      ensures !ok ==> kernel == old(kernel)
      ensures ok ==> kernel == if op.Del? then old(kernel) - {fd} else old(kernel)[fd := mask]
    {
      ok := KernelAccepts(fd in kernel, op);
      if ok {
        kernel := if op.Del? then kernel - {fd} else kernel[fd := mask];
      }
    }

    /** `update_channel`: a refused call leaves the channel's flag alone. */
    method UpdateChannel(channel: Channel)
      requires channel.inInterestList || channel.events != {}
      modifies this, channel`inInterestList
      ensures var op := CtlOpFrom(old(channel.inInterestList), channel.events);
              if KernelAccepts(channel.fd in old(kernel), op) then
                && kernel == (if op.Del? then old(kernel) - {channel.fd} else old(kernel)[channel.fd := channel.events])
                && channel.inInterestList == ListedAfter(old(channel.inInterestList), channel.events)
              else
                kernel == old(kernel) && channel.inInterestList == old(channel.inInterestList)
    {
      var op := CtlOpFrom(channel.inInterestList, channel.events);
      var ok := EpollCtl(op, channel.fd, channel.events);
      if ok {
        if !channel.inInterestList {
          channel.inInterestList := true;
        } else if channel.events == {} {
          channel.inInterestList := false;
        } else {
          channel.inInterestList := true;
        }
      }
    }
  }

  class Channel {
    const epoller: Epoller
    const fd: nat
    var events: Mask
    var inInterestList: bool

    ghost function Model(): Watch
      reads this, epoller
    {
      Watch(events, inInterestList, if fd in epoller.kernel then Some(epoller.kernel[fd]) else None, 0)
    }

    constructor (epoller: Epoller, fd: nat)
      ensures this.epoller == epoller && this.fd == fd
      ensures events == {} && !inInterestList
    {
      this.epoller := epoller;
      this.fd := fd;
      events := {};
      inInterestList := false;
    }

    /** Every update moves this channel as `Update` does and no other descriptor at all.  The
        precondition is the assert of `ctl_op_from`. */
    method SetEvents(mask: Mask)
      requires Agrees(Model()) && (inInterestList || mask != {})
      modifies this, epoller
      ensures Model() == Update(old(Model()).(events := mask)) && Agrees(Model())
      ensures forall f :: f != fd ==> (f in epoller.kernel <==> f in old(epoller.kernel))
      ensures forall f :: f != fd && f in epoller.kernel ==> epoller.kernel[f] == old(epoller.kernel)[f]
    {
      events := mask;
      epoller.UpdateChannel(this);
    }
  }
}
