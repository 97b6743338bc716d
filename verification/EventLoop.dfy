/** The event loop's registry of file events, on top of the event-port back end. */
module EventLoops {
  import opened EvPort

  const MAX_EVENT_BATCHSZ: nat := 512
  const INITIAL_EVENT: nat := 1024

  /** What one call of port_getn returns for a descriptor. */
  datatype PortEvent = PortEvent(fd: int, pollin: bool, pollout: bool)

  datatype Fired = Fired(fd: int, mask: Mask)

  ghost predicate IsMaxFd(reg: Registry, maxfd: int) {
    && -1 <= maxfd < |reg| && (maxfd >= 0 ==> reg[maxfd] != NONE)
    && forall fd :: maxfd < fd < |reg| ==> reg[fd] == NONE
  }

  /** Exactly the given events are added to a mask, or removed; the barrier is removed with the
      writable event as well. */
  predicate Adds(now: Mask, was: Mask, mask: Mask) {
    && (now.readable <==> was.readable || mask.readable) && (now.writable <==> was.writable || mask.writable)
    && (now.barrier <==> was.barrier || mask.barrier)
  }

  predicate Removes(now: Mask, was: Mask, mask: Mask) {
    && (now.readable <==> was.readable && !mask.readable) && (now.writable <==> was.writable && !mask.writable)
    && (now.barrier <==> was.barrier && !mask.barrier && !mask.writable)
  }

  class EventLoop {
    var setsize: nat
    var events: array<Mask>           // nevents entries
    var fired: array<Fired>
    var maxfd: int
    var npending: nat
    const pendingFds: array<int>
    const pendingMasks: array<Mask>
    var port: Port                    // held by the kernel

    ghost predicate Shaped()
      reads this
    {
      && events.Length <= setsize && fired.Length == events.Length
      && pendingFds.Length == pendingMasks.Length == MAX_EVENT_BATCHSZ && npending <= MAX_EVENT_BATCHSZ
      && pendingMasks != events
    }

    ghost function Registered(): (reg: Registry)
      reads this, events
    {
      events[..]
    }

    ghost function Slots(): (pend: seq<Slot>)
      requires Shaped()
      reads this, pendingFds, pendingMasks
      ensures |pend| == npending
      ensures forall i :: 0 <= i < npending ==> pend[i] == Slot(pendingFds[i], pendingMasks[i])
    {
      seq(npending, i requires 0 <= i < npending reads this, pendingFds, pendingMasks
        requires pendingFds.Length == pendingMasks.Length == MAX_EVENT_BATCHSZ && npending <= MAX_EVENT_BATCHSZ
        => Slot(pendingFds[i], pendingMasks[i]))
    }

    ghost predicate Valid()
      reads this, events, pendingFds, pendingMasks
    {
      Shaped() && EitherOr(Registered(), Slots(), port) && IsMaxFd(Registered(), maxfd)
    }

    constructor (setsize: nat)
      ensures Valid() && this.setsize == setsize && maxfd == -1 && port == map[]
      ensures fresh(events) && fresh(fired) && fresh(pendingFds) && fresh(pendingMasks)
      ensures events.Length == if setsize < 1024 then setsize else 1024
      ensures forall fd :: 0 <= fd < events.Length ==> events[fd] == NONE
    {
      this.setsize := setsize;
      var nevents := if setsize < INITIAL_EVENT then setsize else INITIAL_EVENT;
      events := new Mask[nevents](i => NONE);
      fired := new Fired[nevents](i => Fired(-1, NONE));
      maxfd := -1;
      npending := 0;
      pendingFds := new int[MAX_EVENT_BATCHSZ](i => -1);
      pendingMasks := new Mask[MAX_EVENT_BATCHSZ](i => NONE);
      port := map[];
    }

    method LookupPending(fd: int) returns (r: int)
      requires Shaped()
      ensures r == -1 ==> !Pending(Slots(), fd)
      ensures r != -1 ==> 0 <= r < npending && Slots()[r].fd == fd
    {
      for i := 0 to npending
        invariant forall j :: 0 <= j < i ==> Slots()[j].fd != fd
      {
        if pendingFds[i] == fd { return i; }
      }
      return -1;
    }

    method SetSlot(i: nat, s: Slot)
      requires Shaped() && i < npending
      modifies pendingFds, pendingMasks
      ensures Slots() == old(Slots())[i := s]
    {
      pendingFds[i], pendingMasks[i] := s.fd, s.mask;
    }

    /** Adds events of a descriptor to its slot or its association. The registry follows in the
        caller. An association may fail, and then nothing changes. Nothing refuses an empty mask,
        and then a descriptor with no events stays associated. */
    method ApiAddEvent(fd: nat, mask: Mask, kernelAccepts: bool) returns (ok: bool)
      requires Valid() && fd < events.Length
      modifies this`port, pendingFds, pendingMasks
      ensures ok ==> var m := Or(events[fd], mask); EitherOr(Registered()[fd := m], Slots(), port) <==> m != NONE
      ensures !ok ==> Valid()
      ensures ok <==> kernelAccepts || old(Pending(Slots(), fd))
      ensures Shaped() && Registered() == old(Registered())
    {
      hide EitherOr;
      var fullmask := Or(mask, events[fd]);
      var pfd := LookupPending(fd);
      if pfd != -1 {
        AddPending(Registered(), Slots(), port, pfd, mask);
        SetSlot(pfd, Slot(fd, Or(pendingMasks[pfd], fullmask)));
        return true;
      }
      if !kernelAccepts { return false; }
      ghost var pend := Slots();
      AddAssociated(Registered(), pend, port, fd, mask);
      port := port[fd := fullmask];
      assert Slots() == pend;
      return true;
    }

    method ApiDelEvent(fd: nat, mask: Mask)
      requires Valid() && fd < events.Length && events[fd] != NONE
      modifies this`port, pendingFds, pendingMasks
      ensures Shaped() && Registered() == old(Registered())
      ensures EitherOr(Registered()[fd := AndNot(Registered()[fd], mask)], Slots(), port)
    {
      hide EitherOr;
      var pfd := LookupPending(fd);
      if pfd != -1 {
        DelPending(Registered(), Slots(), port, pfd, mask);
        var m := AndNot(pendingMasks[pfd], mask);
        SetSlot(pfd, if m == NONE then Slot(-1, m) else Slot(fd, m));
        return;
      }
      ghost var pend := Slots();
      DelAssociated(Registered(), pend, port, fd, mask);
      var fullmask := AndNot(events[fd], mask);
      if fullmask == NONE {
        assert fd in port;   // dissociating cannot fail
        port := port - {fd};
      } else {
        port := port[fd := fullmask];
      }
      assert Slots() == pend;
    }

    /** Room for a descriptor: the arrays double, up to the set size. */
    method Grow(fd: nat)
      requires Valid() && events.Length <= fd < setsize
      modifies this`events, this`fired
      ensures Valid() && fd < events.Length && fresh(events) && fresh(fired) && Slots() == old(Slots())
      ensures var wanted := if 2 * old(events.Length) > fd + 1 then 2 * old(events.Length) else fd + 1;
              events.Length == if wanted > setsize then setsize else wanted
      ensures forall d :: 0 <= d < events.Length ==> events[d] == if d < old(events.Length) then old(events[d]) else NONE
    {
      hide EitherOr;
      var n := events.Length;
      var newnevents := if n * 2 > fd + 1 then n * 2 else fd + 1;
      newnevents := if newnevents > setsize then setsize else newnevents;
      var grown := new Mask[newnevents](i requires 0 <= i < newnevents reads this, events => if i < events.Length then events[i] else NONE);
      ghost var pend := Slots();
      Regrow(events[..], grown[..], pend, port);
      events := grown;
      fired := new Fired[newnevents](i => Fired(-1, NONE));
      assert Slots() == pend;
    }

    method Record(fd: nat, mask: Mask)
      requires Shaped() && fd < events.Length && IsMaxFd(Registered(), maxfd)
      modifies this`maxfd, events
      ensures Shaped() && Registered() == old(Registered())[fd := Or(old(events[fd]), mask)] && Slots() == old(Slots())
      ensures events[fd] != NONE ==> IsMaxFd(Registered(), maxfd)
    {
      events[fd] := Or(events[fd], mask);
      if fd > maxfd { maxfd := fd; }
      assert Registered() == old(Registered())[fd := Or(old(events[fd]), mask)];
    }

    /** Registers events of a descriptor. The loop stays valid unless an empty mask is given for a
        descriptor that has no events. */
    method CreateFileEvent(fd: nat, mask: Mask, kernelAccepts: bool) returns (ok: bool)
      requires Valid()
      modifies this, events, pendingFds, pendingMasks
      ensures Shaped() && setsize == old(setsize)
      ensures Valid() <==> !ok || mask != NONE || old(fd < events.Length && events[fd] != NONE)
      ensures ok <==> fd < setsize && (kernelAccepts || old(Pending(Slots(), fd)))
      ensures old(events.Length) <= events.Length && (ok ==> fd < events.Length)
      ensures forall d :: 0 <= d < events.Length ==>
                var was := if d < old(events.Length) then old(events[d]) else NONE;
                if ok && d == fd then Adds(events[d], was, mask) else events[d] == was
    {
      hide EitherOr;
      hide IsMaxFd;
      if fd >= setsize { return false; }
      if fd >= events.Length {
        Grow(fd);
      }
      ok := ApiAddEvent(fd, mask, kernelAccepts);
      if !ok { return; }
      Record(fd, mask);
    }

    /** Unregisters events of a descriptor; the barrier goes with the writable event. The entry
        of a descriptor below the set size is looked at, so it has to be allocated. */
    method DeleteFileEvent(fd: nat, mask: Mask)
      requires Valid() && (fd < setsize ==> fd < events.Length)
      modifies this`port, this`maxfd, events, pendingFds, pendingMasks
      ensures Valid() && events == old(events)
      ensures forall d :: 0 <= d < events.Length ==>
                if d == fd then Removes(events[d], old(events[d]), mask) else events[d] == old(events[d])
    {
      hide EitherOr;
      if fd >= setsize { return; }
      if events[fd] == NONE { return; }
      ghost var reg := events[..];
      ApiDelEvent(fd, Removed(mask));
      ghost var pend := Slots();
      events[fd] := AndNot(events[fd], Removed(mask));
      assert events[..] == reg[fd := AndNot(reg[fd], Removed(mask))];
      assert Slots() == pend;
      if fd == maxfd && events[fd] == NONE {
        var j := maxfd - 1;
        while j >= 0 && events[j] == NONE
          invariant -1 <= j < maxfd
          invariant forall d :: j < d < events.Length ==> events[d] == NONE
        {
          j := j - 1;
        }
        maxfd := j;
        assert Slots() == pend;
      }
    }

    /** Changes the set size unless a registered descriptor would not fit. */
    method ResizeSetSize(size: nat) returns (ok: bool)
      requires Valid()
      modifies this`setsize, this`events, this`fired
      ensures Valid() && (ok <==> size == old(setsize) || maxfd < size)
      ensures setsize == if ok then size else old(setsize)
      ensures events.Length == if ok && size < old(events.Length) then size else old(events.Length)
      ensures forall d :: 0 <= d < events.Length ==> events[d] == old(events[d])
    {
      hide EitherOr;
      if size == setsize { return true; }
      if maxfd >= size { return false; }
      setsize := size;
      ghost var pend := old(Slots());
      if size < events.Length {
        var kept := new Mask[size](i requires 0 <= i < size && size <= events.Length reads this, events => events[i]);
        Regrow(events[..], kept[..], pend, port);
        events := kept;
        fired := new Fired[size](i => Fired(-1, NONE));
      }
      assert Slots() == pend;
      return true;
    }

    /** Restores the association of everything the last poll returned. */
    method ReassociatePending()
      requires Valid()
      modifies this`port, this`npending, pendingFds, pendingMasks
      ensures Valid() && npending == 0 && Registered() == old(Registered())
    {
      hide EitherOr;
      for i := 0 to npending
        invariant Valid() && npending == old(npending) && Registered() == old(Registered())
        invariant forall j :: 0 <= j < i ==> Slots()[j].fd == -1
      {
        if pendingFds[i] == -1 { continue; }
        ghost var pend := Slots();
        Reassociate(Registered(), pend, port, i);
        port := port[pendingFds[i] := pendingMasks[i]];
        SetSlot(i, FREE);
        assert Slots() == pend[i := FREE];
      }
      DropFree(Registered(), Slots(), port);
      npending := 0;
      assert Slots() == [];
    }

    /** One poll that returns the given events: it reports them, keeps their descriptors pending
        with their full masks, and leaves the registry alone. The kernel returns registered
        descriptors, each at most once. */
    method ApiPoll(batch: seq<PortEvent>) returns (nevents: nat)
      requires Valid() && |batch| <= MAX_EVENT_BATCHSZ && FromKernel(batch, Registered())
      modifies this`port, this`npending, fired, pendingFds, pendingMasks
      ensures Valid() && Registered() == old(Registered())
      ensures nevents == |batch| <= fired.Length && Slots() == Taken(batch, Registered())
      ensures forall i :: 0 <= i < nevents ==>
                && fired[i].fd == batch[i].fd && !fired[i].mask.barrier
                && fired[i].mask.readable == batch[i].pollin && fired[i].mask.writable == batch[i].pollout
    {
      hide EitherOr;
      hide IsMaxFd;
      hide FromKernel;
      ReassociatePending();
      ghost var reg := Registered();
      AllAssociated(reg, port);
      DistinctFit(batch, reg);
      assert Slots() == [];
      StillThere(batch, reg, 0);
      for i := 0 to |batch|
        invariant Polled(batch, reg, i)
      {
        PollOne(batch, reg, i);
      }
      assert batch[..|batch|] == batch;
      forall i | 0 <= i < |batch| ensures fired[i] == Reports(batch)[i] { assert fired[i] == fired[..|batch|][i]; }
      return |batch|;
    }

    /** State after the first `i` events of a poll. */
    ghost predicate Polled(batch: seq<PortEvent>, reg: Registry, i: nat)
      requires i <= |batch|
      reads this, events, fired, pendingFds, pendingMasks
    {
      && Valid() && npending == i <= fired.Length && Registered() == reg
      && Slots() == Taken(batch[..i], reg) && fired[..i] == Reports(batch[..i])
      && forall j :: i <= j < |batch| ==> batch[j].fd in port
    }

    method PollOne(batch: seq<PortEvent>, ghost reg: Registry, i: nat)
      requires i < |batch| <= MAX_EVENT_BATCHSZ && |batch| <= fired.Length && FromKernel(batch, reg) && Polled(batch, reg, i)
      modifies this`port, this`npending, fired, pendingFds, pendingMasks
      ensures Polled(batch, reg, i + 1)
    {
      hide EitherOr;
      hide IsMaxFd;
      StillThere(batch, reg, i);
      hide FromKernel;
      ghost var f := fired[..];
      TakeOne(batch[i]);
      fired[i] := Fired(batch[i].fd, Mask(batch[i].pollin, batch[i].pollout, false));
      assert fired[..] == f[i := fired[i]];
      assert fired[..i + 1] == Reports(batch[..i + 1]);
      assert Slots() == Taken(batch[..i + 1], reg);
    }

    method TakeOne(e: PortEvent)
      requires Valid() && e.fd in port && npending < MAX_EVENT_BATCHSZ
      modifies this`port, this`npending, pendingFds, pendingMasks
      ensures Valid() && Registered() == old(Registered()) && npending == old(npending) + 1
      ensures 0 <= e.fd < events.Length && Slots() == old(Slots()) + [Slot(e.fd, events[e.fd])]
      ensures port == old(port) - {e.fd}
    {
      ghost var pend := Slots();
      TakeFired(Registered(), pend, port, e.fd);
      assert port[e.fd] == events[e.fd];
      hide EitherOr;
      pendingFds[npending], pendingMasks[npending] := e.fd, port[e.fd];
      npending := npending + 1;
      port := port - {e.fd};
      assert Slots() == pend + [Slot(e.fd, events[e.fd])];
    }
  }

  /** What a deletion of some events removes. */
  function Removed(mask: Mask): (m: Mask) {
    if mask.writable then Or(mask, Mask(false, false, true)) else mask
  }

  ghost predicate FromKernel(batch: seq<PortEvent>, reg: Registry) {
    && (forall i :: 0 <= i < |batch| ==> 0 <= batch[i].fd < |reg| && reg[batch[i].fd] != NONE)
    && (forall i, j :: 0 <= i < j < |batch| ==> batch[i].fd != batch[j].fd)
  }

  /** The slots after a poll. */
  ghost function Taken(batch: seq<PortEvent>, reg: Registry): (pend: seq<Slot>)
    ensures |pend| == |batch|
    ensures forall i :: 0 <= i < |batch| && 0 <= batch[i].fd < |reg| ==> pend[i] == Slot(batch[i].fd, reg[batch[i].fd])
  {
    seq(|batch|, i requires 0 <= i < |batch| => if 0 <= batch[i].fd < |reg| then Slot(batch[i].fd, reg[batch[i].fd]) else FREE)
  }

  /** What the caller sees of a poll. */
  function Reports(batch: seq<PortEvent>): (r: seq<Fired>)
    ensures |r| == |batch|
  {
    seq(|batch|, i requires 0 <= i < |batch| => Fired(batch[i].fd, Mask(batch[i].pollin, batch[i].pollout, false)))
  }

  /** Later events of a poll are for other descriptors. */
  lemma StillThere(batch: seq<PortEvent>, reg: Registry, i: nat)
    requires FromKernel(batch, reg) && i <= |batch|
    ensures i < |batch| ==> 0 <= batch[i].fd < |reg|
    ensures forall j :: 0 <= j < |batch| ==> 0 <= batch[j].fd < |reg| && reg[batch[j].fd] != NONE
    ensures forall j :: i < j < |batch| ==> batch[j].fd != batch[i].fd
  {
  }

  lemma AllAssociated(reg: Registry, port: Port)
    requires EitherOr(reg, [], port)
    ensures forall fd :: fd in port <==> 0 <= fd < |reg| && reg[fd] != NONE
  {
  }

  function Below(n: nat): (s: set<int>)
    ensures |s| == n && forall d :: d in s <==> 0 <= d < n
  {
    if n == 0 then {} else Below(n - 1) + {n - 1}
  }

  function Fds(batch: seq<PortEvent>): (s: set<int>) {
    if batch == [] then {} else Fds(batch[..|batch| - 1]) + {batch[|batch| - 1].fd}
  }

  lemma {:induction false} FdsDistinct(batch: seq<PortEvent>, reg: Registry, fd: int)
    requires FromKernel(batch, reg)
    ensures |Fds(batch)| == |batch| && Fds(batch) <= Below(|reg|)
    ensures (forall i :: 0 <= i < |batch| ==> batch[i].fd != fd) ==> fd !in Fds(batch)
  {
    if batch != [] {
      var n := |batch| - 1;
      FdsDistinct(batch[..n], reg, fd);
      FdsDistinct(batch[..n], reg, batch[n].fd);
    }
  }

  /** Different descriptors below a bound are no more than the bound. */
  lemma DistinctFit(batch: seq<PortEvent>, reg: Registry)
    requires FromKernel(batch, reg)
    ensures |batch| <= |reg|
  {
    FdsDistinct(batch, reg, -1);
    var a, b := Fds(batch), Below(|reg|);
    assert b == a + (b - a);
  }
}
