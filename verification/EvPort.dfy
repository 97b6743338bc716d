/** The event-port back end of the event loop. A descriptor that the last poll returned is no
    longer associated with the port; until the next poll it is kept in a pending slot. */
module EvPort {
  datatype Mask = Mask(readable: bool, writable: bool, barrier: bool)

  const NONE := Mask(false, false, false)

  function Or(a: Mask, b: Mask): (m: Mask) {
    Mask(a.readable || b.readable, a.writable || b.writable, a.barrier || b.barrier)
  }

  function AndNot(a: Mask, b: Mask): (m: Mask) {
    Mask(a.readable && !b.readable, a.writable && !b.writable, a.barrier && !b.barrier)
  }

  datatype Slot = Slot(fd: int, mask: Mask)

  const FREE := Slot(-1, NONE)

  type Registry = seq<Mask>       // by descriptor
  type Port = map<int, Mask>      // associations in the kernel, with their user data

  /** A used slot holds the mask of a registered descriptor that has no association. */
  ghost predicate SlotsAgree(reg: Registry, pend: seq<Slot>, port: Port) {
    forall i :: 0 <= i < |pend| && pend[i].fd != -1 ==>
      && 0 <= pend[i].fd < |reg| && pend[i].mask == reg[pend[i].fd] != NONE && pend[i].fd !in port
  }

  ghost predicate SlotsDiffer(pend: seq<Slot>) {
    forall i, j :: 0 <= i < j < |pend| && pend[i].fd != -1 ==> pend[i].fd != pend[j].fd
  }

  /** An association carries the mask of a registered descriptor. */
  ghost predicate PortAgrees(reg: Registry, port: Port) {
    forall fd :: fd in port ==> 0 <= fd < |reg| && port[fd] == reg[fd] != NONE
  }

  ghost predicate Pending(pend: seq<Slot>, fd: int) { exists i :: 0 <= i < |pend| && pend[i].fd == fd }

  ghost predicate Covered(reg: Registry, pend: seq<Slot>, port: Port) {
    forall fd :: 0 <= fd < |reg| && reg[fd] != NONE ==> fd in port || Pending(pend, fd)
  }

  /** Each registered descriptor is represented either by its association or by a slot. */
  ghost predicate EitherOr(reg: Registry, pend: seq<Slot>, port: Port) {
    SlotsAgree(reg, pend, port) && SlotsDiffer(pend) && PortAgrees(reg, port) && Covered(reg, pend, port)
  }

  /** How many slots hold a descriptor. */
  function SlotsOf(pend: seq<Slot>, fd: int): (n: nat) {
    if pend == [] then 0 else SlotsOf(pend[..|pend| - 1], fd) + (if pend[|pend| - 1].fd == fd then 1 else 0)
  }

  lemma {:induction false} SlotsOfNone(pend: seq<Slot>, fd: int)
    requires !Pending(pend, fd)
    ensures SlotsOf(pend, fd) == 0
  {
    if pend != [] {
      var n := |pend| - 1;
      assert pend[n].fd != fd;
      assert !Pending(pend[..n], fd) by {
        forall i | 0 <= i < n ensures pend[..n][i].fd != fd { assert pend[i].fd != fd; }
      }
      SlotsOfNone(pend[..n], fd);
    }
  }

  lemma {:induction false} SlotsOfOne(pend: seq<Slot>, fd: int)
    requires SlotsDiffer(pend) && Pending(pend, fd) && fd != -1
    ensures SlotsOf(pend, fd) == 1
  {
    var n := |pend| - 1;
    var i :| 0 <= i < |pend| && pend[i].fd == fd;
    if i < n {
      assert pend[..n][i].fd == fd;
      SlotsOfOne(pend[..n], fd);
    } else {
      assert !Pending(pend[..n], fd);
      SlotsOfNone(pend[..n], fd);
    }
  }

  /** Exactly one representation for a registered descriptor, and none for any other. */
  lemma ExactlyOnce(reg: Registry, pend: seq<Slot>, port: Port, fd: nat)
    requires EitherOr(reg, pend, port)
    ensures SlotsOf(pend, fd) + (if fd in port then 1 else 0) == (if fd < |reg| && reg[fd] != NONE then 1 else 0)
  {
    if Pending(pend, fd) {
      SlotsOfOne(pend, fd);
      var i :| 0 <= i < |pend| && pend[i].fd == fd;
    } else {
      SlotsOfNone(pend, fd);
    }
  }

  // ---- what each step of the back end keeps ----

  /** Adding to a pending descriptor changes its slot. */
  lemma AddPending(reg: Registry, pend: seq<Slot>, port: Port, i: nat, mask: Mask)
    requires EitherOr(reg, pend, port) && i < |pend| && pend[i].fd != -1
    ensures 0 <= pend[i].fd < |reg| && Or(reg[pend[i].fd], mask) != NONE
    ensures var fd := pend[i].fd;
            EitherOr(reg[fd := Or(reg[fd], mask)], pend[i := Slot(fd, Or(pend[i].mask, Or(mask, reg[fd])))], port)
  {
    var fd := pend[i].fd;
    var m := Or(reg[fd], mask);
    var r, p := reg[fd := m], pend[i := Slot(fd, m)];
    forall d | 0 <= d < |r| && r[d] != NONE ensures d in port || Pending(p, d) {
      if d == fd { assert p[i].fd == d; } else { SlotKept(pend, i, Slot(fd, m), d); }
    }
  }

  /** Changing one slot does not affect where another descriptor is pending. */
  lemma SlotKept(pend: seq<Slot>, i: nat, s: Slot, d: int)
    requires i < |pend| && d != pend[i].fd
    ensures Pending(pend, d) ==> Pending(pend[i := s], d)
  {
    if Pending(pend, d) {
      var j :| 0 <= j < |pend| && pend[j].fd == d;
      assert pend[i := s][j].fd == d;
    }
  }

  /** Adding to any other descriptor replaces its association. */
  lemma AddAssociated(reg: Registry, pend: seq<Slot>, port: Port, fd: nat, mask: Mask)
    requires EitherOr(reg, pend, port) && fd < |reg| && !Pending(pend, fd)
    ensures EitherOr(reg[fd := Or(reg[fd], mask)], pend, port[fd := Or(mask, reg[fd])]) <==> Or(reg[fd], mask) != NONE
  {
    var m := Or(reg[fd], mask);
    assert m == Or(mask, reg[fd]);
    assert forall i :: 0 <= i < |pend| ==> pend[i].fd != fd;
  }

  lemma DelPending(reg: Registry, pend: seq<Slot>, port: Port, i: nat, mask: Mask)
    requires EitherOr(reg, pend, port) && i < |pend| && pend[i].fd != -1
    ensures var fd, m := pend[i].fd, AndNot(pend[i].mask, mask);
            0 <= fd < |reg| && EitherOr(reg[fd := AndNot(reg[fd], mask)], pend[i := if m == NONE then Slot(-1, m) else Slot(fd, m)], port)
  {
    var fd, m := pend[i].fd, AndNot(pend[i].mask, mask);
    var s := if m == NONE then Slot(-1, m) else Slot(fd, m);
    var r, p := reg[fd := m], pend[i := s];
    forall d | 0 <= d < |r| && r[d] != NONE ensures d in port || Pending(p, d) {
      if d == fd { assert p[i].fd == d; } else { SlotKept(pend, i, s, d); }
    }
  }

  /** Deleting from a registered descriptor that is not pending finds its association. */
  lemma DelAssociated(reg: Registry, pend: seq<Slot>, port: Port, fd: nat, mask: Mask)
    requires EitherOr(reg, pend, port) && fd < |reg| && reg[fd] != NONE && !Pending(pend, fd)
    ensures fd in port
    ensures var m := AndNot(reg[fd], mask);
            EitherOr(reg[fd := m], pend, if m == NONE then port - {fd} else port[fd := m])
  {
    assert forall i :: 0 <= i < |pend| ==> pend[i].fd != fd;
  }

  /** Restoring the association of a slot. */
  lemma Reassociate(reg: Registry, pend: seq<Slot>, port: Port, i: nat)
    requires EitherOr(reg, pend, port) && i < |pend| && pend[i].fd != -1
    ensures EitherOr(reg, pend[i := FREE], port[pend[i].fd := pend[i].mask])
  {
    var fd := pend[i].fd;
    var p, q := pend[i := FREE], port[fd := pend[i].mask];
    forall d | 0 <= d < |reg| && reg[d] != NONE ensures d in q || Pending(p, d) {
      if d != fd { SlotKept(pend, i, FREE, d); }
    }
  }

  /** Taking a fired descriptor off the port into a new slot. */
  lemma TakeFired(reg: Registry, pend: seq<Slot>, port: Port, fd: int)
    requires EitherOr(reg, pend, port) && fd in port
    ensures EitherOr(reg, pend + [Slot(fd, port[fd])], port - {fd})
  {
    var p, q := pend + [Slot(fd, port[fd])], port - {fd};
    assert p[|pend|].fd == fd;
    forall d | 0 <= d < |reg| && reg[d] != NONE ensures d in q || Pending(p, d) {
      if d != fd && d !in port {
        var j :| 0 <= j < |pend| && pend[j].fd == d;
        assert p[j].fd == d;
      }
    }
  }

  /** Slots that are all free can be forgotten. */
  lemma DropFree(reg: Registry, pend: seq<Slot>, port: Port)
    requires EitherOr(reg, pend, port) && forall i :: 0 <= i < |pend| ==> pend[i].fd == -1
    ensures EitherOr(reg, [], port)
  {
  }

  /** New descriptors are unregistered, and unused ones at the end can go. */
  lemma Regrow(reg: Registry, r: Registry, pend: seq<Slot>, port: Port)
    requires EitherOr(reg, pend, port)
    requires forall fd :: 0 <= fd < |reg| && fd < |r| ==> r[fd] == reg[fd]
    requires forall fd :: |reg| <= fd < |r| ==> r[fd] == NONE
    requires forall fd :: |r| <= fd < |reg| ==> reg[fd] == NONE
    ensures EitherOr(r, pend, port)
  {
  }
}
