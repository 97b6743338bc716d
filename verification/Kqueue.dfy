/** Merging the read and write events of one kqueue poll, with two bits per descriptor packed
    four to a byte. */
module Kqueue {
  import opened Bits

  datatype Filter = Read | Write | Other

  datatype Event = Event(fd: nat, filter: Filter)

  datatype Mask = Mask(readable: bool, writable: bool)

  const NONE := Mask(false, false)

  function Join(a: Mask, b: Mask): (m: Mask) { Mask(a.readable || b.readable, a.writable || b.writable) }

  function FilterMask(f: Filter): (m: Mask) { Mask(f.Read?, f.Write?) }

  // ---- the packed table ----

  /** Four descriptors to a byte. */
  function TableSize(setsize: nat): (n: nat)
    ensures setsize <= 4 * n < setsize + 4
  {
    (setsize + 3) / 4
  }

  /** Position, from the most significant end, of the low bit of a descriptor's pair. */
  function LowBit(fd: nat): (k: nat)
    ensures 1 <= k < 8
  {
    7 - fd % 4 * 2
  }

  function GetMask(table: seq<Byte>, fd: nat): (m: Mask)
    requires fd / 4 < |table|
  {
    Mask(table[fd / 4][LowBit(fd)], table[fd / 4][LowBit(fd) - 1])
  }

  function WithPair(b: Byte, k: nat, m: Mask): (r: Byte)
    requires 1 <= k < 8
    ensures forall i :: 0 <= i < 8 ==> r[i] == if i == k then m.readable else if i == k - 1 then m.writable else b[i]
  {
    b[k := m.readable][k - 1 := m.writable]
  }

  ghost predicate OnlyMask(was: seq<Byte>, now: seq<Byte>, fd: nat, m: Mask)
    requires fd / 4 < |was|
  {
    && |now| == |was| && GetMask(now, fd) == m
    && forall other: nat :: other / 4 < |was| && other != fd ==> GetMask(now, other) == GetMask(was, other)
  }

  lemma PairsAreSeparate(was: seq<Byte>, now: seq<Byte>, fd: nat, m: Mask)
    requires fd / 4 < |was| && now == was[fd / 4 := WithPair(was[fd / 4], LowBit(fd), m)]
    ensures OnlyMask(was, now, fd, m)
  {
    forall other: nat | other / 4 < |was| && other != fd ensures GetMask(now, other) == GetMask(was, other) {
      if other / 4 == fd / 4 { assert other % 4 != fd % 4; }
    }
  }

  method AddEventMask(table: array<Byte>, fd: nat, mask: Mask)
    requires fd / 4 < table.Length
    modifies table
    ensures OnlyMask(old(table[..]), table[..], fd, Join(old(GetMask(table[..], fd)), mask))
  {
    ghost var was := table[..];
    table[fd / 4] := WithPair(table[fd / 4], LowBit(fd), Join(GetMask(table[..], fd), mask));
    assert table[..] == was[fd / 4 := WithPair(was[fd / 4], LowBit(fd), Join(GetMask(was, fd), mask))];
    PairsAreSeparate(was, table[..], fd, Join(GetMask(was, fd), mask));
  }

  method ResetEventMask(table: array<Byte>, fd: nat)
    requires fd / 4 < table.Length
    modifies table
    ensures OnlyMask(old(table[..]), table[..], fd, NONE)
  {
    ghost var was := table[..];
    table[fd / 4] := WithPair(table[fd / 4], LowBit(fd), NONE);
    assert table[..] == was[fd / 4 := WithPair(was[fd / 4], LowBit(fd), NONE)];
    PairsAreSeparate(was, table[..], fd, NONE);
  }

  // ---- what a poll should report ----

  /** The filters of one descriptor among some events. */
  function Union(events: seq<Event>, fd: nat): (m: Mask) {
    if events == [] then NONE
    else
      var n := |events| - 1;
      var m := Union(events[..n], fd);
      if events[n].fd == fd then Join(m, FilterMask(events[n].filter)) else m
  }

  ghost predicate Mentions(events: seq<Event>, fd: nat) { exists i :: 0 <= i < |events| && events[i].fd == fd }

  /** A union holds exactly the filters that occur. */
  lemma {:induction false} UnionExact(events: seq<Event>, fd: nat)
    ensures Union(events, fd).readable <==> Event(fd, Read) in events
    ensures Union(events, fd).writable <==> Event(fd, Write) in events
  {
    if events != [] {
      var n := |events| - 1;
      UnionExact(events[..n], fd);
      assert events == events[..n] + [events[n]];
    }
  }

  datatype Fired = Fired(fd: nat, mask: Mask)

  /** Each descriptor at its first occurrence among the first `n` events, with the union of its
      filters over all the events; descriptors without a known filter are left out. */
  function Merged(events: seq<Event>, n: nat): (r: seq<Fired>)
    requires n <= |events|
    ensures |r| <= n
  {
    if n == 0 then []
    else
      var fd := events[n - 1].fd;
      var r := Merged(events, n - 1);
      if (exists i :: 0 <= i < n - 1 && events[i].fd == fd) || Union(events, fd) == NONE then r
      else r + [Fired(fd, Union(events, fd))]
  }

  /** Every reported descriptor occurs, with the union of its filters, which is not empty. */
  lemma {:induction false} MergedSound(events: seq<Event>, n: nat)
    requires n <= |events|
    ensures forall f :: f in Merged(events, n) ==>
              f.mask == Union(events, f.fd) != NONE && exists i :: 0 <= i < n && events[i].fd == f.fd
  {
    if n > 0 {
      MergedSound(events, n - 1);
      assert events[n - 1].fd == events[n - 1].fd;
    }
  }

  /** Every descriptor with a filter is reported. */
  lemma {:induction false} MergedComplete(events: seq<Event>, n: nat, i: nat)
    requires i < n <= |events| && Union(events, events[i].fd) != NONE
    ensures Fired(events[i].fd, Union(events, events[i].fd)) in Merged(events, n)
  {
    var fd := events[n - 1].fd;
    if i < n - 1 {
      MergedComplete(events, n - 1, i);
    } else if j :| 0 <= j < n - 1 && events[j].fd == fd {
      MergedComplete(events, n - 1, j);
    }
  }

  /** No descriptor is reported twice, and reports follow the order of first occurrence. */
  lemma {:induction false} MergedOrder(events: seq<Event>, n: nat, a: nat, b: nat)
    requires n <= |events| && a < b < |Merged(events, n)|
    ensures Merged(events, n)[a].fd != Merged(events, n)[b].fd
    ensures exists i :: 0 <= i < n && events[i].fd == Merged(events, n)[a].fd
              && forall j :: 0 <= j < n && events[j].fd == Merged(events, n)[b].fd ==> i < j
  {
    hide Union;
    var r := Merged(events, n - 1);
    MergedSound(events, n - 1);
    if b < |r| {
      MergedOrder(events, n - 1, a, b);
      var i :| 0 <= i < n - 1 && events[i].fd == r[a].fd && forall j :: 0 <= j < n - 1 && events[j].fd == r[b].fd ==> i < j;
    } else {
      assert r[a] in r;
      var i :| 0 <= i < n - 1 && events[i].fd == r[a].fd;
    }
  }

  function Descriptors(events: seq<Event>, n: nat): (fds: set<nat>)
    requires n <= |events|
  {
    if n == 0 then {} else Descriptors(events, n - 1) + {events[n - 1].fd}
  }

  lemma {:induction false} DescriptorsExact(events: seq<Event>, n: nat, fd: nat)
    requires n <= |events|
    ensures fd in Descriptors(events, n) <==> Mentions(events[..n], fd)
  {
    if n > 0 {
      DescriptorsExact(events, n - 1, fd);
      MentionsNext(events, n - 1, fd);
    }
  }

  /** There are at most as many reports as descriptors. */
  lemma {:induction false} MergedCount(events: seq<Event>, n: nat)
    requires n <= |events|
    ensures |Merged(events, n)| <= |Descriptors(events, n)|
  {
    if n > 0 {
      hide Union;
      hide Merged;
      hide Mentions;
      var d, fd := Descriptors(events, n - 1), events[n - 1].fd;
      MergedCount(events, n - 1);
      MergedNext(events, n - 1);
      DescriptorsExact(events, n - 1, fd);
      assert fd in d ==> d + {fd} == d;
    }
  }

  // ---- the two passes ----

  ghost predicate AllZero(table: seq<Byte>) {
    forall fd: nat :: fd / 4 < |table| ==> GetMask(table, fd) == NONE
  }

  /** Every descriptor of the events has a pair in the table. */
  ghost predicate InTable(events: seq<Event>, n: nat) {
    forall i :: 0 <= i < |events| ==> events[i].fd / 4 < n
  }

  method CollectMasks(events: seq<Event>, table: array<Byte>)
    requires InTable(events, table.Length) && AllZero(table[..])
    modifies table
    ensures forall fd: nat :: fd / 4 < table.Length ==> GetMask(table[..], fd) == Union(events, fd)
  {
    hide GetMask;
    for j := 0 to |events|
      invariant forall fd: nat :: fd / 4 < table.Length ==> GetMask(table[..], fd) == Union(events[..j], fd)
    {
      assert events[..j + 1][..j] == events[..j];
      AddEventMask(table, events[j].fd, FilterMask(events[j].filter));
    }
    assert events[..|events|] == events;
  }

  lemma {:induction false} DescriptorsGrow(events: seq<Event>, n: nat)
    requires n <= |events|
    ensures |Descriptors(events, n)| <= |Descriptors(events, |events|)|
    decreases |events| - n
  {
    if n < |events| {
      var d, fd := Descriptors(events, n), events[n].fd;
      assert fd in d ==> d + {fd} == d;
      DescriptorsGrow(events, n + 1);
    }
  }

  /** Reports the merged events and leaves the table as it found it, all zero. */
  method PollMerge(events: seq<Event>, table: array<Byte>, fired: array<Fired>) returns (numevents: nat)
    requires InTable(events, table.Length) && AllZero(table[..]) && |Descriptors(events, |events|)| <= fired.Length
    modifies table, fired
    ensures numevents <= fired.Length && fired[..numevents] == Merged(events, |events|)
    ensures AllZero(table[..])
  {
    hide GetMask;
    hide Union;
    hide Merged;
    hide Descriptors;
    CollectMasks(events, table);
    numevents := 0;
    MergedStart(events);
    for j := 0 to |events|
      invariant numevents <= fired.Length && fired[..numevents] == Merged(events, j)
      invariant forall fd: nat :: fd / 4 < table.Length ==>
                  GetMask(table[..], fd) == if Mentions(events[..j], fd) then NONE else Union(events, fd)
    {
      var fd := events[j].fd;
      var mask := GetMask(table[..], fd);
      MergedNext(events, j);
      MergedCount(events, j + 1);
      DescriptorsGrow(events, j + 1);
      forall fd: nat ensures Mentions(events[..j + 1], fd) <==> Mentions(events[..j], fd) || events[j].fd == fd {
        MentionsNext(events, j, fd);
      }
      if mask != NONE {
        fired[numevents] := Fired(fd, mask);
        ResetEventMask(table, fd);
        numevents := numevents + 1;
      }
    }
    assert events[..|events|] == events;
    forall fd: nat | fd / 4 < table.Length ensures GetMask(table[..], fd) == NONE { Unmentioned(events, fd); }
  }

  lemma MergedStart(events: seq<Event>)
    ensures Merged(events, 0) == []
    ensures forall fd :: !Mentions(events[..0], fd)
  {
  }

  lemma MergedNext(events: seq<Event>, j: nat)
    requires j < |events|
    ensures var fd := events[j].fd;
            Merged(events, j + 1) ==
            if Mentions(events[..j], fd) || Union(events, fd) == NONE then Merged(events, j)
            else Merged(events, j) + [Fired(fd, Union(events, fd))]
  {
    hide Union;
    var fd := events[j].fd;
    if Mentions(events[..j], fd) {
      var i :| 0 <= i < j && events[..j][i].fd == fd;
      assert events[i].fd == fd;
    } else if i :| 0 <= i < j && events[i].fd == fd {
      assert events[..j][i].fd == fd;
    }
  }

  lemma MentionsNext(events: seq<Event>, j: nat, fd: nat)
    requires j < |events|
    ensures Mentions(events[..j + 1], fd) <==> Mentions(events[..j], fd) || events[j].fd == fd
  {
    var now, was := events[..j + 1], events[..j];
    assert now == was + [events[j]];
    if Mentions(was, fd) {
      var i :| 0 <= i < j && was[i].fd == fd;
      assert now[i].fd == fd;
    }
    assert now[j].fd == events[j].fd;
  }

  lemma {:induction false} Unmentioned(events: seq<Event>, fd: nat)
    ensures Mentions(events, fd) || Union(events, fd) == NONE
  {
    if events != [] {
      var n := |events| - 1;
      Unmentioned(events[..n], fd);
      MentionsNext(events, n, fd);
      assert events[..n + 1] == events;
    }
  }
}
