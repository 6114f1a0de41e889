/** The poll(2) back end of src/net/source/poll/spoller.cc: a dense pollfd array, a map from
    descriptor to handle, and an index in each handle that ties the two. */
module Spoller {
  import opened PollHandles
  import opened Common

  const IGNORED_FD: int := -1

  datatype PollFd = PollFd(fd: int, events: bv16, revents: bv16)

  class PollHandle {
    const fd: int
    var index: int
    var events: bv16
    var revents: bv16

    constructor (fd: int)
      requires fd > 0
      ensures this.fd == fd && index == -1 && events == EVENT_NONE && revents == 0
    {
      this.fd := fd;
      index := -1;
      events := EVENT_NONE;
      revents := 0;
    }
  }

  /** The slot mirrors the handle: its mask, and its descriptor unless it wants nothing. */
  ghost predicate Mirrors(slot: PollFd, h: PollHandle)
    reads h
  {
    && slot.events == h.events
    && slot.fd == (if h.events == EVENT_NONE then IGNORED_FD else h.fd)
  }

  /** The POSIX.1-2017 contract of poll(): no error flag beyond the defined ones, negative
      descriptors get zero revents, and the result counts the non-zero entries. */
  ghost predicate PollContract(pollfds: seq<PollFd>, eventNum: nat) {
    && (forall i :: 0 <= i < |pollfds| ==> pollfds[i].revents < 0x8000)
    && (forall i :: 0 <= i < |pollfds| && pollfds[i].fd < 0 ==> pollfds[i].revents == 0)
    && eventNum == |ActiveFds(pollfds)|
  }

  /** The descriptors with something to report, in array order. */
  function ActiveFds(pollfds: seq<PollFd>): seq<int> {
    if pollfds == [] then []
    else
      var rest := ActiveFds(pollfds[..|pollfds| - 1]);
      if Positive(pollfds[|pollfds| - 1].revents) then rest + [pollfds[|pollfds| - 1].fd] else rest
  }

  lemma {:induction false} ActiveFdsPrefix(pollfds: seq<PollFd>, k: nat)
    requires k <= |pollfds|
    ensures ActiveFds(pollfds[..k]) <= ActiveFds(pollfds)
    decreases |pollfds|
  {
    if k < |pollfds| {
      var init := pollfds[..|pollfds| - 1];
      ActiveFdsPrefix(init, k);
      assert init[..k] == pollfds[..k];
    } else {
      assert pollfds[..k] == pollfds;
    }
  }

  /** One step of the scan; what it has found so far is a prefix of the whole answer. */
  lemma ActiveFdsStep(pollfds: seq<PollFd>, i: nat)
    requires i < |pollfds|
    ensures ActiveFds(pollfds[..i + 1]) ==
            ActiveFds(pollfds[..i]) + (if Positive(pollfds[i].revents) then [pollfds[i].fd] else [])
    ensures ActiveFds(pollfds[..i + 1]) <= ActiveFds(pollfds)
  {
    assert pollfds[..i + 1][..i] == pollfds[..i];
    ActiveFdsPrefix(pollfds, i + 1);
  }

  lemma ScanStep(pollfds: seq<PollFd>, i: nat)
    requires i < |pollfds|
    ensures |ActiveFds(pollfds[..i + 1])| ==
            |ActiveFds(pollfds[..i])| + (if Positive(pollfds[i].revents) then 1 else 0)
    ensures |ActiveFds(pollfds[..i + 1])| == |ActiveFds(pollfds)| ==> ActiveFds(pollfds[..i + 1]) == ActiveFds(pollfds)
  {
    ActiveFdsStep(pollfds, i);
  }

  /** Complete and sound: a descriptor is reported exactly when one of its slots is active. */
  lemma {:induction false} ActiveFdsExact(pollfds: seq<PollFd>, fd: int)
    ensures fd in ActiveFds(pollfds)
       <==> exists i :: 0 <= i < |pollfds| && pollfds[i].fd == fd && 0 < pollfds[i].revents < 0x8000
  {
    if pollfds == [] {
    } else {
      var init := pollfds[..|pollfds| - 1];
      ActiveFdsExact(init, fd);
      if fd in ActiveFds(init) {
        var i :| 0 <= i < |init| && init[i].fd == fd && Positive(init[i].revents);
        assert pollfds[i].fd == fd;
      }
      if i :| 0 <= i < |pollfds| && pollfds[i].fd == fd && Positive(pollfds[i].revents) {
        if i < |init| { assert init[i].fd == fd; }
      }
    }
  }

  /** No descriptor is reported twice when active slots have different descriptors. */
  lemma {:induction false} ActiveFdsDistinct(pollfds: seq<PollFd>)
    requires forall i, j :: 0 <= i < j < |pollfds| && Positive(pollfds[i].revents) ==> pollfds[i].fd != pollfds[j].fd
    ensures Distinct(ActiveFds(pollfds))
  {
    if pollfds == [] {
    } else {
      var init := pollfds[..|pollfds| - 1];
      ActiveFdsDistinct(init);
      ActiveFdsExact(init, pollfds[|pollfds| - 1].fd);
    }
  }

  class Poller {
    var pollfds: seq<PollFd>
    var handles: map<int, PollHandle>
    ghost var slots: seq<PollHandle>  // the owner of each slot
    ghost var owned: set<PollHandle>  // the handle objects made so far

    /** Slot i belongs to the handle whose index is i, and the map knows it. */
    ghost predicate Owns(i: int)
      reads this, owned
      requires 0 <= i < |slots| && slots[i] in owned
    {
      && slots[i].index == i
      && slots[i].fd in handles && handles[slots[i].fd] == slots[i]
    }

    /** The map holds each handle under its own descriptor, and indices are a bijection onto
        the slots, with slots as its inverse. */
    ghost predicate Indexed()
      reads this, owned
    {
      && |slots| == |pollfds|
      && (forall i :: 0 <= i < |slots| ==> slots[i] in owned && Owns(i))
      && (forall fd :: fd in handles ==>
            && handles[fd].fd == fd > 0 && handles[fd] in owned
            && 0 <= handles[fd].index < |slots| && slots[handles[fd].index] == handles[fd])
    }

    /** The slots of all handles but skip mirror them. */
    ghost predicate Mirrored(skip: set<PollHandle>)
      reads this, owned
      requires Indexed()
    {
      forall i :: 0 <= i < |slots| && slots[i] !in skip ==> Mirrors(pollfds[i], slots[i])
    }

    /** Array, map, indices and masks agree. */
    ghost predicate Agree()
      reads this, owned
    {
      Indexed() && Mirrored({})
    }

    /** The first k slots belong to k different descriptors. */
    lemma {:induction false} FirstOwners(k: nat) returns (fds: set<int>)
      requires Indexed() && k <= |slots|
      ensures |fds| == k
      ensures forall fd :: fd in fds <==> fd in handles && handles[fd].index < k
    {
      if k == 0 {
        fds := {};
      } else {
        var init := FirstOwners(k - 1);
        assert Owns(k - 1);
        fds := init + {slots[k - 1].fd};
      }
    }

    /** The source's own assertion in register_polling: the map and the array have one size. */
    lemma SameSize()
      requires Agree()
      ensures |handles| == |pollfds|
    {
      var fds := FirstOwners(|slots|);
      assert forall fd :: fd in handles ==> handles[fd].index < |slots|;
      assert forall fd :: fd in fds <==> fd in handles.Keys;
      assert fds == handles.Keys;
    }

    /** What the kernel is asked about a registered descriptor: the map this structure stands for. */
    ghost function SlotOf(fd: int): PollFd
      reads this, owned
      requires Agree() && fd in handles
    {
      pollfds[handles[fd].index]
    }

    constructor ()
      ensures Agree() && handles == map[] && pollfds == [] && owned == {}
    {
      pollfds := [];
      handles := map[];
      slots := [];
      owned := {};
    }

    method RegisterPolling(fd: int) returns (h: PollHandle)
      requires Agree() && fd > 0
      modifies this
      ensures Agree()
      ensures fd in handles && handles[fd] == h
      ensures fd in old(handles) ==> unchanged(this)
      ensures fd !in old(handles) ==> Emplaced(fd, h, old(handles), old(slots), old(pollfds), old(owned))
      ensures fd !in old(handles) ==> fresh(h)
    {
      if fd in handles {
        h := handles[fd];
      } else {
        h := Emplace(fd);
      }
    }

    /** A new last slot that wants nothing. */
    ghost predicate Emplaced(fd: int, h: PollHandle, oldHandles: map<int, PollHandle>,
                             oldSlots: seq<PollHandle>, oldPollfds: seq<PollFd>, oldOwned: set<PollHandle>)
      reads this, h
    {
      && h.events == EVENT_NONE && h.index == |oldPollfds|
      && handles == oldHandles[fd := h] && owned == oldOwned + {h}
      && slots == oldSlots + [h]
      && pollfds == oldPollfds + [PollFd(IGNORED_FD, EVENT_NONE, 0)]
    }

    method Emplace(fd: int) returns (h: PollHandle)
      requires Agree() && fd > 0 && fd !in handles
      modifies this
      ensures Agree() && fresh(h)
      ensures Emplaced(fd, h, old(handles), old(slots), old(pollfds), old(owned))
    {
      h := new PollHandle(fd);
      handles := handles[fd := h];
      h.index := |pollfds|;
      pollfds := pollfds + [PollFd(IGNORED_FD, EVENT_NONE, 0)];
      slots := slots + [h];
      owned := owned + {h};
    }

    /** update_handle: rewrite the slot of a handle whose mask may just have changed. */
    method UpdateHandle(h: PollHandle)
      requires Indexed() && Mirrored({h})
      requires h.fd in handles && handles[h.fd] == h
      modifies this`pollfds
      ensures Agree() && |pollfds| == |old(pollfds)|
      ensures forall i :: 0 <= i < |pollfds| && i != h.index ==> pollfds[i] == old(pollfds)[i]
      ensures pollfds[h.index] ==
              PollFd(if h.events == EVENT_NONE then IGNORED_FD else h.fd, h.events, 0)
    {
      var fd := if h.events == EVENT_NONE then IGNORED_FD else h.fd;
      pollfds := pollfds[h.index := PollFd(fd, h.events, 0)];
    }

    /** What enable_reading, enable_writing, disable_writing and disable_all have in common: set
        the mask, then update the slot. */
    method SetEvents(h: PollHandle, events: bv16)
      requires Agree()
      requires h.fd in handles && handles[h.fd] == h
      modifies this`pollfds, h`events
      ensures Agree() && h.events == events
      ensures SlotOf(h.fd) == PollFd(if events == EVENT_NONE then IGNORED_FD else h.fd, events, 0)
      ensures forall fd :: fd in handles && fd != h.fd ==> SlotOf(fd) == old(SlotOf(fd))
    {
      h.events := events;
      UpdateHandle(h);
    }

    /** All agrees but the index of fd's handle, which owns slot at. */
    ghost predicate AgreeBut(fd: int, at: int)
      reads this, owned
    {
      && |slots| == |pollfds| && 0 <= at < |slots|
      && fd in handles && handles[fd].fd == fd > 0 && handles[fd] in owned && slots[at] == handles[fd]
      && (forall i :: 0 <= i < |slots| && i != at ==>
            && slots[i] in owned && slots[i].index == i
            && slots[i].fd in handles && slots[i].fd != fd && handles[slots[i].fd] == slots[i])
      && (forall x :: x in handles && x != fd ==>
            && handles[x].fd == x > 0 && handles[x] in owned
            && 0 <= handles[x].index < |slots| && slots[handles[x].index] == handles[x])
      && (forall i :: 0 <= i < |slots| ==> Mirrors(pollfds[i], slots[i]))
    }

    method Reindex(h: PollHandle, at: int)
      requires AgreeBut(h.fd, at) && handles[h.fd] == h
      modifies h`index
      ensures Agree() && h.index == at
    {
      h.index := at;
    }

    /** Swap slot at with the last one and drop it. */
    method DropSlot(at: nat)
      requires at < |pollfds| == |slots|
      modifies this`pollfds, this`slots
      ensures |pollfds| == |slots| == |old(pollfds)| - 1
      ensures forall i :: 0 <= i < |slots| ==>
                slots[i] == if i == at then old(slots)[|slots|] else old(slots)[i]
      ensures forall i :: 0 <= i < |pollfds| ==>
                pollfds[i] == if i == at then old(pollfds)[|pollfds|] else old(pollfds)[i]
    {
      var tail := |pollfds| - 1;
      if at != tail {
        pollfds := pollfds[tail := pollfds[at]][at := pollfds[tail]];
        slots := slots[tail := slots[at]][at := slots[tail]];
      }
      pollfds := pollfds[..tail];
      slots := slots[..tail];
    }

    /** The slot goes, and the map entry.  This much is common to the code as written and the
        repair. */
    method SwapRemove(h: PollHandle)
      requires Agree()
      requires h.fd in handles && handles[h.fd] == h && h.events == EVENT_NONE
      modifies this
      ensures owned == old(owned)
      ensures handles == old(handles) - {h.fd}
      ensures |pollfds| == |old(pollfds)| - 1
      ensures forall i :: 0 <= i < |pollfds| ==>
                pollfds[i] == if i == h.index then old(pollfds)[|pollfds|] else old(pollfds)[i]
      ensures if h.index == |pollfds| then Agree() else AgreeBut(old(slots)[|pollfds|].fd, h.index)
    {
      ghost var mover := slots[|pollfds| - 1];
      assert mover in owned && Owns(|pollfds| - 1);
      forall i | 0 <= i < |slots|
        ensures slots[i] in owned && slots[i].index == i
        ensures slots[i].fd in handles && handles[slots[i].fd] == slots[i]
      {
        assert slots[i] in owned && Owns(i);
      }
      DropSlot(h.index);
      handles := handles - {h.fd};
    }

    /** remove_handle as written: the handle that owned the last slot keeps its old index.
        So the structure still agrees exactly when the removed slot was the last one. */
    method RemoveHandleAsWritten(h: PollHandle)
      requires Agree()
      requires h.fd in handles && handles[h.fd] == h && h.events == EVENT_NONE
      modifies this
      ensures handles == old(handles) - {h.fd} && owned == old(owned) && |pollfds| == |old(pollfds)| - 1
      ensures Agree() <==> h.index == |old(pollfds)| - 1
      ensures Agree() ==> forall fd :: fd in handles ==> SlotOf(fd) == old(SlotOf(fd))
    {
      ghost var mover := slots[|pollfds| - 1];
      assert mover in owned && Owns(|pollfds| - 1);
      SwapRemove(h);
      if h.index != |pollfds| {
        assert mover.fd in handles && handles[mover.fd].index == |pollfds|;
      }
    }

    /** The descriptor whose handle has index i. */
    method FindOwner(i: nat) returns (fd: int)
      requires Agree() && i < |slots|
      ensures fd in handles && handles[fd] == slots[i]
    {
      assert slots[i] in owned && Owns(i);
      fd :| fd in handles && handles[fd].index == i;
    }

    /** Repair: the handle whose slot moved is found by its index and told the new one. */
    method RemoveHandle(h: PollHandle)
      requires Agree()
      requires h.fd in handles && handles[h.fd] == h && h.events == EVENT_NONE
      modifies this, owned
      ensures Agree() && owned == old(owned)
      ensures handles == old(handles) - {h.fd}
      ensures forall fd :: fd in handles ==> SlotOf(fd) == old(SlotOf(fd))
      ensures forall fd :: fd in handles ==>
                handles[fd].events == old(handles[fd].events) && handles[fd].revents == old(handles[fd].revents)
    {
      var tail := |pollfds| - 1;
      var at := h.index;
      var mover := FindOwner(tail);
      SwapRemove(h);
      if at != tail {
        Reindex(handles[mover], at);
      }
    }

    /** poll(2) writes the revents fields and nothing else. */
    method KernelPoll(revents: seq<bv16>)
      requires Agree() && |revents| == |pollfds|
      modifies this`pollfds
      ensures Agree() && |pollfds| == |revents|
      ensures forall i :: 0 <= i < |pollfds| ==> pollfds[i] == old(pollfds)[i].(revents := revents[i])
    {
      var asked := pollfds;
      pollfds := seq(|asked|, i requires 0 <= i < |asked| == |revents| => asked[i].(revents := revents[i]));
    }

    /** One hit of the scan: the owner is told its revents and reported. */
    method Take(active: seq<PollHandle>, i: nat, h: PollHandle) returns (r: seq<PollHandle>)
      requires Agree() && i < |pollfds| && h.fd == pollfds[i].fd && h.fd in handles && handles[h.fd] == h
      requires h.index == i && AllReported(active, ActiveFds(pollfds[..i]))
      modifies h`revents
      ensures Agree() && r == active + [h]
      ensures AllReported(r, ActiveFds(pollfds[..i]) + [pollfds[i].fd])
    {
      h.revents := pollfds[i].revents;
      r := active + [h];
    }

    /** One turn of the scan. */
    method ScanSlot(active: seq<PollHandle>, i: nat) returns (r: seq<PollHandle>)
      requires Agree() && i < |pollfds| && (Positive(pollfds[i].revents) ==> pollfds[i].fd >= 0)
      requires AllReported(active, ActiveFds(pollfds[..i]))
      modifies owned`revents
      ensures Agree() && AllReported(r, ActiveFds(pollfds[..i + 1]))
      ensures active <= r && |r| == |active| + (if Positive(pollfds[i].revents) then 1 else 0)
      ensures forall h :: h in owned && h !in r ==> h.revents == old(h.revents)
    {
      ActiveFdsStep(pollfds, i);
      r := active;
      if Positive(pollfds[i].revents) {
        ActiveSlotOwned(i);
        r := Take(active, i, handles[pollfds[i].fd]);
      }
    }

    /** find_active_handles: stop early once eventNum handles are found. Nothing is missed, the
        order is that of the array, every lookup succeeds, and no other handle is touched. */
    method FindActiveHandles(eventNum: nat) returns (active: seq<PollHandle>)
      requires Agree() && PollContract(pollfds, eventNum)
      modifies owned`revents
      ensures Agree() && unchanged(this)
      ensures AllReported(active, ActiveFds(pollfds))
      ensures forall h :: h in owned && h !in active ==> h.revents == old(h.revents)
    {
      active := [];
      var left: int := eventNum;
      ghost var slots := pollfds;
      for i := 0 to |pollfds|
        invariant Agree() && pollfds == slots
        invariant AllReported(active, ActiveFds(slots[..i]))
        invariant forall h :: h in owned && h !in active ==> h.revents == old(h.revents)
        invariant left == |ActiveFds(slots)| - |ActiveFds(slots[..i])| && (left > 0 || eventNum == 0)
      {
        ScanStep(slots, i);
        active := ScanSlot(active, i);
        if Positive(pollfds[i].revents) {
          left := left - 1;
          if left == 0 {
            break;
          }
        }
      }
      assert slots[..|slots|] == slots;
    }

    /** The map lookup in find_active_handles cannot miss. */
    lemma ActiveSlotOwned(i: nat)
      requires Agree() && i < |pollfds| && pollfds[i].fd >= 0
      ensures pollfds[i].fd in handles && handles[pollfds[i].fd].index == i
    {
    }

    /** active lists the registered handles of fds, in order, each told what the kernel reported. */
    ghost predicate AllReported(active: seq<PollHandle>, fds: seq<int>)
      reads this, active
    {
      && |active| == |fds|
      && forall k :: 0 <= k < |active| ==>
           && fds[k] in handles && handles[fds[k]] == active[k]
           && 0 <= active[k].index < |pollfds|
           && active[k].revents == pollfds[active[k].index].revents
    }
  }

  // ------------------------------------------------------------------
  // Whole runs: the structure refines a map from descriptor to mask
  // ------------------------------------------------------------------

  datatype PollOp =
    | Register(fd: int)
    | SetMask(fd: int, change: Change)
    | Remove(fd: int)
    | Poll(report: map<int, bv16>)

  /** The map an operation leaves.  Masks and removals concern registered descriptors, and a
      handle is removed once it wants nothing, as the source asserts. */
  function ApplyOp(m: map<int, bv16>, op: PollOp): map<int, bv16> {
    match op
    case Register(fd) => if fd in m || fd <= 0 then m else m[fd := EVENT_NONE]
    case SetMask(fd, change) => if fd in m then m[fd := Changed(m[fd], change)] else m
    case Remove(fd) => if fd in m && m[fd] == EVENT_NONE then m - {fd} else m
    case Poll(_) => m
  }

  function ApplyOps(m: map<int, bv16>, ops: seq<PollOp>): map<int, bv16> {
    if ops == [] then m else ApplyOp(ApplyOps(m, ops[..|ops| - 1]), ops[|ops| - 1])
  }

  // --- what a descriptor is asked for, by the operations on it alone ---

  /** Of the operations that matter to input on fd the last is that reading was enabled. */
  predicate WantsInput(ops: seq<PollOp>, fd: int) {
    ops != [] &&
    var init, op := ops[..|ops| - 1], ops[|ops| - 1];
    if op == SetMask(fd, ReadOn) then Registered(init, fd)
    else if op == SetMask(fd, AllOff) then false
    else WantsInput(init, fd)
  }

  predicate WantsOutput(ops: seq<PollOp>, fd: int) {
    ops != [] &&
    var init, op := ops[..|ops| - 1], ops[|ops| - 1];
    if op == SetMask(fd, WriteOn) then Registered(init, fd)
    else if op == SetMask(fd, WriteOff) || op == SetMask(fd, AllOff) then false
    else WantsOutput(init, fd)
  }

  /** fd has been registered and not removed since; a removal counts once nothing is wanted. */
  predicate Registered(ops: seq<PollOp>, fd: int) {
    ops != [] &&
    var init, op := ops[..|ops| - 1], ops[|ops| - 1];
    if op == Register(fd) then fd > 0
    else if op == Remove(fd) then Registered(init, fd) && (WantsInput(init, fd) || WantsOutput(init, fd))
    else Registered(init, fd)
  }

  /** Over any operations: the map holds exactly the registered descriptors, asking for POLLIN and
      POLLPRI (3) exactly when input is wanted and for POLLOUT (4) exactly when output is. */
  lemma {:induction false} MasksExactly(ops: seq<PollOp>, fd: int)
    ensures fd in ApplyOps(map[], ops) <==> Registered(ops, fd)
    ensures fd in ApplyOps(map[], ops) ==>
              ApplyOps(map[], ops)[fd] ==
              (if WantsInput(ops, fd) then 3 else 0) | (if WantsOutput(ops, fd) then 4 else 0)
    ensures if Registered(ops, fd) then fd > 0 else !WantsInput(ops, fd) && !WantsOutput(ops, fd)
  {
    if ops == [] {
    } else {
      var op := ops[|ops| - 1];
      MasksExactly(ops[..|ops| - 1], fd);
      if op.SetMask? && fd in ApplyOps(map[], ops[..|ops| - 1]) {
        ChangedExactly(ApplyOps(map[], ops[..|ops| - 1])[fd], op.change);
      }
    }
  }

  /** p is consistent and holds exactly the descriptors and masks of m. */
  ghost predicate Refines(p: Poller, m: map<int, bv16>)
    reads p, p.owned
  {
    && p.Agree()
    && p.handles.Keys == m.Keys
    && forall fd :: fd in m ==> p.handles[fd] in p.owned && p.handles[fd].events == m[fd]
  }

  /** So the kernel is asked exactly for m's masks, and not about descriptors that want nothing. */
  lemma RefinesAsks(p: Poller, m: map<int, bv16>, fd: int)
    requires Refines(p, m) && fd in m
    ensures p.SlotOf(fd).events == m[fd]
    ensures p.SlotOf(fd).fd == (if m[fd] == EVENT_NONE then IGNORED_FD else fd)
  {
  }

  method PerformRegister(p: Poller, fd: int, ghost m: map<int, bv16>)
    requires Refines(p, m) && fd > 0
    modifies p
    ensures Refines(p, ApplyOp(m, Register(fd)))
    ensures fresh(p.owned - old(p.owned))
  {
    var _ := p.RegisterPolling(fd);
  }

  method PerformRemove(p: Poller, h: PollHandle, ghost m: map<int, bv16>)
    requires Refines(p, m) && h.fd in m && p.handles[h.fd] == h && h.events == EVENT_NONE
    modifies p, p.owned
    ensures Refines(p, ApplyOp(m, Remove(h.fd)))
    ensures p.owned == old(p.owned)
  {
    p.RemoveHandle(h);
  }

  /** The flags the kernel has for a descriptor, when it is asked about it. */
  function Flags(report: map<int, bv16>, fd: int): bv16 {
    if fd > 0 && fd in report && report[fd] < 0x8000 then report[fd] else 0
  }

  /** The answer to a poll: each registered descriptor that wants something and has something,
      once, and no other. */
  ghost predicate Answers(m: map<int, bv16>, report: map<int, bv16>, answer: seq<int>) {
    && Distinct(answer)
    && forall fd :: fd in answer <==> fd in m && m[fd] != 0 && fd in report && 0 < report[fd] < 0x8000
  }

  lemma ActiveAnswers(p: Poller, m: map<int, bv16>, report: map<int, bv16>)
    requires Refines(p, m)
    requires forall i :: 0 <= i < |p.pollfds| ==> p.pollfds[i].revents == Flags(report, p.pollfds[i].fd)
    ensures Answers(m, report, ActiveFds(p.pollfds))
  {
    forall fd ensures fd in ActiveFds(p.pollfds) <==> fd in m && m[fd] != 0 && fd in report && 0 < report[fd] < 0x8000 {
      ActiveFdsExact(p.pollfds, fd);
      if fd in m && m[fd] != EVENT_NONE { assert p.pollfds[p.handles[fd].index].fd == fd; }
      if i :| 0 <= i < |p.pollfds| && p.pollfds[i].fd == fd && Positive(p.pollfds[i].revents) {
        assert p.slots[i] in p.owned && p.Owns(i);
      }
    }
    forall i, j | 0 <= i < j < |p.pollfds| && Positive(p.pollfds[i].revents)
      ensures p.pollfds[i].fd != p.pollfds[j].fd
    {
      assert p.slots[i] in p.owned && p.Owns(i) && p.slots[j] in p.owned && p.Owns(j);
    }
    ActiveFdsDistinct(p.pollfds);
  }

  /** What AllReported says of the k-th reported handle, once the masks refine m. */
  lemma ReportedAt(p: Poller, m: map<int, bv16>, report: map<int, bv16>, active: seq<PollHandle>, k: nat)
    requires Refines(p, m) && p.AllReported(active, ActiveFds(p.pollfds)) && k < |active|
    requires forall i :: 0 <= i < |p.pollfds| ==> p.pollfds[i].revents == Flags(report, p.pollfds[i].fd)
    requires Answers(m, report, ActiveFds(p.pollfds))
    ensures active[k].fd == ActiveFds(p.pollfds)[k]
    ensures active[k].fd in report && active[k].revents == report[active[k].fd]
  {
    var fd := ActiveFds(p.pollfds)[k];
    assert fd in ActiveFds(p.pollfds) && p.handles[fd] == active[k];
  }

  /** poll(2), answering by report. */
  method AskKernel(p: Poller, report: map<int, bv16>, ghost m: map<int, bv16>)
    requires Refines(p, m)
    modifies p
    ensures Refines(p, m) && p.owned == old(p.owned)
    ensures forall i :: 0 <= i < |p.pollfds| ==> p.pollfds[i].revents == Flags(report, p.pollfds[i].fd)
  {
    var asked := p.pollfds;
    p.KernelPoll(seq(|asked|, i requires 0 <= i < |asked| => Flags(report, asked[i].fd)));
  }

  /** The descriptors of the reported handles. */
  method DescriptorsOf(p: Poller, report: map<int, bv16>, active: seq<PollHandle>, ghost m: map<int, bv16>)
    returns (answer: seq<int>)
    requires Refines(p, m) && p.AllReported(active, ActiveFds(p.pollfds))
    requires forall i :: 0 <= i < |p.pollfds| ==> p.pollfds[i].revents == Flags(report, p.pollfds[i].fd)
    requires Answers(m, report, ActiveFds(p.pollfds))
    ensures answer == ActiveFds(p.pollfds)
    ensures forall fd :: fd in answer ==> p.handles[fd].revents == report[fd]
  {
    answer := seq(|active|, i requires 0 <= i < |active| => active[i].fd);
    forall k | 0 <= k < |active|
      ensures active[k].fd == ActiveFds(p.pollfds)[k] && active[k].revents == report[active[k].fd]
    {
      ReportedAt(p, m, report, active, k);
    }
    assert answer == ActiveFds(p.pollfds);
  }

  /** spoller::poll, under the contract of poll(2). */
  method PerformPoll(p: Poller, report: map<int, bv16>, ghost m: map<int, bv16>) returns (answer: seq<int>)
    requires Refines(p, m)
    modifies p, p.owned
    ensures Refines(p, m) && p.owned == old(p.owned)
    ensures Answers(m, report, answer)
    ensures forall fd :: fd in answer ==> p.handles[fd].revents == report[fd]
  {
    AskKernel(p, report, m);
    ActiveAnswers(p, m, report);
    var active := p.FindActiveHandles(|ActiveFds(p.pollfds)|);
    answer := DescriptorsOf(p, report, active, m);
  }

  method Perform(p: Poller, op: PollOp, ghost m: map<int, bv16>) returns (answer: seq<int>)
    requires Refines(p, m)
    modifies p, p.owned
    ensures Refines(p, ApplyOp(m, op))
    ensures op.Poll? ==> Answers(m, op.report, answer)
    ensures fresh(p.owned - old(p.owned))
  {
    answer := [];
    match op
    case Register(fd) =>
      if fd > 0 {
        PerformRegister(p, fd, m);
      }
    case SetMask(fd, change) =>
      if fd in p.handles {
        var h := p.handles[fd];
        p.SetEvents(h, Changed(h.events, change));
      }
    case Remove(fd) =>
      if fd in p.handles && p.handles[fd].events == EVENT_NONE {
        PerformRemove(p, p.handles[fd], m);
      }
    case Poll(report) =>
      answer := PerformPoll(p, report, m);
  }

  /** Every poll among the operations was answered completely, by the masks of its moment. */
  ghost predicate Answered(ops: seq<PollOp>, answers: seq<seq<int>>) {
    && |answers| == |ops|
    && forall i :: 0 <= i < |ops| && ops[i].Poll? ==> Answers(ApplyOps(map[], ops[..i]), ops[i].report, answers[i])
  }

  lemma AnsweredNext(ops: seq<PollOp>, answers: seq<seq<int>>, op: PollOp, answer: seq<int>)
    requires Answered(ops, answers)
    requires op.Poll? ==> Answers(ApplyOps(map[], ops), op.report, answer)
    ensures Answered(ops + [op], answers + [answer])
  {
    assert forall i :: 0 <= i <= |ops| ==> (ops + [op])[..i] == ops[..i];
    assert ops[..|ops|] == ops;
  }

  /** After any sequence of registrations, mask changes, removals and polls the array, the map,
      the indices and the masks agree and say what the plain map says, and every poll on the way
      was answered by it. */
  method Replay(ops: seq<PollOp>) returns (p: Poller, answers: seq<seq<int>>)
    ensures Refines(p, ApplyOps(map[], ops))
    ensures forall fd :: fd in p.handles <==> Registered(ops, fd)
    ensures forall fd :: fd in p.handles ==>
              p.SlotOf(fd).events == (if WantsInput(ops, fd) then 3 else 0) | (if WantsOutput(ops, fd) then 4 else 0)
    ensures Answered(ops, answers)
  {
    p := new Poller();
    answers := [];
    for i := 0 to |ops|
      invariant fresh(p) && fresh(p.owned)
      invariant Refines(p, ApplyOps(map[], ops[..i]))
      invariant Answered(ops[..i], answers)
    {
      var answer := Perform(p, ops[i], ApplyOps(map[], ops[..i]));
      AnsweredNext(ops[..i], answers, ops[i], answer);
      assert ops[..i + 1] == ops[..i] + [ops[i]] && ops[..i + 1][..i] == ops[..i];
      answers := answers + [answer];
    }
    assert ops[..|ops|] == ops;
    forall fd ensures fd in p.handles <==> Registered(ops, fd) {
      MasksExactly(ops, fd);
    }
    forall fd | fd in p.handles
      ensures p.SlotOf(fd).events == (if WantsInput(ops, fd) then 3 else 0) | (if WantsOutput(ops, fd) then 4 else 0)
    {
      MasksExactly(ops, fd);
      RefinesAsks(p, ApplyOps(map[], ops), fd);
    }
  }

  /** The stale index, on the smallest input: with two descriptors, removing the first leaves the
      second pointing past the end of the array. */
  method StaleIndexExample() returns (p: Poller)
    ensures p.handles.Keys == {4} && |p.pollfds| == 1 && p.handles[4].index == 1
    ensures !p.Agree()
  {
    p := new Poller();
    var h3 := p.RegisterPolling(3);
    var h4 := p.RegisterPolling(4);
    assert h3.index == 0 && h4.index == 1;
    p.RemoveHandleAsWritten(h3);
  }
}
