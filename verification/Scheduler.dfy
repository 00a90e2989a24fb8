/** scheduler.c as it runs: thread control blocks linked through one `next` field, per-CPU slots,
    and the four places a list can start from. Every operation is tied to a step of `Threads`. */
module Scheduler {
  import opened Threads

  // A pointer is an address; control blocks and queues live in memory under theirs.
  datatype Thread = Thread(state: State, process: nat, waitingOn: nat, waitSeq: nat, next: nat)
  datatype WaitQueue = WaitQueue(head: nat, seqno: nat)
  type Memory = map<nat, Thread>

  // Following `next` from p visits exactly these threads.
  ghost predicate List(mem: Memory, p: nat, ids: seq<nat>)
    decreases |ids|
  {
    if ids == [] then p == NULL
    else p == ids[0] && p != NULL && p in mem && List(mem, mem[p].next, ids[1..])
  }

  function Last(ids: seq<nat>): nat {
    if ids == [] then NULL else ids[|ids| - 1]
  }

  ghost predicate Fields(mem: Memory, tcb: map<nat, Tcb>) {
    mem.Keys == tcb.Keys
    && forall t :: t in mem ==> mem[t].state == tcb[t].state && mem[t].waitingOn == tcb[t].waitingOn && mem[t].waitSeq == tcb[t].waitSeq
  }

  ghost predicate Queues(mem: Memory, queues: map<nat, WaitQueue>, qs: map<nat, Queue>) {
    queues.Keys == qs.Keys
    && forall q :: q in queues ==> queues[q].seqno == qs[q].tick && List(mem, queues[q].head, qs[q].list)
  }

  // Memory, the ready queue's two ends and the zombie list's head stand for this state.
  ghost predicate Rep(mem: Memory, queues: map<nat, WaitQueue>, head: nat, tail: nat, zombies: nat, s: Sys) {
    && Fields(mem, s.tcb) && Queues(mem, queues, s.queues)
    && List(mem, head, s.ready) && tail == Last(s.ready) && List(mem, zombies, s.zombies)
  }

  // No thread has changed hands between processes, or come or gone.
  ghost predicate SameOwners(mem: Memory, mem': Memory) {
    mem'.Keys == mem.Keys && forall t :: t in mem ==> mem'[t].process == mem[t].process
  }

  lemma OwnersStep(mem0: Memory, mem: Memory, t: nat, th: Thread)
    requires SameOwners(mem0, mem) && t in mem && th.process == mem[t].process
    ensures SameOwners(mem0, mem[t := th]) && t in mem0
  {
  }

  lemma OwnersSame(mem: Memory)
    ensures SameOwners(mem, mem)
  {
  }

  lemma OwnersThen(mem0: Memory, mem1: Memory, mem2: Memory)
    requires SameOwners(mem0, mem1) && SameOwners(mem1, mem2)
    ensures SameOwners(mem0, mem2) && mem2.Keys == mem1.Keys
  {
  }

  // ---- lists share nothing ----

  predicate Linked(p: Place) {
    p.InReady? || p.InQueue? || p.Dead?
  }

  ghost predicate OneList(s: Sys) {
    forall p, r :: Linked(p) && Linked(r) && At(s, p) != NULL && At(s, p) == At(s, r) ==> p == r
  }

  // t is in no list.
  ghost predicate Loose(s: Sys, t: nat) {
    forall p :: Linked(p) ==> At(s, p) != t
  }

  // t is on the ready queue's list only, if on any.
  ghost predicate ReadyOnly(s: Sys, t: nat) {
    forall p :: Linked(p) && At(s, p) == t ==> p.InReady?
  }

  lemma {:induction false} ListFrame(mem: Memory, mem': Memory, p: nat, ids: seq<nat>)
    requires List(mem, p, ids)
    requires forall i :: 0 <= i < |ids| && ids[i] in mem ==> ids[i] in mem' && mem'[ids[i]].next == mem[ids[i]].next
    ensures List(mem', p, ids)
    decreases |ids|
  {
    if ids != [] {
      assert forall i :: 0 <= i < |ids[1..]| ==> ids[1..][i] == ids[i + 1];
      ListFrame(mem, mem', mem[p].next, ids[1..]);
    }
  }

  lemma {:induction false} ListMember(mem: Memory, p: nat, ids: seq<nat>, i: nat)
    requires List(mem, p, ids) && i < |ids|
    ensures ids[i] in mem && ids[i] != NULL
    decreases i
  {
    if i > 0 {
      ListMember(mem, mem[p].next, ids[1..], i - 1);
    }
  }

  // The last thread of a list linked to one more.
  lemma {:induction false} ListAppend(mem: Memory, mem': Memory, p: nat, ids: seq<nat>, t: nat)
    requires List(mem, p, ids) && ids != [] && t != NULL && t in mem' && mem'[t].next == NULL
    requires forall i :: 0 <= i < |ids| - 1 && ids[i] in mem ==> ids[i] in mem' && mem'[ids[i]].next == mem[ids[i]].next
    requires Last(ids) in mem' && mem'[Last(ids)].next == t
    ensures List(mem', p, ids + [t])
    decreases |ids|
  {
    assert (ids + [t])[1..] == ids[1..] + [t];
    if |ids| > 1 {
      assert forall i :: 0 <= i < |ids[1..]| ==> ids[1..][i] == ids[i + 1];
      ListAppend(mem, mem', mem[p].next, ids[1..], t);
    } else {
      assert List(mem', t, [t]);
      assert ids[1..] + [t] == [t];
    }
  }

  // Only the threads in `changed` have a new `next`, and s's wait queues and zombies do not hold them.
  lemma OtherLists(mem: Memory, mem': Memory, queues: map<nat, WaitQueue>, s: Sys, zombies: nat, changed: set<nat>)
    requires Queues(mem, queues, s.queues) && List(mem, zombies, s.zombies)
    requires forall t :: t in mem && t !in changed ==> t in mem' && mem'[t].next == mem[t].next
    requires forall t :: t in changed ==> ReadyOnly(s, t)
    ensures Queues(mem', queues, s.queues) && List(mem', zombies, s.zombies)
  {
    forall i | 0 <= i < |s.zombies| ensures s.zombies[i] !in changed {
      assert At(s, Dead(i)) == s.zombies[i];
    }
    ListFrame(mem, mem', zombies, s.zombies);
    forall q | q in queues ensures List(mem', queues[q].head, s.queues[q].list) {
      forall i | 0 <= i < |s.queues[q].list| ensures s.queues[q].list[i] !in changed {
        assert At(s, InQueue(q, i)) == s.queues[q].list[i];
      }
      ListFrame(mem, mem', queues[q].head, s.queues[q].list);
    }
  }

  // Memory after enqueue_locked.
  ghost function Enqueued(mem: Memory, tail: nat, t: nat): Memory
    requires t in mem && (tail != NULL ==> tail in mem)
  {
    var mem1 := mem[t := mem[t].(state := Ready, next := NULL)];
    if tail == NULL then mem1 else mem1[tail := mem1[tail].(next := t)]
  }

  lemma RepEnqueue(mem: Memory, queues: map<nat, WaitQueue>, head: nat, tail: nat, zombies: nat, s: Sys, t: nat)
    requires Rep(mem, queues, head, tail, zombies, s) && OneList(s) && Loose(s, t) && t in mem && t != NULL
    ensures tail == NULL <==> s.ready == []
    ensures tail != NULL ==> tail in mem
    ensures Rep(Enqueued(mem, tail, t), queues, if tail == NULL then t else head, t, zombies, Enqueue(s, t))
  {
    if s.ready != [] {
      ListMember(mem, head, s.ready, |s.ready| - 1);
      assert At(s, InReady(|s.ready| - 1)) == tail;
    }
    var mem' := Enqueued(mem, tail, t);
    OtherLists(mem, mem', queues, s, zombies, {t, tail} - {NULL});
    if s.ready == [] {
      assert List(mem', t, [t]);
      assert s.ready + [t] == [t];
    } else {
      assert At(s, InReady(|s.ready| - 1)) == tail != t;
      forall i | 0 <= i < |s.ready| - 1 ensures s.ready[i] != tail && s.ready[i] != t {
        assert At(s, InReady(i)) == s.ready[i];
      }
      ListAppend(mem, mem', head, s.ready, t);
    }
  }

  lemma RepDequeue(mem: Memory, queues: map<nat, WaitQueue>, head: nat, tail: nat, zombies: nat, s: Sys)
    requires Rep(mem, queues, head, tail, zombies, s) && OneList(s) && s.ready != []
    ensures head == s.ready[0] && head != NULL && head in mem
    ensures mem[head].next == NULL <==> |s.ready| == 1
    ensures Rep(mem[head := mem[head].(next := NULL)], queues, mem[head].next,
                if mem[head].next == NULL then NULL else tail, zombies, s.(ready := s.ready[1..]))
  {
    var mem' := mem[head := mem[head].(next := NULL)];
    assert At(s, InReady(0)) == head;
    OtherLists(mem, mem', queues, s, zombies, {head});
    forall i | 0 <= i < |s.ready[1..]| ensures s.ready[1..][i] != head {
      assert At(s, InReady(i + 1)) == s.ready[i + 1];
    }
    ListFrame(mem, mem', mem[head].next, s.ready[1..]);
  }

  // A thread in no list put at the head of a wait queue's.
  lemma RepPark(mem: Memory, queues: map<nat, WaitQueue>, head: nat, tail: nat, zombies: nat, s: Sys, t: nat, q: nat)
    requires Rep(mem, queues, head, tail, zombies, s) && Loose(s, t) && t in mem && t != NULL && q in queues
    ensures Rep(mem[t := mem[t].(next := queues[q].head)], queues[q := queues[q].(head := t)], head, tail, zombies,
                s.(queues := s.queues[q := s.queues[q].(list := [t] + s.queues[q].list)]))
  {
    var mem' := mem[t := mem[t].(next := queues[q].head)];
    LooseLists(mem, mem', queues, head, zombies, s, t);
    assert ([t] + s.queues[q].list)[1..] == s.queues[q].list;
  }

  lemma RepBury(mem: Memory, queues: map<nat, WaitQueue>, head: nat, tail: nat, zombies: nat, s: Sys, t: nat)
    requires Rep(mem, queues, head, tail, zombies, s) && Loose(s, t) && t in mem && t != NULL
    ensures Rep(mem[t := mem[t].(next := zombies)], queues, head, tail, t, s.(zombies := [t] + s.zombies))
  {
    var mem' := mem[t := mem[t].(next := zombies)];
    LooseLists(mem, mem', queues, head, zombies, s, t);
    assert ([t] + s.zombies)[1..] == s.zombies;
  }

  lemma LooseLists(mem: Memory, mem': Memory, queues: map<nat, WaitQueue>, head: nat, zombies: nat, s: Sys, t: nat)
    requires Queues(mem, queues, s.queues) && List(mem, head, s.ready) && List(mem, zombies, s.zombies) && Loose(s, t)
    requires forall u :: u in mem && u != t ==> u in mem' && mem'[u].next == mem[u].next
    ensures Queues(mem', queues, s.queues) && List(mem', head, s.ready) && List(mem', zombies, s.zombies)
  {
    OtherLists(mem, mem', queues, s, zombies, {t});
    forall i | 0 <= i < |s.ready| ensures s.ready[i] != t {
      assert At(s, InReady(i)) == s.ready[i];
    }
    ListFrame(mem, mem', head, s.ready);
  }

  // A thread's fields other than its link.
  lemma RepFields(mem: Memory, queues: map<nat, WaitQueue>, head: nat, tail: nat, zombies: nat, s: Sys, t: nat, th: Thread)
    requires Rep(mem, queues, head, tail, zombies, s) && t in mem && th.next == mem[t].next
    ensures Rep(mem[t := th], queues, head, tail, zombies, s.With(t, Tcb(th.state, th.waitingOn, th.waitSeq)))
  {
    var mem' := mem[t := th];
    ListFrame(mem, mem', head, s.ready);
    ListFrame(mem, mem', zombies, s.zombies);
    forall q | q in queues ensures List(mem', queues[q].head, s.queues[q].list) {
      ListFrame(mem, mem', queues[q].head, s.queues[q].list);
    }
  }

  // A state in which threads are where they should be keeps its lists apart.
  lemma InvLists(s: Sys)
    requires Inv(s)
    ensures OneList(s)
    ensures forall p :: !Linked(p) && At(s, p) != NULL ==> Loose(s, At(s, p))
    ensures forall t :: t in s.tcb && s.tcb[t].state == Uninitialised ==> Loose(s, t)
    ensures forall t :: t in s.idle ==> Loose(s, t)
  {
    hide AllPlaced;
    forall p, r | !Linked(p) && At(s, p) != NULL && Linked(r) ensures At(s, r) != At(s, p) {
    }
    forall t, p | Linked(p) && t in s.tcb && s.tcb[t].state == Uninitialised ensures At(s, p) != t {
      assert At(s, p) != NULL ==> Fits(s, p, At(s, p));
    }
    forall t, p | Linked(p) && t in s.idle ensures At(s, p) != t {
      assert At(s, p) != NULL ==> Fits(s, p, At(s, p));
    }
  }

  // The per-CPU slots are no part of the lists.
  lemma SlotsOnly(mem: Memory, queues: map<nat, WaitQueue>, head: nat, tail: nat, zombies: nat, s: Sys, s': Sys)
    requires Rep(mem, queues, head, tail, zombies, s)
    requires s'.tcb == s.tcb && s'.ready == s.ready && s'.zombies == s.zombies && s'.queues == s.queues
    ensures Rep(mem, queues, head, tail, zombies, s')
  {
  }

  lemma SameLists(s: Sys, s': Sys)
    requires s'.ready == s.ready && s'.zombies == s.zombies && s'.queues == s.queues
    ensures OneList(s) ==> OneList(s')
    ensures forall t :: Loose(s, t) ==> Loose(s', t)
  {
    assert forall p :: Linked(p) ==> At(s', p) == At(s, p);
  }

  lemma ReadThread(mem: Memory, queues: map<nat, WaitQueue>, head: nat, tail: nat, zombies: nat, s: Sys, t: nat)
    requires Rep(mem, queues, head, tail, zombies, s)
    ensures mem.Keys == s.tcb.Keys && queues.Keys == s.queues.Keys
    ensures t in mem ==> mem[t].state == s.Th(t).state && mem[t].waitingOn == s.Th(t).waitingOn && mem[t].waitSeq == s.Th(t).waitSeq
    ensures t in mem && mem[t].waitingOn in queues ==> queues[mem[t].waitingOn].seqno == s.Q(mem[t].waitingOn).tick
  {
  }

  lemma BootRep(idles: seq<nat>, waitQueues: set<nat>)
    ensures var s := Boot(idles, waitQueues);
            && s.cur == idles && s.idle == idles && s.park == s.dying == seq(|idles|, i => NULL)
            && s.ready == [] && s.zombies == [] && (s.queues == map q | q in waitQueues :: Queue([], 0))
            && (s.tcb == map t | t in idles :: Tcb(Running, NULL, 0))
            && Rep(map t | t in idles :: Thread(Running, NULL, NULL, 0, NULL), map q | q in waitQueues :: WaitQueue(NULL, 0),
                   NULL, NULL, NULL, s)
  {
  }

  // What becomes of the current thread and the next one, field by field.
  lemma DispatchFields(s: Sys, c: nat, s1: Sys, next: nat)
    requires c < |s.cur| && c < |s.idle| && c < |s.park| && c < |s.dying|
    requires var r := Requeue(s, c);
             && s1 == r.(ready := if r.ready == [] then [] else r.ready[1..])
             && next == (if r.ready == [] then Slot(r.idle, c) else r.ready[0])
             && r.cur == s.cur && r.idle == s.idle && r.park == s.park && r.dying == s.dying
    ensures var t, d := s.cur[c], Dispatch(s, c);
            if next == t then d == s1.With(t, s1.Th(t).(waitingOn := NULL, state := Running))
            else
              var s2 := s1.With(next, s1.Th(next).(state := Running));
              && d.tcb == s2.tcb && d.ready == s2.ready && d.zombies == s2.zombies && d.queues == s2.queues && d.idle == s.idle
              && d.cur == s.cur[c := next]
              && d.park == (if s1.Th(t).state == Blocked then s.park[c := t] else s.park)
              && d.dying == (if s1.Th(t).state == Terminated && t != s.idle[c] then s.dying[c := t] else s.dying)
  {
    hide Requeue;
  }

  class Scheduler {
    var mem: Memory
    var queues: map<nat, WaitQueue>
    // Per-CPU slots.
    const current: array<nat>
    const idle: array<nat>
    const pendingPark: array<nat>
    const pendingZombie: array<nat>
    var readyHead: nat
    var readyTail: nat
    var zombieList: nat
    ghost var sys: Sys

    ghost predicate Slots()
      reads this, current, idle, pendingPark, pendingZombie
    {
      && current != idle && current != pendingPark && current != pendingZombie
      && idle != pendingPark && idle != pendingZombie && pendingPark != pendingZombie
      && current[..] == sys.cur && idle[..] == sys.idle && pendingPark[..] == sys.park && pendingZombie[..] == sys.dying
    }

    // The fields stand for `sys`, whether or not every thread is in place.
    ghost predicate Stands()
      reads this, current, idle, pendingPark, pendingZombie
    {
      Slots() && Rep(mem, queues, readyHead, readyTail, zombieList, sys)
    }

    ghost predicate Valid()
      reads this, current, idle, pendingPark, pendingZombie
    {
      Stands() && Inv(sys)
    }

    // scheduler_init on every CPU: each runs the idle thread registered for it.
    constructor (idles: seq<nat>, waitQueues: set<nat>)
      requires Bootable(idles, waitQueues)
      ensures Valid() && sys == Boot(idles, waitQueues)
    {
      current := new nat[|idles|](i requires 0 <= i < |idles| => idles[i]);
      idle := new nat[|idles|](i requires 0 <= i < |idles| => idles[i]);
      pendingPark := new nat[|idles|](i => NULL);
      pendingZombie := new nat[|idles|](i => NULL);
      hide Rep, Inv, Boot;
      mem := map t | t in idles :: Thread(Running, NULL, NULL, 0, NULL);
      queues := map q | q in waitQueues :: WaitQueue(NULL, 0);
      readyHead, readyTail, zombieList := NULL, NULL, NULL;
      sys := Boot(idles, waitQueues);
      BootKeeps(idles, waitQueues);
      BootRep(idles, waitQueues);
      new;
      assert current[..] == idles && idle[..] == idles;
      assert pendingPark[..] == seq(|idles|, i => NULL) && pendingZombie[..] == seq(|idles|, i => NULL);
    }

    method EnqueueLocked(t: nat)
      requires Stands() && OneList(sys) && Loose(sys, t) && t in mem && t != NULL
      modifies this
      ensures Stands() && sys == Enqueue(old(sys), t) && SameOwners(old(mem), mem)
      ensures forall u :: u in mem && u != t && (u != old(readyTail)) ==> mem[u].next == old(mem)[u].next
      ensures queues == old(queues) && zombieList == old(zombieList)
    {
      hide Rep, OneList, Loose;
      RepEnqueue(mem, queues, readyHead, readyTail, zombieList, sys, t);
      sys := Enqueue(sys, t);
      mem := mem[t := mem[t].(state := Ready, next := NULL)];
      if readyTail == NULL {
        readyHead := t;
        readyTail := t;
      } else {
        mem := mem[readyTail := mem[readyTail].(next := t)];
        readyTail := t;
      }
    }

    method DequeueLocked() returns (t: nat)
      requires Stands() && OneList(sys)
      modifies this
      ensures Stands()
      ensures t == Slot(old(sys.ready), 0) && (t == NULL <==> old(sys.ready) == [])
      ensures sys == old(sys).(ready := if t == NULL then [] else old(sys.ready)[1..])
      ensures SameOwners(old(mem), mem)
    {
      t := readyHead;
      if t != NULL {
        RepDequeue(mem, queues, readyHead, readyTail, zombieList, sys);
        hide Rep, OneList;
        readyHead := mem[t].next;
        if readyHead == NULL {
          readyTail := NULL;
        }
        mem := mem[t := mem[t].(next := NULL)];
        sys := sys.(ready := sys.ready[1..]);
      }
    }

    // scheduler_schedule: the thread parked on this CPU goes to its wait queue, or runs again.
    method SettlePending(c: nat)
      requires Valid() && c < pendingPark.Length
      modifies this, pendingPark
      ensures Valid() && sys == SettlePark(old(sys), c) && SameOwners(old(mem), mem)
    {
      hide Rep, OneList, Loose, Inv;
      if pendingPark[c] != NULL {
        var t := pendingPark[c];
        ghost var s := sys;
        ParkedHere(s, c);
        ParkKeeps(s, c);
        ReadThread(mem, queues, readyHead, readyTail, zombieList, s, t);
        pendingPark[c] := NULL;
        sys := sys.(park := Fill(sys.park, c, NULL));
        SlotsOnly(mem, queues, readyHead, readyTail, zombieList, s, sys);
        SameLists(s, sys);
        var wq := mem[t].waitingOn;
        if wq == NULL || queues[wq].seqno != mem[t].waitSeq {
          RepFields(mem, queues, readyHead, readyTail, zombieList, sys, t, mem[t].(waitingOn := NULL));
          mem := mem[t := mem[t].(waitingOn := NULL)];
          ghost var s1 := sys;
          sys := sys.With(t, sys.Th(t).(waitingOn := NULL));
          SameLists(s1, sys);
          EnqueueLocked(t);
        } else {
          RepPark(mem, queues, readyHead, readyTail, zombieList, sys, t, wq);
          mem := mem[t := mem[t].(next := queues[wq].head)];
          queues := queues[wq := queues[wq].(head := t)];
          sys := sys.(queues := sys.queues[wq := sys.Q(wq).(list := [t] + sys.Q(wq).list)]);
        }
      }
    }

    // scheduler_schedule: the thread that died on this CPU goes to the reaper.
    method BuryPending(c: nat)
      requires Valid() && c < pendingZombie.Length
      modifies this, pendingZombie
      ensures Valid() && sys == SettleZombie(old(sys), c) && SameOwners(old(mem), mem)
    {
      hide Rep, OneList, Loose, Inv;
      if pendingZombie[c] != NULL {
        var t := pendingZombie[c];
        ghost var s := sys;
        DyingHere(s, c);
        ZombieKeeps(s, c);
        ReadThread(mem, queues, readyHead, readyTail, zombieList, s, t);
        RepBury(mem, queues, readyHead, readyTail, zombieList, s, t);
        mem := mem[t := mem[t].(next := zombieList)];
        zombieList := t;
        pendingZombie[c] := NULL;
        sys := SettleZombie(s, c);
        SlotsOnly(mem, queues, readyHead, readyTail, zombieList, s.(zombies := [t] + s.zombies), sys);
      }
    }

    // scheduler_schedule: the current thread queues up again if it may, and the next one is taken.
    method PickNext(c: nat) returns (next: nat)
      requires Valid() && c < current.Length && idle.Length == current.Length
      modifies this
      ensures Stands() && SameOwners(old(mem), mem)
      ensures var s1 := Requeue(old(sys), c);
              && next == (if s1.ready == [] then Slot(s1.idle, c) else s1.ready[0])
              && sys == s1.(ready := if s1.ready == [] then [] else s1.ready[1..])
              && next in mem && next != NULL
    {
      hide Rep, OneList, Loose, Inv;
      ghost var s := sys;
      var curr := current[c];
      CurrentHere(s, c);
      ReadThread(mem, queues, readyHead, readyTail, zombieList, s, curr);
      if mem[curr].state == Running && curr != idle[c] {
        EnqueueLocked(curr);
      }
      RequeuedLists(s, c);
      next := DequeueLocked();
      if next == NULL {
        next := idle[c];
      }
    }

    // scheduler_schedule: from the current thread to the next.
    method SwitchThreads(c: nat)
      requires Valid() && c < current.Length && pendingPark.Length == pendingZombie.Length == idle.Length == current.Length
      requires pendingPark[c] == NULL && pendingZombie[c] == NULL
      modifies this, current, pendingPark, pendingZombie
      ensures Valid() && sys == Dispatch(old(sys), c) && SameOwners(old(mem), mem)
    {
      hide Rep, OneList, Loose, Inv, Requeue, SameOwners, Dispatch;
      ghost var s, mem0 := sys, mem;
      var curr := current[c];
      CurrentHere(s, c);
      DispatchKeeps(s, c);
      ReadThread(mem, queues, readyHead, readyTail, zombieList, s, curr);
      SlotsStay(s, c);
      var next := PickNext(c);
      ghost var s1 := sys;
      DispatchFields(s, c, s1, next);
      ReadThread(mem, queues, readyHead, readyTail, zombieList, s1, curr);
      if next == curr {
        OwnersStep(mem0, mem, curr, mem[curr].(waitingOn := NULL, state := Running));
        RepFields(mem, queues, readyHead, readyTail, zombieList, s1, curr, mem[curr].(waitingOn := NULL, state := Running));
        mem := mem[curr := mem[curr].(waitingOn := NULL, state := Running)];
        sys := s1.With(curr, s1.Th(curr).(waitingOn := NULL, state := Running));
        return;
      }
      if mem[curr].state == Blocked {
        pendingPark[c] := curr;
      }
      if mem[curr].state == Terminated && curr != idle[c] {
        pendingZombie[c] := curr;
      }
      ReadThread(mem, queues, readyHead, readyTail, zombieList, s1, next);
      RepFields(mem, queues, readyHead, readyTail, zombieList, s1, next, mem[next].(state := Running));
      OwnersStep(mem0, mem, next, mem[next].(state := Running));
      mem := mem[next := mem[next].(state := Running)];
      current[c] := next;
      sys := Dispatch(s, c);
      SlotsOnly(mem, queues, readyHead, readyTail, zombieList, s1.With(next, s1.Th(next).(state := Running)), sys);
    }

    // scheduler_schedule: it does nothing while switching is locked, or when it has interrupted a
    // user process's thread inside the kernel and that thread is not going to sleep.
    method Schedule(c: nat, switchLocked: bool, inKernel: bool)
      requires Valid() && c < current.Length
      modifies this, current, pendingPark, pendingZombie
      ensures Valid() && SameOwners(old(mem), mem)
      ensures var t := old(current[c]);
              t in old(mem)
              && sys == if switchLocked || (inKernel && old(mem[t]).process != NULL && old(mem[t]).state != Blocked)
                        then old(sys) else Next(old(sys), Pass(c))
    {
      hide Rep, OneList, Loose, SettlePark, SettleZombie, Requeue, Switch, OnePlace, AllFit, AllPlaced;
      CurrentHere(sys, c);
      ghost var s := sys;
      ReadThread(mem, queues, readyHead, readyTail, zombieList, s, current[c]);
      if switchLocked {
        return;
      }
      var curr := current[c];
      if inKernel && mem[curr].process != NULL && mem[curr].state != Blocked {
        return;
      }
      ParkKeeps(s, c);
      SettlePending(c);
      ZombieKeeps(SettlePark(s, c), c);
      SettledSlots(s, c);
      BuryPending(c);
      SwitchThreads(c);
    }

    // scheduler_enqueue of a thread that has not run yet
    method Start(t: nat)
      requires Valid() && t in mem && mem[t].state == Uninitialised
      modifies this
      ensures Valid() && sys == Next(old(sys), Threads.Start(t)) && SameOwners(old(mem), mem)
      ensures t in old(sys).tcb
              && sys == old(sys).(ready := old(sys).ready + [t], tcb := old(sys).tcb[t := old(sys).tcb[t].(state := Ready)])
    {
      hide Rep, OneList, Loose, OnePlace, AllFit, AllPlaced;
      ReadThread(mem, queues, readyHead, readyTail, zombieList, sys, t);
      InvLists(sys);
      StartKeeps(sys, t);
      EnqueueLocked(t);
    }

    // tcb_alloc, given the address malloc returned
    method Allocate(t: nat, process: nat)
      requires Valid() && t != NULL && t !in mem
      modifies this
      ensures Valid() && sys == Next(old(sys), Create(t)) && mem.Keys == old(mem.Keys) + {t} && mem[t].process == process
      ensures forall u :: u in old(mem) ==> mem[u] == old(mem)[u]
    {
      hide Rep, OneList, Loose, OnePlace, AllFit, AllPlaced;
      ReadThread(mem, queues, readyHead, readyTail, zombieList, sys, t);
      CreateKeeps(sys, t);
      RepAllocate(mem, queues, readyHead, readyTail, zombieList, sys, t, process);
      mem := mem[t := Thread(Uninitialised, process, NULL, 0, NULL)];
      sys := Next(sys, Create(t));
    }

    // scheduler_wait, up to the trap: asleep only if the queue has not moved since the snapshot.
    method Wait(c: nat, q: nat, ticket: nat) returns (asleep: bool)
      requires Valid() && c < current.Length && q in queues && sys.Th(sys.cur[c]).state == Running
      modifies this
      ensures Valid() && SameOwners(old(mem), mem)
      ensures asleep <==> ticket == old(sys).queues[q].tick && old(sys).cur[c] != old(sys).idle[c]
      ensures asleep ==> Enabled(old(sys), Block(c, q, ticket)) && sys == Next(old(sys), Block(c, q, ticket))
      ensures !asleep ==> sys == old(sys)
      ensures asleep ==>
                var t := current[c];
                && t in old(mem) && mem == old(mem)[t := old(mem)[t].(state := Blocked, waitingOn := q, waitSeq := ticket)]
                && sys == old(sys).(tcb := old(sys).tcb[t := Tcb(Blocked, q, ticket)])
    {
      hide OneList, Loose, OnePlace, AllFit, AllPlaced, List;
      if queues[q].seqno != ticket {
        return false;
      }
      var curr := current[c];
      if curr == idle[c] {
        return false;
      }
      CurrentHere(sys, c);
      StepKeeps(sys, Block(c, q, ticket));
      OwnFields(c, mem[curr].(waitingOn := q, waitSeq := ticket, state := Blocked));
      return true;
    }

    // The running thread writes its own fields.
    method OwnFields(c: nat, th: Thread)
      requires Valid() && c < current.Length && current[c] in mem && th.next == mem[current[c]].next
      requires Inv(sys.With(current[c], Tcb(th.state, th.waitingOn, th.waitSeq)))
      modifies this`mem, this`sys
      ensures Valid() && sys == old(sys).With(current[c], Tcb(th.state, th.waitingOn, th.waitSeq))
      ensures mem == old(mem)[current[c] := th]
    {
      hide Rep, Inv;
      RepFields(mem, queues, readyHead, readyTail, zombieList, sys, current[c], th);
      mem := mem[current[c] := th];
      sys := sys.With(current[c], Tcb(th.state, th.waitingOn, th.waitSeq));
    }

    // scheduler_wait, after the trap
    method AfterTrap(c: nat)
      requires Valid() && c < current.Length
      modifies this
      ensures Valid() && SameOwners(old(mem), mem)
      ensures sys == if old(sys).Th(old(sys).cur[c]).state == Blocked then Next(old(sys), Unblock(c)) else old(sys)
      ensures var t := current[c];
              t in mem && mem[t].state != Blocked && (old(mem[current[c]].state) == Blocked ==> mem[t].state == Running && mem[t].waitingOn == NULL)
    {
      hide OneList, Loose, OnePlace, AllFit, AllPlaced, List;
      CurrentHere(sys, c);
      var curr := current[c];
      if mem[curr].state == Blocked {
        StepKeeps(sys, Unblock(c));
        OwnFields(c, mem[curr].(waitingOn := NULL, state := Running));
      }
    }

    // thread_exit_status, once the process has been dealt with
    method Exit(c: nat)
      requires Valid() && c < current.Length && sys.Th(sys.cur[c]).state == Running
      modifies this
      ensures Valid()
      ensures sys == if old(sys).cur[c] == old(sys).idle[c] then old(sys) else Next(old(sys), Threads.Exit(c))
      ensures mem.Keys == old(mem.Keys)
              && forall t :: t in mem ==> mem[t].process == if sys != old(sys) && t == sys.cur[c] then NULL else old(mem)[t].process
      ensures var t := old(current[c]);
              if t == old(idle[c]) then sys == old(sys) && mem == old(mem)
              else
                && t in mem && mem == old(mem)[t := old(mem)[t].(process := NULL, state := Terminated)]
                && t in sys.tcb && sys == old(sys).(tcb := old(sys).tcb[t := old(sys).tcb[t].(state := Terminated)])
    {
      hide OneList, Loose, OnePlace, AllFit, AllPlaced, List;
      CurrentHere(sys, c);
      var curr := current[c];
      if curr == idle[c] {
        return;
      }
      StepKeeps(sys, Threads.Exit(c));
      OwnFields(c, mem[curr].(process := NULL, state := Terminated));
    }

    // scheduler_wake_all
    method WakeAll(q: nat)
      requires Valid() && q in queues
      modifies this
      ensures Valid() && sys == Next(old(sys), Wake(q)) && SameOwners(old(mem), mem)
      ensures sys.ready == old(sys).ready + old(sys).queues[q].list
      ensures sys == old(sys).(ready := sys.ready, tcb := sys.tcb, queues := old(sys).queues[q := Queue([], old(sys).queues[q].tick + 1)])
      ensures forall t :: t in old(sys).tcb && t !in old(sys).queues[q].list ==> t in sys.tcb && sys.tcb[t] == old(sys).tcb[t]
      ensures forall t :: t in old(sys).queues[q].list ==> t in sys.tcb && sys.tcb[t].state == Ready && sys.tcb[t].waitingOn == NULL
    {
      hide Rep, OneList, Loose, OnePlace, AllFit, AllPlaced, List, WakeSome, Shaped, SameOwners;
      ghost var s, was := sys, mem;
      OwnersSame(mem);
      ghost var woken := s.Q(q).list;
      ReadThread(mem, queues, readyHead, readyTail, zombieList, s, NULL);
      WakeKeeps(s, q);
      Detach(mem, queues, readyHead, readyTail, zombieList, s, q);
      var t := queues[q].head;
      queues := queues[q := WaitQueue(NULL, queues[q].seqno + 1)];
      sys := WakeSome(s, q, 0);
      SameSlots(s, q, 0);
      ghost var k := 0;
      while t != NULL
        modifies this
        invariant k <= |woken| && Stands() && sys == WakeSome(s, q, k) && SameOwners(was, mem)
        invariant List(mem, t, woken[k..])
        decreases |woken| - k
      {
        ghost var m1 := mem;
        t := WakeOne(t, s, q, k);
        OwnersThen(was, m1, mem);
        k := k + 1;
      }
      NothingLeft(mem, woken, k);
      AllWoken(s, q);
      SleepersWake(s, q);
    }

    // The thread at hand queues up; the address of the next one to wake is read first.
    method WakeOne(t: nat, ghost s: Sys, ghost q: nat, ghost k: nat) returns (next: nat)
      requires Inv(s) && q in s.queues && k <= |s.Q(q).list| && Stands() && sys == WakeSome(s, q, k)
      requires List(mem, t, s.Q(q).list[k..]) && t != NULL
      modifies this
      ensures Stands() && k < |s.Q(q).list| && sys == WakeSome(s, q, k + 1) && SameOwners(old(mem), mem)
      ensures List(mem, next, s.Q(q).list[k + 1..])
    {
      hide Rep, OneList, Loose, OnePlace, AllFit, AllPlaced, List, WakeSome, Shaped, SameOwners;
      ghost var m0, tail, s1 := mem, readyTail, sys;
      OwnersSame(mem);
      WokenNext(mem, queues, readyHead, readyTail, zombieList, s, q, k, t);
      ReadThread(mem, queues, readyHead, readyTail, zombieList, sys, t);
      next := mem[t].next;
      RepFields(mem, queues, readyHead, readyTail, zombieList, sys, t, mem[t].(waitingOn := NULL));
      OwnersStep(m0, mem, t, mem[t].(waitingOn := NULL));
      mem := mem[t := mem[t].(waitingOn := NULL)];
      ghost var m1 := mem;
      sys := sys.With(t, sys.Th(t).(waitingOn := NULL));
      SameLists(s1, sys);
      EnqueueLocked(t);
      OwnersThen(m0, m1, mem);
      RestStays(m0, mem, tail, s, q, k, t);
      SameSlots(s, q, k);
      SameSlots(s, q, k + 1);
    }

    // scheduler_reap: the zombie list is taken as a whole, then every block on it is freed.
    method Reap()
      requires Valid()
      modifies this
      ensures Valid() && sys == Next(old(sys), Collect)
      ensures mem.Keys == old(mem.Keys) - (set t | t in old(sys).zombies)
      ensures forall t :: t in mem ==> mem[t] == old(mem)[t]
      ensures sys.zombies == [] && zombieList == NULL
    {
      hide OneList, Loose, OnePlace, AllFit, AllPlaced, List, Shaped;
      CollectKeeps(sys);
      if zombieList == NULL {
        NothingDead(mem, queues, readyHead, readyTail, zombieList, sys);
        return;
      }
      ghost var s, was := sys, mem;
      var list := zombieList;
      zombieList := NULL;
      ghost var k := 0;
      assert s.zombies[0..] == s.zombies;
      while list != NULL
        modifies this`mem
        invariant k <= |s.zombies| && List(mem, list, s.zombies[k..])
        invariant mem == map t | t in was && t !in s.zombies[..k] :: was[t]
        decreases |s.zombies| - k
      {
        NextDead(mem, list, s, k);
        var next := mem[list].next;
        mem := mem - {list};
        list := next;
        k := k + 1;
      }
      NothingLeft(mem, s.zombies, k);
      assert s.zombies[..k] == s.zombies;
      sys := Threads.Reap(s);
      ListsWithoutDead(was, mem, queues, readyHead, readyTail, s);
    }
  }

  lemma SleepersWake(s: Sys, q: nat)
    requires Inv(s) && q in s.queues
    ensures forall t :: t in s.queues[q].list ==>
              var s' := Next(s, Wake(q)); t in s'.tcb && s'.tcb[t].state == Ready && s'.tcb[t].waitingOn == NULL
  {
    forall i | 0 <= i < |s.queues[q].list| ensures s.queues[q].list[i] in s.tcb {
      SleepersAreCurrent(s, q, i);
    }
  }

  // A new block leaves every list as it was.
  lemma RepAllocate(mem: Memory, queues: map<nat, WaitQueue>, head: nat, tail: nat, zombies: nat, s: Sys, t: nat, process: nat)
    requires Rep(mem, queues, head, tail, zombies, s) && t !in mem
    ensures Rep(mem[t := Thread(Uninitialised, process, NULL, 0, NULL)], queues, head, tail, zombies, Next(s, Create(t)))
  {
    var mem' := mem[t := Thread(Uninitialised, process, NULL, 0, NULL)];
    ListFrame(mem, mem', head, s.ready);
    ListFrame(mem, mem', zombies, s.zombies);
    forall q | q in queues ensures List(mem', queues[q].head, s.queues[q].list) {
      ListFrame(mem, mem', queues[q].head, s.queues[q].list);
    }
  }

  lemma NothingDead(mem: Memory, queues: map<nat, WaitQueue>, head: nat, tail: nat, zombies: nat, s: Sys)
    requires Rep(mem, queues, head, tail, zombies, s) && zombies == NULL
    ensures s.zombies == [] && Threads.Reap(s) == s
  {
    assert Threads.Reap(s).tcb == s.tcb;
  }

  // Freeing one zombie leaves the chain of the rest.
  lemma NextDead(mem: Memory, t: nat, s: Sys, k: nat)
    requires Inv(s) && k <= |s.zombies| && List(mem, t, s.zombies[k..]) && t != NULL
    ensures k < |s.zombies| && t == s.zombies[k] && t in mem
    ensures List(mem - {t}, mem[t].next, s.zombies[k + 1..])
    ensures forall u :: u in s.zombies[..k + 1] <==> u in s.zombies[..k] || u == t
  {
    hide AllFit, AllPlaced;
    var rest := s.zombies[k..];
    assert rest[0] == t && rest[1..] == s.zombies[k + 1..];
    assert s.zombies[..k + 1] == s.zombies[..k] + [t];
    forall i | 0 <= i < |rest[1..]| ensures rest[1..][i] != t {
      assert At(s, Dead(k)) == t && At(s, Dead(k + 1 + i)) == rest[1..][i];
    }
    ListFrame(mem, mem - {t}, mem[t].next, rest[1..]);
  }

  lemma ListsWithoutDead(mem: Memory, mem': Memory, queues: map<nat, WaitQueue>, head: nat, tail: nat, s: Sys)
    requires Inv(s) && Fields(mem, s.tcb) && Queues(mem, queues, s.queues) && List(mem, head, s.ready) && tail == Last(s.ready)
    requires mem' == map t | t in mem && t !in s.zombies :: mem[t]
    ensures Rep(mem', queues, head, tail, NULL, Threads.Reap(s))
  {
    hide AllFit, AllPlaced, OnePlace;
    forall i | 0 <= i < |s.ready| ensures s.ready[i] !in s.zombies {
      assert At(s, InReady(i)) == s.ready[i];
      NotDead(s, InReady(i));
    }
    ListFrame(mem, mem', head, s.ready);
    forall q | q in queues ensures List(mem', queues[q].head, s.queues[q].list) {
      forall i | 0 <= i < |s.queues[q].list| ensures s.queues[q].list[i] !in s.zombies {
        assert At(s, InQueue(q, i)) == s.queues[q].list[i];
        NotDead(s, InQueue(q, i));
      }
      ListFrame(mem, mem', queues[q].head, s.queues[q].list);
    }
  }

  // scheduler_wake_all after k threads.
  ghost function WakeSome(s: Sys, q: nat, k: nat): Sys
    requires k <= |s.Q(q).list|
  {
    var woken := s.Q(q).list[..k];
    s.(queues := s.queues[q := Queue([], s.Q(q).tick + 1)],
       tcb := map t | t in s.tcb :: if t in woken then Tcb(Ready, NULL, s.tcb[t].waitSeq) else s.tcb[t],
       ready := s.ready + woken)
  }

  lemma SameSlots(s: Sys, q: nat, k: nat)
    requires k <= |s.Q(q).list|
    ensures var s' := WakeSome(s, q, k);
            s'.cur == s.cur && s'.idle == s.idle && s'.park == s.park && s'.dying == s.dying && s'.queues.Keys == s.queues.Keys + {q}
  {
  }

  lemma AllWoken(s: Sys, q: nat)
    ensures WakeSome(s, q, |s.Q(q).list|) == Threads.WakeAll(s, q)
  {
    assert s.Q(q).list[..|s.Q(q).list|] == s.Q(q).list;
  }

  lemma NothingLeft(mem: Memory, ids: seq<nat>, k: nat)
    requires k <= |ids| && List(mem, NULL, ids[k..])
    ensures k == |ids|
  {
  }

  lemma Detach(mem: Memory, queues: map<nat, WaitQueue>, head: nat, tail: nat, zombies: nat, s: Sys, q: nat)
    requires Rep(mem, queues, head, tail, zombies, s) && q in queues
    ensures List(mem, queues[q].head, s.Q(q).list) && s.Q(q).list == s.Q(q).list[0..]
    ensures Rep(mem, queues[q := WaitQueue(NULL, queues[q].seqno + 1)], head, tail, zombies, WakeSome(s, q, 0))
  {
    assert s.ready + [] == s.ready;
    assert s.Q(q).list[..0] == [];
  }

  // The thread to wake next is in no list any more.
  lemma WokenNext(mem: Memory, queues: map<nat, WaitQueue>, head: nat, tail: nat, zombies: nat, s: Sys, q: nat, k: nat, t: nat)
    requires Inv(s) && q in s.queues && k <= |s.Q(q).list| && Rep(mem, queues, head, tail, zombies, WakeSome(s, q, k))
    requires List(mem, t, s.Q(q).list[k..]) && t != NULL
    ensures k < |s.Q(q).list| && t == s.Q(q).list[k] && t in mem
    ensures mem[t].next in mem || mem[t].next == NULL
    ensures OneList(WakeSome(s, q, k)) && Loose(WakeSome(s, q, k), t)
  {
    var rest := s.Q(q).list[k..];
    assert rest != [] && rest[0] == t;
    WakingLists(s, q, k);
    if mem[t].next != NULL {
      assert List(mem, mem[t].next, rest[1..]);
    }
  }

  lemma WakingLists(s: Sys, q: nat, k: nat)
    requires Inv(s) && q in s.queues && k <= |s.Q(q).list|
    ensures OneList(WakeSome(s, q, k))
    ensures forall j :: k <= j < |s.Q(q).list| ==> Loose(WakeSome(s, q, k), s.Q(q).list[j])
  {
    hide AllFit, AllPlaced;
    var s' := WakeSome(s, q, k);
    forall p | Linked(p) && At(s', p) != NULL
      ensures At(s', p) == At(s, WakeBack(s, q, p)) && (forall j :: k <= j ==> WakeBack(s, q, p) != InQueue(q, j))
    {
    }
    forall j, p | k <= j < |s.Q(q).list| && Linked(p) ensures At(s', p) != s.Q(q).list[j] {
      assert At(s, InQueue(q, j)) == s.Q(q).list[j];
    }
  }

  // Waking one thread leaves the chain of those still to wake as it was, and counts as one more.
  lemma {:induction false} RestStays(mem: Memory, mem': Memory, tail: nat, s: Sys, q: nat, k: nat, t: nat)
    requires Inv(s) && q in s.queues && k < |s.Q(q).list| && t == s.Q(q).list[k] && t in mem
    requires List(mem, t, s.Q(q).list[k..]) && tail == Last(WakeSome(s, q, k).ready)
    requires mem'.Keys == mem.Keys && forall u :: u in mem && u != t && u != tail ==> mem'[u].next == mem[u].next
    ensures List(mem', mem[t].next, s.Q(q).list[k + 1..])
    ensures var s1 := WakeSome(s, q, k);
            Enqueue(s1.With(t, s1.Th(t).(waitingOn := NULL)), t) == WakeSome(s, q, k + 1)
  {
    var rest := s.Q(q).list[k..];
    WakingLists(s, q, k);
    OneMore(s, q, k);
    assert rest[1..] == s.Q(q).list[k + 1..];
    var s1 := WakeSome(s, q, k);
    forall i | 0 <= i < |rest[1..]| ensures rest[1..][i] != t && rest[1..][i] != tail {
      assert rest[1..][i] == s.Q(q).list[k + 1 + i];
      assert At(s, InQueue(q, k)) == t && At(s, InQueue(q, k + 1 + i)) == rest[1..][i];
      if s1.ready != [] {
        assert At(s1, InReady(|s1.ready| - 1)) == tail;
      }
    }
    ListFrame(mem, mem', mem[t].next, rest[1..]);
  }

  lemma OneMore(s: Sys, q: nat, k: nat)
    requires Inv(s) && q in s.queues && k < |s.Q(q).list|
    ensures var s1, t := WakeSome(s, q, k), s.Q(q).list[k];
            Enqueue(s1.With(t, s1.Th(t).(waitingOn := NULL)), t) == WakeSome(s, q, k + 1)
  {
    var t := s.Q(q).list[k];
    Woken(s, q, t);
    hide AllFit, AllPlaced;
    assert s.Q(q).list[..k + 1] == s.Q(q).list[..k] + [t];
    assert t !in s.Q(q).list[..k] by {
      assert At(s, InQueue(q, k)) == t;
      assert forall i :: 0 <= i < k ==> At(s, InQueue(q, i)) == s.Q(q).list[i];
    }
    var s1 := WakeSome(s, q, k);
    assert Enqueue(s1.With(t, s1.Th(t).(waitingOn := NULL)), t).tcb == WakeSome(s, q, k + 1).tcb;
  }

  lemma SettledSlots(s: Sys, c: nat)
    ensures var s1 := SettleZombie(SettlePark(s, c), c);
            s1.park == SettlePark(s, c).park && SettlePark(s, c).dying == s.dying && s1.cur == s.cur
  {
  }

  lemma SlotsStay(s: Sys, c: nat)
    ensures var s1 := Requeue(s, c);
            s1.cur == s.cur && s1.idle == s.idle && s1.park == s.park && s1.dying == s.dying && s1.tcb.Keys >= s.tcb.Keys
  {
  }

  lemma DyingHere(s: Sys, c: nat)
    requires Inv(s) && c < |s.dying| && s.dying[c] != NULL
    ensures s.dying[c] in s.tcb && Loose(s, s.dying[c]) && c < |s.cur|
  {
    InvLists(s);
    assert At(s, Dying(c)) == s.dying[c] && Fits(s, Dying(c), s.dying[c]);
  }

  lemma CurrentHere(s: Sys, c: nat)
    requires Inv(s) && c < |s.cur|
    ensures s.cur[c] in s.tcb && s.cur[c] != NULL && Loose(s, s.cur[c]) && OneList(s)
    ensures s.idle[c] in s.tcb && s.idle[c] != NULL
    ensures forall i :: 0 <= i < |s.ready| ==> s.ready[i] in s.tcb && s.ready[i] != NULL
  {
    InvLists(s);
    assert At(s, OnCpu(c)) == s.cur[c] && Fits(s, OnCpu(c), s.cur[c]);
    forall i | 0 <= i < |s.ready| ensures s.ready[i] in s.tcb {
      assert At(s, InReady(i)) == s.ready[i] && Fits(s, InReady(i), s.ready[i]);
    }
  }

  // The current thread put back in the ready queue leaves the lists apart.
  lemma RequeuedLists(s: Sys, c: nat)
    requires Inv(s) && c < |s.cur|
    ensures OneList(Requeue(s, c))
  {
    InvLists(s);
    var s' := Requeue(s, c);
    var t := s.cur[c];
    forall p | Linked(p) && At(s', p) != NULL ensures At(s', p) == (if p == InReady(|s.ready|) then t else At(s, p)) {
    }
    assert Loose(s, t) by {
      assert At(s, OnCpu(c)) == t;
    }
  }

  lemma ParkedHere(s: Sys, c: nat)
    requires Inv(s) && c < |s.park| && s.park[c] != NULL
    ensures var t := s.park[c];
            t in s.tcb && Loose(s, t) && OneList(s) && s.Th(t).waitingOn in s.queues && s.Th(t).waitingOn != NULL && c < |s.cur|
  {
    InvLists(s);
    assert At(s, Parked(c)) == s.park[c] && Fits(s, Parked(c), s.park[c]);
  }
}
