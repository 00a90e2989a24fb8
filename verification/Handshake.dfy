/** The sleep/wake handshake built on the scheduler: take a ticket, look, sleep on the ticket; and
    on the other side change the data first, wake the queue afterwards. What is looked for is a
    parameter; keyboard input and dead children are its two uses. */
module Handshake {
  import opened Threads

  // What a thread about to sleep on q is after, the ticket it took, and whether it has looked since.
  datatype Waiter = Waiter(q: nat, want: int, ticket: nat, looked: bool)

  // `owed` counts the queues that somebody has made news for and not woken yet.
  datatype World<D> = World(sys: Sys, data: D, owed: multiset<nat>, waits: map<nat, Waiter>)

  datatype Step<D> =
    | Sched(step: Threads.Step)
    | TakeTicket(c: nat, q: nat, want: int)   // wait_queue_snapshot
    | Look(c: nat)                            // nothing there
    | Change(data: D, news: multiset<nat>)    // data written; these queues must be woken
    | Notify(q: nat)                          // the scheduler_wake_all owed to q

  // Whoever a change gives something to look for is owed a wake-up.
  ghost predicate Announced<D(!new)>(ready: (D, nat, int) -> bool, d: D, d': D, news: multiset<nat>) {
    forall q, want :: ready(d', q, want) && !ready(d, q, want) ==> q in news
  }

  function Me<D>(s: World<D>, c: nat): nat {
    Slot(s.sys.cur, c)
  }

  ghost predicate Enabled<D(!new)>(ready: (D, nat, int) -> bool, s: World<D>, step: Step<D>) {
    match step
    case Sched(st) =>
      && Threads.Enabled(s.sys, st)
      // Threads go to sleep by this handshake only.
      && (st.Block? ==> Me(s, st.c) in s.waits && s.waits[Me(s, st.c)].looked
                        && s.waits[Me(s, st.c)].q == st.q && s.waits[Me(s, st.c)].ticket == st.ticket)
    case TakeTicket(c, q, want) => Busy(s.sys, c) && q in s.sys.queues
    case Look(c) => Busy(s.sys, c) && Me(s, c) in s.waits && !ready(s.data, s.waits[Me(s, c)].q, s.waits[Me(s, c)].want)
    case Change(d, news) => Announced(ready, s.data, d, news)
    case Notify(q) => q in s.owed && q in s.sys.queues
  }

  function Next<D>(s: World<D>, step: Step<D>): World<D> {
    match step
    case Sched(st) => s.(sys := Threads.Next(s.sys, st))
    case TakeTicket(c, q, want) => s.(waits := s.waits[Me(s, c) := Waiter(q, want, s.sys.Q(q).tick, false)])
    case Look(c) => if Me(s, c) in s.waits then s.(waits := s.waits[Me(s, c) := s.waits[Me(s, c)].(looked := true)]) else s
    case Change(d, news) => s.(data := d, owed := s.owed + news)
    case Notify(q) => s.(sys := WakeAll(s.sys, q), owed := s.owed - multiset{q})
  }

  // A ticket that is still good means: nothing to look for, or a wake-up is on its way.
  ghost predicate Good<D>(ready: (D, nat, int) -> bool, s: World<D>, w: Waiter) {
    && w.q in s.sys.queues && w.ticket <= s.sys.queues[w.q].tick
    && (w.looked && w.ticket == s.sys.queues[w.q].tick && ready(s.data, w.q, w.want) ==> w.q in s.owed)
  }

  ghost predicate Registered<D>(s: World<D>, t: nat) {
    t in s.waits && s.waits[t].looked && s.waits[t].q == s.sys.Th(t).waitingOn && s.waits[t].ticket == s.sys.Th(t).waitSeq
  }

  ghost predicate Inv<D>(ready: (D, nat, int) -> bool, s: World<D>) {
    && Threads.Inv(s.sys)
    && (forall t :: t in s.waits ==> Good(ready, s, s.waits[t]))
    && (forall t :: t in s.sys.tcb && s.sys.tcb[t].state == Blocked ==> Registered(s, t))
  }

  // A thread asleep after a step was asleep before, with the same ticket, or has just gone to sleep.
  lemma SleptBefore(s: Sys, step: Threads.Step, t: nat)
    requires Threads.Inv(s) && Threads.Enabled(s, step)
    requires t in Threads.Next(s, step).tcb && Threads.Next(s, step).tcb[t].state == Blocked
    requires !(step.Block? && t == Slot(s.cur, step.c))
    ensures t in s.tcb && s.tcb[t].state == Blocked
    ensures s.tcb[t].waitingOn == Threads.Next(s, step).tcb[t].waitingOn && s.tcb[t].waitSeq == Threads.Next(s, step).tcb[t].waitSeq
  {
    if step.Pass? {
      PassSlept(s, step.c, t);
    }
  }

  lemma PassSlept(s: Sys, c: nat, t: nat)
    requires Threads.Inv(s) && c < |s.cur|
    requires t in Schedule(s, c).tcb && Schedule(s, c).tcb[t].state == Blocked
    ensures t in s.tcb && s.tcb[t].state == Blocked
    ensures s.tcb[t].waitingOn == Schedule(s, c).tcb[t].waitingOn && s.tcb[t].waitSeq == Schedule(s, c).tcb[t].waitSeq
  {
    hide OnePlace, AllFit, AllPlaced;
    PassIs(s, c);
    var s1 := Settled(s, c);
    assert t in s1.tcb && s1.tcb[t] == Schedule(s, c).tcb[t] by {
      hide Settled, Schedule, Shaped;
    }
    hide Schedule;
    SettledSlept(s, c, t);
  }

  lemma SettledSlept(s: Sys, c: nat, t: nat)
    requires Shaped(s) && c < |s.cur| && t in Settled(s, c).tcb && Settled(s, c).tcb[t].state == Blocked
    ensures t in s.tcb && s.tcb[t] == Settled(s, c).tcb[t]
  {
  }

  lemma SchedKeeps<D(!new)>(ready: (D, nat, int) -> bool, s: World<D>, st: Threads.Step)
    requires Inv(ready, s) && Enabled(ready, s, Sched(st))
    ensures Inv(ready, Next(s, Sched(st)))
  {
    hide Threads.Inv, Threads.Next, Threads.Enabled;
    var s' := Next(s, Sched(st));
    Threads.StepKeeps(s.sys, st);
    forall t | t in s.waits ensures Good(ready, s', s.waits[t]) {
      TicksGrow(s.sys, st, s.waits[t].q);
    }
    forall t | t in s'.sys.tcb && s'.sys.tcb[t].state == Blocked ensures Registered(s', t) {
      if st.Block? && t == Me(s, st.c) {
        JustBlocked(s.sys, st);
      } else {
        SleptBefore(s.sys, st, t);
      }
    }
  }

  lemma JustBlocked(s: Sys, st: Threads.Step)
    requires st.Block?
    ensures Threads.Next(s, st).Th(Slot(s.cur, st.c)) == Tcb(Blocked, st.q, st.ticket)
  {
  }

  lemma NotifyKeeps<D(!new)>(ready: (D, nat, int) -> bool, s: World<D>, q: nat)
    requires Inv(ready, s) && q in s.sys.queues
    ensures Inv(ready, Next(s, Notify(q)))
  {
    hide Threads.Inv;
    Threads.StepKeeps(s.sys, Wake(q));
    var s' := Next(s, Notify(q));
    forall t | t in s'.sys.tcb && s'.sys.tcb[t].state == Blocked ensures Registered(s', t) {
      SleptBefore(s.sys, Wake(q), t);
    }
  }

  lemma OthersKeep<D(!new)>(ready: (D, nat, int) -> bool, s: World<D>, step: Step<D>)
    requires Inv(ready, s) && Enabled(ready, s, step) && !step.Sched? && !step.Notify?
    ensures Inv(ready, Next(s, step))
  {
    hide Threads.Inv;
    var s' := Next(s, step);
    assert s'.sys == s.sys;
    forall t | t in s'.waits ensures Good(ready, s', s'.waits[t]) {
      if t in s.waits {
        assert Good(ready, s, s.waits[t]);
      }
    }
    forall t | t in s.sys.tcb && s.sys.tcb[t].state == Blocked ensures Registered(s', t) {
      assert Registered(s, t);
    }
  }

  lemma StepKeeps<D(!new)>(ready: (D, nat, int) -> bool, s: World<D>, step: Step<D>)
    requires Inv(ready, s) && Enabled(ready, s, step)
    ensures Inv(ready, Next(s, step))
  {
    match step
    case Sched(st) => SchedKeeps(ready, s, st);
    case Notify(q) => NotifyKeeps(ready, s, q);
    case _ => OthersKeep(ready, s, step);
  }

  function Run<D>(s: World<D>, steps: seq<Step<D>>): World<D>
    decreases |steps|
  {
    if steps == [] then s else Run(Next(s, steps[0]), steps[1..])
  }

  ghost predicate Legal<D(!new)>(ready: (D, nat, int) -> bool, s: World<D>, steps: seq<Step<D>>)
    decreases |steps|
  {
    steps == [] || (Enabled(ready, s, steps[0]) && Legal(ready, Next(s, steps[0]), steps[1..]))
  }

  // Nobody has asked for anything yet.
  function Start<D>(idle: seq<nat>, queues: set<nat>, data: D): World<D> {
    World(Boot(idle, queues), data, multiset{}, map[])
  }

  lemma {:induction false} RunKeeps<D(!new)>(ready: (D, nat, int) -> bool, s: World<D>, steps: seq<Step<D>>)
    requires Inv(ready, s) && Legal(ready, s, steps)
    ensures Inv(ready, Run(s, steps))
    decreases |steps|
  {
    if steps != [] {
      StepKeeps(ready, s, steps[0]);
      RunKeeps(ready, Next(s, steps[0]), steps[1..]);
    }
  }

  // Sleep is justified: in every reachable state, a thread asleep on a queue, in its list or still
  // in a slot of its CPU, has nothing to look for, or the one who gave it something has not
  // finished waking the queue.
  lemma SleepJustified<D(!new)>(ready: (D, nat, int) -> bool, idle: seq<nat>, queues: set<nat>, data: D, steps: seq<Step<D>>,
                                q: nat, t: nat)
    requires Bootable(idle, queues) && Legal(ready, Start(idle, queues, data), steps)
    requires AsleepOn(Run(Start(idle, queues, data), steps).sys, t, q)
    ensures var s := Run(Start(idle, queues, data), steps);
            t in s.waits && s.waits[t].q == q && (ready(s.data, q, s.waits[t].want) ==> q in s.owed)
  {
    var s0 := Start(idle, queues, data);
    BootKeeps(idle, queues);
    assert Inv(ready, s0);
    RunKeeps(ready, s0, steps);
    var s := Run(s0, steps);
    assert Registered(s, t) && Good(ready, s, s.waits[t]);
  }

  // In particular, a thread in the queue's list.
  lemma ListedSleepJustified<D(!new)>(ready: (D, nat, int) -> bool, idle: seq<nat>, queues: set<nat>, data: D, steps: seq<Step<D>>,
                                      q: nat, i: nat)
    requires Bootable(idle, queues) && Legal(ready, Start(idle, queues, data), steps)
    requires var s := Run(Start(idle, queues, data), steps); q in s.sys.queues && i < |s.sys.queues[q].list|
    ensures var s := Run(Start(idle, queues, data), steps);
            var t := s.sys.queues[q].list[i];
            t in s.waits && s.waits[t].q == q && (ready(s.data, q, s.waits[t].want) ==> q in s.owed)
  {
    var s0 := Start(idle, queues, data);
    BootKeeps(idle, queues);
    assert Inv(ready, s0);
    RunKeeps(ready, s0, steps);
    SleepersAreCurrent(Run(s0, steps).sys, q, i);
    SleepJustified(ready, idle, queues, data, steps, q, Run(s0, steps).sys.queues[q].list[i]);
  }
}
