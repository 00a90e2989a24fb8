/** The scheduler as a transition system over any number of CPUs and wait queues. Each step is one
    lock-held section of scheduler.c, or one stretch of code that runs with interrupts off and
    writes nothing but the running thread's own fields.

    Threads and wait queues are named by their addresses; 0 is no thread and no queue. */
module Threads {
  const NULL: nat := 0

  datatype State = Ready | Running | Blocked | Terminated | Uninitialised
  datatype Tcb = Tcb(state: State, waitingOn: nat, waitSeq: nat)
  datatype Queue = Queue(list: seq<nat>, tick: nat)

  // The per-CPU slots are indexed by CPU.
  datatype Sys = Sys(
    tcb: map<nat, Tcb>,
    cur: seq<nat>, idle: seq<nat>, park: seq<nat>, dying: seq<nat>,
    ready: seq<nat>, zombies: seq<nat>, queues: map<nat, Queue>)
  {
    function Th(t: nat): Tcb {
      if t in tcb then tcb[t] else Tcb(Uninitialised, NULL, 0)
    }

    function Q(q: nat): Queue {
      if q in queues then queues[q] else Queue([], 0)
    }

    function With(t: nat, th: Tcb): Sys {
      this.(tcb := tcb[t := th])
    }
  }

  // The content of a per-CPU slot or a list position, NULL for none.
  function Slot(s: seq<nat>, i: nat): nat {
    if i < |s| then s[i] else NULL
  }

  function Fill(s: seq<nat>, i: nat, t: nat): seq<nat> {
    if i < |s| then s[i := t] else s
  }

  // ---- the steps ----

  // enqueue_locked
  function Enqueue(s: Sys, t: nat): Sys {
    s.With(t, s.Th(t).(state := Ready)).(ready := s.ready + [t])
  }

  // A thread switched away from in order to sleep is parked, unless its queue has moved on.
  function SettlePark(s: Sys, c: nat): Sys {
    var t := Slot(s.park, c);
    if t == NULL then s else
    var q := s.Th(t).waitingOn;
    var s1 := s.(park := Fill(s.park, c, NULL));
    if q == NULL || s.Q(q).tick != s.Th(t).waitSeq then
      Enqueue(s1.With(t, s.Th(t).(waitingOn := NULL)), t)
    else
      s1.(queues := s.queues[q := s.Q(q).(list := [t] + s.Q(q).list)])
  }

  // A thread switched away from in order to die is handed to the reaper.
  function SettleZombie(s: Sys, c: nat): Sys {
    var t := Slot(s.dying, c);
    if t == NULL then s else s.(zombies := [t] + s.zombies, dying := Fill(s.dying, c, NULL))
  }

  function Requeue(s: Sys, c: nat): Sys {
    var t := Slot(s.cur, c);
    if s.Th(t).state == Running && t != Slot(s.idle, c) then Enqueue(s, t) else s
  }

  function Switch(s: Sys, c: nat): Sys {
    var t := Slot(s.cur, c);
    var next := if s.ready == [] then Slot(s.idle, c) else s.ready[0];
    var s1 := s.(ready := if s.ready == [] then [] else s.ready[1..]);
    if next == t then
      s1.With(t, s.Th(t).(waitingOn := NULL, state := Running))
    else
      s1.With(next, s.Th(next).(state := Running)).(
        park := if s.Th(t).state == Blocked then Fill(s.park, c, t) else s.park,
        dying := if s.Th(t).state == Terminated && t != Slot(s.idle, c) then Fill(s.dying, c, t) else s.dying,
        cur := Fill(s.cur, c, next))
  }

  // scheduler_schedule, from where it takes the lock
  function Schedule(s: Sys, c: nat): Sys {
    Switch(Requeue(SettleZombie(SettlePark(s, c), c), c), c)
  }

  // scheduler_wake_all
  function WakeAll(s: Sys, q: nat): Sys {
    var woken := s.Q(q).list;
    s.(queues := s.queues[q := Queue([], s.Q(q).tick + 1)],
       tcb := map t | t in s.tcb :: if t in woken then Tcb(Ready, NULL, s.tcb[t].waitSeq) else s.tcb[t],
       ready := s.ready + woken)
  }

  // scheduler_reap
  function Reap(s: Sys): Sys {
    s.(tcb := map t | t in s.tcb && t !in s.zombies :: s.tcb[t], zombies := [])
  }

  datatype Step =
    | Create(t: nat)                       // tcb_alloc
    | Start(t: nat)                        // scheduler_enqueue of a new thread
    | Pass(c: nat)                         // scheduler_schedule
    | Block(c: nat, q: nat, ticket: nat)   // scheduler_wait, up to the trap
    | Unblock(c: nat)                      // scheduler_wait, when the trap did not switch
    | Wake(q: nat)                         // scheduler_wake_all
    | Exit(c: nat)                         // thread_exit_status
    | Collect                              // scheduler_reap

  // The thread on a CPU is running and is not its idle thread.
  predicate Busy(s: Sys, c: nat) {
    c < |s.cur| && s.cur[c] != Slot(s.idle, c) && s.Th(s.cur[c]).state == Running
  }

  // A ticket is a value the queue's counter has had; it may be out of date by the time it is used.
  predicate Enabled(s: Sys, step: Step) {
    match step
    case Create(t) => t != NULL && t !in s.tcb
    case Start(t) => t in s.tcb && s.tcb[t].state == Uninitialised
    case Pass(c) => c < |s.cur|
    case Block(c, q, ticket) => Busy(s, c) && q in s.queues && ticket <= s.queues[q].tick
    case Unblock(c) => c < |s.cur| && s.Th(s.cur[c]).state == Blocked
    case Wake(q) => q in s.queues
    case Exit(c) => Busy(s, c)
    case Collect => true
  }

  function Next(s: Sys, step: Step): Sys {
    match step
    case Create(t) => s.With(t, Tcb(Uninitialised, NULL, 0))
    case Start(t) => Enqueue(s, t)
    case Pass(c) => Schedule(s, c)
    case Block(c, q, ticket) => s.With(Slot(s.cur, c), Tcb(Blocked, q, ticket))
    case Unblock(c) => s.With(Slot(s.cur, c), s.Th(Slot(s.cur, c)).(waitingOn := NULL, state := Running))
    case Wake(q) => WakeAll(s, q)
    case Exit(c) => s.With(Slot(s.cur, c), s.Th(Slot(s.cur, c)).(state := Terminated))
    case Collect => Reap(s)
  }

  // ---- where threads are ----

  datatype Place = OnCpu(c: nat) | InReady(i: nat) | InQueue(q: nat, i: nat) | Parked(c: nat) | Dying(c: nat) | Dead(i: nat)

  // The thread at a place, NULL for none.
  function At(s: Sys, p: Place): nat {
    match p
    case OnCpu(c) => Slot(s.cur, c)
    case InReady(i) => Slot(s.ready, i)
    case InQueue(q, i) => Slot(s.Q(q).list, i)
    case Parked(c) => Slot(s.park, c)
    case Dying(c) => Slot(s.dying, c)
    case Dead(i) => Slot(s.zombies, i)
  }

  ghost predicate Shaped(s: Sys) {
    && NULL !in s.tcb && NULL !in s.queues
    && |s.idle| == |s.park| == |s.dying| == |s.cur|
    && (forall c, d :: 0 <= c < d < |s.idle| ==> s.idle[c] != s.idle[d])
    && (forall c :: 0 <= c < |s.idle| ==> s.idle[c] in s.tcb && s.tcb[s.idle[c]].state == Running && s.tcb[s.idle[c]].waitingOn == NULL)
    && (forall t :: t in s.tcb && s.tcb[t].state == Uninitialised ==> s.tcb[t].waitingOn == NULL)
    && NULL !in s.cur && NULL !in s.ready && NULL !in s.zombies
    && (forall q :: q in s.queues ==> NULL !in s.queues[q].list)
  }

  // What a thread's own fields say at each place.
  ghost predicate Fits(s: Sys, p: Place, t: nat) {
    t in s.tcb && var th := s.tcb[t];
    match p
    case OnCpu(c) =>
      && (t in s.idle ==> t == Slot(s.idle, c) && th.state == Running)
      && (th.state == Running || th.state == Terminated || (th.state == Blocked && Ticketed(s, th)))
      && (th.state == Running ==> th.waitingOn == NULL)
    case InReady(i) => th.state == Ready && th.waitingOn == NULL && t !in s.idle
    case InQueue(q, i) => th.state == Blocked && th.waitingOn == q && th.waitSeq == s.Q(q).tick && t !in s.idle
    case Parked(c) => th.state == Blocked && Ticketed(s, th) && t !in s.idle
    case Dying(c) => th.state == Terminated && t !in s.idle
    case Dead(i) => th.state == Terminated && t !in s.idle
  }

  ghost predicate Ticketed(s: Sys, th: Tcb) {
    th.waitingOn in s.queues && th.waitSeq <= s.queues[th.waitingOn].tick
  }

  ghost predicate OnePlace(s: Sys) {
    forall p, r :: At(s, p) != NULL && At(s, p) == At(s, r) ==> p == r
  }

  ghost predicate AllFit(s: Sys) {
    forall p :: At(s, p) != NULL ==> Fits(s, p, At(s, p))
  }

  ghost predicate Placed(s: Sys, t: nat) {
    exists p :: At(s, p) == t
  }

  // Only threads not started yet, and idle threads, may be nowhere.
  ghost predicate AllPlaced(s: Sys) {
    forall t :: t in s.tcb && s.tcb[t].state != Uninitialised && t !in s.idle ==> Placed(s, t)
  }

  ghost predicate Inv(s: Sys) {
    Shaped(s) && OnePlace(s) && AllFit(s) && AllPlaced(s)
  }

  // ---- every step keeps every thread in one place ----

  // `back` says where the thread now at a place was before; idle threads come from nowhere.
  ghost predicate CameFrom(s: Sys, s': Sys, back: Place -> Place) {
    && (forall p :: At(s', p) != NULL && At(s', p) !in s'.idle ==> At(s, back(p)) == At(s', p))
    && (forall p, r :: (At(s', p) != NULL && At(s', p) !in s'.idle && At(s', r) != NULL && At(s', r) !in s'.idle
                        && back(p) == back(r)) ==> p == r)
  }

  lemma OneIdlePlace(s: Sys, p: Place)
    requires AllFit(s) && Shaped(s) && At(s, p) in s.idle
    ensures p.OnCpu? && p.c < |s.idle| && s.idle[p.c] == At(s, p)
  {
    assert Fits(s, p, At(s, p));
  }

  lemma StillOnePlace(s: Sys, s': Sys, back: Place -> Place)
    requires OnePlace(s) && Shaped(s') && AllFit(s') && CameFrom(s, s', back)
    ensures OnePlace(s')
  {
    forall p, r | At(s', p) != NULL && At(s', p) == At(s', r) ensures p == r {
      if At(s', p) in s'.idle {
        OneIdlePlace(s', p);
        OneIdlePlace(s', r);
      } else {
        assert At(s, back(p)) == At(s, back(r));
      }
    }
  }

  lemma FitAll(s: Sys)
    requires forall p :: At(s, p) != NULL ==> Fits(s, p, At(s, p))
    ensures AllFit(s)
  {
  }

  // `to` says where the threads of s have gone.
  lemma StillAllPlaced(s: Sys, s': Sys, to: Place -> Place)
    requires AllPlaced(s)
    requires s'.idle == s.idle && forall t :: t in s'.tcb && s'.tcb[t].state != Uninitialised && t !in s.idle ==>
                                     Placed(s', t) || (t in s.tcb && s.tcb[t].state != Uninitialised)
    requires forall p :: At(s, p) != NULL && At(s, p) !in s.idle && At(s, p) in s'.tcb ==> At(s', to(p)) == At(s, p)
    requires NULL !in s.tcb
    ensures AllPlaced(s')
  {
    forall t | t in s'.tcb && s'.tcb[t].state != Uninitialised && t !in s'.idle ensures Placed(s', t) {
      if !Placed(s', t) {
        assert Placed(s, t);
        var p :| At(s, p) == t;
        assert At(s', to(p)) == t;
      }
    }
  }

  // -- a pass: the thread parked here --

  predicate Stale(s: Sys, t: nat) {
    var q := s.Th(t).waitingOn;
    q == NULL || s.Q(q).tick != s.Th(t).waitSeq
  }

  function ParkBack(s: Sys, c: nat, p: Place): Place {
    var t := Slot(s.park, c);
    match p
    case InReady(i) => if Stale(s, t) && i == |s.ready| then Parked(c) else p
    case InQueue(q, i) =>
      if Stale(s, t) || q != s.Th(t).waitingOn then p else if i == 0 then Parked(c) else InQueue(q, i - 1)
    case _ => p
  }

  function ParkTo(s: Sys, c: nat, p: Place): Place {
    var t := Slot(s.park, c);
    match p
    case Parked(d) => if d != c then p else if Stale(s, t) then InReady(|s.ready|) else InQueue(s.Th(t).waitingOn, 0)
    case InQueue(q, i) => if Stale(s, t) || q != s.Th(t).waitingOn then p else InQueue(q, i + 1)
    case _ => p
  }

  lemma ParkKeeps(s: Sys, c: nat)
    requires Inv(s) && c < |s.cur|
    ensures Inv(SettlePark(s, c)) && Slot(SettlePark(s, c).park, c) == NULL
  {
    var t := Slot(s.park, c);
    if t != NULL {
      assert At(s, Parked(c)) == t && Fits(s, Parked(c), t);
      assert Slot(SettlePark(s, c).park, c) == NULL;
      hide Shaped, AllFit, AllPlaced, Fits, OnePlace, SettlePark, CameFrom;
      ParkShaped(s, c);
      ParkFits(s, c);
      StillOnePlace(s, SettlePark(s, c), p => ParkBack(s, c, p));
      ParkPlaced(s, c);
    }
  }

  lemma ParkFits(s: Sys, c: nat)
    requires Inv(s) && c < |s.cur| && Slot(s.park, c) != NULL && Fits(s, Parked(c), Slot(s.park, c))
    ensures AllFit(SettlePark(s, c)) && CameFrom(s, SettlePark(s, c), p => ParkBack(s, c, p))
  {
    hide Shaped, AllFit, AllPlaced, Fits, OnePlace, SettlePark;
    var s' := SettlePark(s, c);
    forall p | At(s', p) != NULL ensures At(s', p) == At(s, ParkBack(s, c, p)) && Fits(s', p, At(s', p)) {
      ParkFitsAt(s, c, p);
    }
    ParkApart(s, c);
    FitAll(s');
  }

  lemma ParkApart(s: Sys, c: nat)
    ensures forall p, r :: At(SettlePark(s, c), p) != NULL && At(SettlePark(s, c), r) != NULL
                           && Slot(s.park, c) != NULL && c < |s.park| ==>
              (ParkBack(s, c, p) == ParkBack(s, c, r) ==> p == r)
  {
  }

  lemma ParkPlaced(s: Sys, c: nat)
    requires Inv(s) && c < |s.cur| && Slot(s.park, c) != NULL && Fits(s, Parked(c), Slot(s.park, c))
    ensures AllPlaced(SettlePark(s, c))
  {
    hide AllPlaced, AllFit, OnePlace;
    StillAllPlaced(s, SettlePark(s, c), p => ParkTo(s, c, p));
  }

  lemma ParkShaped(s: Sys, c: nat)
    requires Inv(s) && c < |s.cur| && Slot(s.park, c) != NULL && Fits(s, Parked(c), Slot(s.park, c))
    ensures Shaped(SettlePark(s, c))
  {
    hide AllFit, AllPlaced, OnePlace;
  }

  lemma ParkFitsAt(s: Sys, c: nat, p: Place)
    requires Inv(s) && c < |s.cur| && Slot(s.park, c) != NULL && Fits(s, Parked(c), Slot(s.park, c))
    requires At(SettlePark(s, c), p) != NULL
    ensures var s' := SettlePark(s, c);
            At(s', p) == At(s, ParkBack(s, c, p)) && Fits(s', p, At(s', p))
  {
    hide AllPlaced;
    assert At(s, Parked(c)) == Slot(s.park, c);
    assert Fits(s, ParkBack(s, c, p), At(s, ParkBack(s, c, p)));
  }

  // -- a pass: the thread dying here --

  function ZombieBack(c: nat, p: Place): Place {
    match p
    case Dead(i) => if i == 0 then Dying(c) else Dead(i - 1)
    case _ => p
  }

  function ZombieTo(c: nat, p: Place): Place {
    match p
    case Dying(d) => if d == c then Dead(0) else p
    case Dead(i) => Dead(i + 1)
    case _ => p
  }

  lemma ZombieKeeps(s: Sys, c: nat)
    requires Inv(s) && c < |s.cur|
    ensures Inv(SettleZombie(s, c)) && Slot(SettleZombie(s, c).dying, c) == NULL
  {
    var t := Slot(s.dying, c);
    if t != NULL {
      var s' := SettleZombie(s, c);
      assert s'.dying[c] == NULL && Shaped(s');
      forall p | At(s', p) != NULL ensures At(s', p) == At(s, ZombieBack(c, p)) && Fits(s', p, At(s', p)) {
        ZombieFitsAt(s, c, p);
      }
      hide Shaped, AllFit, AllPlaced, Fits, OnePlace;
      FitAll(s');
      StillOnePlace(s, s', p => ZombieBack(c, p));
      ZombiePlaced(s, c);
    }
  }

  lemma ZombieFitsAt(s: Sys, c: nat, p: Place)
    requires Inv(s) && c < |s.cur| && Slot(s.dying, c) != NULL && At(SettleZombie(s, c), p) != NULL
    ensures var s' := SettleZombie(s, c);
            At(s', p) == At(s, ZombieBack(c, p)) && Fits(s', p, At(s', p))
  {
    assert Fits(s, ZombieBack(c, p), At(s, ZombieBack(c, p)));
  }

  lemma ZombiePlaced(s: Sys, c: nat)
    requires Inv(s) && c < |s.cur| && Slot(s.dying, c) != NULL
    ensures AllPlaced(SettleZombie(s, c))
  {
    hide AllPlaced, AllFit, OnePlace;
    StillAllPlaced(s, SettleZombie(s, c), p => ZombieTo(c, p));
  }

  // -- a pass: from the current thread to the next --

  function Dispatch(s: Sys, c: nat): Sys {
    Switch(Requeue(s, c), c)
  }

  // Who runs next: the head of the ready queue, or else whoever may stay, or else the idle thread.
  function NextUp(s: Sys, c: nat): nat {
    if s.ready != [] then s.ready[0] else if Busy(s, c) then Slot(s.cur, c) else Slot(s.idle, c)
  }

  // A pass that finds somebody else to run, field by field.
  function SwitchTo(s: Sys, c: nat, next: nat): Sys {
    var t := Slot(s.cur, c);
    var busy := Busy(s, c);
    s.(tcb := s.tcb[t := s.Th(t).(state := if busy then Ready else s.Th(t).state)][next := s.Th(next).(state := Running)],
       cur := Fill(s.cur, c, next),
       park := if s.Th(t).state == Blocked then Fill(s.park, c, t) else s.park,
       dying := if s.Th(t).state == Terminated && t != Slot(s.idle, c) then Fill(s.dying, c, t) else s.dying,
       ready := (if s.ready == [] then [] else s.ready[1..]) + (if busy then [t] else []))
  }

  lemma DispatchIs(s: Sys, c: nat)
    requires Inv(s) && c < |s.cur|
    ensures NextUp(s, c) == s.cur[c] ==> Dispatch(s, c) == s
    ensures NextUp(s, c) != s.cur[c] ==> Dispatch(s, c) == SwitchTo(s, c, NextUp(s, c))
    ensures Fits(s, OnCpu(c), s.cur[c])
    ensures s.ready != [] ==> s.ready[0] != s.cur[c] && Fits(s, InReady(0), s.ready[0])
  {
    hide AllPlaced;
    var t := s.cur[c];
    assert At(s, OnCpu(c)) == t && Fits(s, OnCpu(c), t);
    if s.ready != [] {
      assert At(s, InReady(0)) == s.ready[0] && Fits(s, InReady(0), s.ready[0]);
    }
    hide AllFit, OnePlace;
  }

  function SwitchBack(s: Sys, c: nat, p: Place): Place {
    match p
    case OnCpu(d) => if d == c && s.ready != [] then InReady(0) else p
    case InReady(i) => if i + 1 < |s.ready| then InReady(i + 1) else OnCpu(c)
    case Parked(d) => if d == c then OnCpu(c) else p
    case Dying(d) => if d == c then OnCpu(c) else p
    case _ => p
  }

  function SwitchedTo(s: Sys, c: nat, p: Place): Place {
    var state := s.Th(Slot(s.cur, c)).state;
    match p
    case OnCpu(d) =>
      if d != c then p else if state == Blocked then Parked(c) else if state == Terminated then Dying(c)
      else if s.ready == [] then p else InReady(|s.ready| - 1)
    case InReady(i) => if i == 0 then OnCpu(c) else InReady(i - 1)
    case _ => p
  }

  // The CPU is about to change hands, with its two slots free.
  ghost predicate Handing(s: Sys, c: nat, next: nat) {
    && Inv(s) && c < |s.cur| && Slot(s.park, c) == NULL && Slot(s.dying, c) == NULL
    && next == NextUp(s, c) != s.cur[c]
    && Fits(s, OnCpu(c), s.cur[c])
    && (s.ready != [] ==> Fits(s, InReady(0), s.ready[0]))
  }

  lemma DispatchKeeps(s: Sys, c: nat)
    requires Inv(s) && c < |s.cur| && Slot(s.park, c) == NULL && Slot(s.dying, c) == NULL
    ensures Inv(Dispatch(s, c))
  {
    hide OnePlace, AllFit, AllPlaced, Shaped, Dispatch, Fits, CameFrom;
    DispatchIs(s, c);
    var next := NextUp(s, c);
    if next != s.cur[c] {
      var s' := SwitchTo(s, c, next);
      SwitchShaped(s, c, next);
      SwitchFits(s, c, next);
      StillOnePlace(s, s', p => SwitchBack(s, c, p));
      SwitchPlaced(s, c, next);
    }
  }

  lemma SwitchShaped(s: Sys, c: nat, next: nat)
    requires Handing(s, c, next)
    ensures Shaped(SwitchTo(s, c, next))
  {
    hide OnePlace, AllFit, AllPlaced;
    assert s.idle[c] in s.idle;
  }

  lemma SwitchFits(s: Sys, c: nat, next: nat)
    requires Handing(s, c, next)
    ensures AllFit(SwitchTo(s, c, next)) && CameFrom(s, SwitchTo(s, c, next), p => SwitchBack(s, c, p))
  {
    hide OnePlace, AllFit, AllPlaced, Shaped, Fits, SwitchTo, SwitchBack;
    var s' := SwitchTo(s, c, next);
    forall p | At(s', p) != NULL
      ensures Fits(s', p, At(s', p))
      ensures At(s', p) !in s'.idle ==> At(s, SwitchBack(s, c, p)) == At(s', p)
    {
      SwitchFitsAt(s, c, next, p);
    }
    SwitchApart(s, c, next);
    FitAll(s');
  }

  lemma SwitchFitsAt(s: Sys, c: nat, next: nat, p: Place)
    requires Handing(s, c, next) && At(SwitchTo(s, c, next), p) != NULL
    ensures var s' := SwitchTo(s, c, next);
            Fits(s', p, At(s', p)) && (At(s', p) !in s'.idle ==> At(s, SwitchBack(s, c, p)) == At(s', p))
  {
    hide OnePlace, AllFit, AllPlaced;
    if At(s, p) != NULL {
      Elsewhere(s, c, next, p);
    }
    var r := SwitchBack(s, c, p);
    if At(s, r) != NULL {
      Elsewhere(s, c, next, r);
    }
  }

  lemma SwitchApart(s: Sys, c: nat, next: nat)
    requires Handing(s, c, next)
    ensures var s' := SwitchTo(s, c, next);
            forall p, r :: (At(s', p) != NULL && At(s', p) !in s'.idle && At(s', r) != NULL && At(s', r) !in s'.idle
                            && SwitchBack(s, c, p) == SwitchBack(s, c, r)) ==> p == r
  {
    hide OnePlace, AllFit, AllPlaced;
    assert Slot(s.idle, c) in s.idle;
  }

  lemma SwitchPlaced(s: Sys, c: nat, next: nat)
    requires Handing(s, c, next)
    ensures AllPlaced(SwitchTo(s, c, next))
  {
    hide OnePlace, AllFit, AllPlaced, SwitchedTo, SwitchTo;
    var s' := SwitchTo(s, c, next);
    forall p | At(s, p) != NULL && At(s, p) !in s.idle ensures At(s', SwitchedTo(s, c, p)) == At(s, p) {
      SwitchGoes(s, c, next, p);
    }
    SwitchStarted(s, c, next);
    StillAllPlaced(s, s', p => SwitchedTo(s, c, p));
  }

  lemma SwitchGoes(s: Sys, c: nat, next: nat, p: Place)
    requires Handing(s, c, next) && At(s, p) != NULL && At(s, p) !in s.idle
    ensures At(SwitchTo(s, c, next), SwitchedTo(s, c, p)) == At(s, p)
  {
    hide OnePlace, AllFit, AllPlaced;
  }

  lemma SwitchStarted(s: Sys, c: nat, next: nat)
    requires Handing(s, c, next)
    ensures var s' := SwitchTo(s, c, next);
            s'.idle == s.idle && s'.tcb.Keys == s.tcb.Keys
            && forall t :: t in s'.tcb && s'.tcb[t].state != Uninitialised ==> s.tcb[t].state != Uninitialised
  {
    hide OnePlace, AllFit, AllPlaced;
    assert Slot(s.idle, c) in s.idle;
  }

  // A place that is not involved holds another thread, and it fits there.
  lemma Elsewhere(s: Sys, c: nat, next: nat, p: Place)
    requires Handing(s, c, next) && At(s, p) != NULL
    ensures Fits(s, p, At(s, p))
    ensures p != OnCpu(c) ==> At(s, p) != s.cur[c]
    ensures p != OnCpu(c) && p != InReady(0) ==> At(s, p) != next
  {
    assert At(s, OnCpu(c)) == s.cur[c];
    assert s.ready != [] ==> At(s, InReady(0)) == s.ready[0];
  }

  lemma PassKeeps(s: Sys, c: nat)
    requires Inv(s) && c < |s.cur|
    ensures Inv(Schedule(s, c))
  {
    ParkKeeps(s, c);
    ZombieKeeps(SettlePark(s, c), c);
    DispatchKeeps(SettleZombie(SettlePark(s, c), c), c);
  }

  // -- wake-up --

  function WakeBack(s: Sys, q: nat, p: Place): Place {
    match p
    case InReady(i) => if i < |s.ready| then p else InQueue(q, i - |s.ready|)
    case _ => p
  }

  function WakeTo(s: Sys, q: nat, p: Place): Place {
    match p
    case InQueue(r, i) => if r == q then InReady(|s.ready| + i) else p
    case _ => p
  }

  lemma WakeKeeps(s: Sys, q: nat)
    requires Inv(s) && q in s.queues
    ensures Inv(WakeAll(s, q))
  {
    hide AllFit, AllPlaced, OnePlace, Fits, WakeAll;
    var s' := WakeAll(s, q);
    WakeShaped(s, q);
    forall p | At(s', p) != NULL ensures At(s', p) == At(s, WakeBack(s, q, p)) && Fits(s', p, At(s', p)) {
      WakeFitsAt(s, q, p);
    }
    FitAll(s');
    WakeApart(s, q);
    StillOnePlace(s, s', p => WakeBack(s, q, p));
    WakePlaced(s, q);
  }

  lemma WakeApart(s: Sys, q: nat)
    ensures forall p, r :: At(WakeAll(s, q), p) != NULL && At(WakeAll(s, q), r) != NULL ==>
              (WakeBack(s, q, p) == WakeBack(s, q, r) ==> p == r)
  {
  }

  lemma Woken(s: Sys, q: nat, t: nat)
    requires AllFit(s) && Shaped(s) && q in s.queues && t in s.queues[q].list
    ensures t in s.tcb && s.tcb[t].state == Blocked && t !in s.idle
  {
    var i :| 0 <= i < |s.queues[q].list| && s.queues[q].list[i] == t;
    assert At(s, InQueue(q, i)) == t && Fits(s, InQueue(q, i), t);
  }

  lemma WakeShaped(s: Sys, q: nat)
    requires Inv(s) && q in s.queues
    ensures Shaped(WakeAll(s, q))
    ensures forall t :: t in s.queues[q].list ==> t in s.tcb && s.tcb[t].state == Blocked && t !in s.idle
  {
    hide AllFit, AllPlaced, OnePlace;
    forall t | t in s.queues[q].list ensures t in s.tcb && s.tcb[t].state == Blocked && t !in s.idle {
      Woken(s, q, t);
    }
  }

  lemma WakeFitsAt(s: Sys, q: nat, p: Place)
    requires Inv(s) && q in s.queues && At(WakeAll(s, q), p) != NULL
    ensures var s' := WakeAll(s, q);
            At(s', p) == At(s, WakeBack(s, q, p)) && Fits(s', p, At(s', p))
  {
    hide AllPlaced;
    var s' := WakeAll(s, q);
    var r := WakeBack(s, q, p);
    assert Fits(s, r, At(s, r));
    if At(s', p) in s.queues[q].list {
      var i :| 0 <= i < |s.queues[q].list| && s.queues[q].list[i] == At(s', p);
      assert At(s, InQueue(q, i)) == At(s, r);
    }
  }

  lemma WakePlaced(s: Sys, q: nat)
    requires Inv(s) && q in s.queues
    ensures AllPlaced(WakeAll(s, q))
  {
    WakeShaped(s, q);
    hide AllFit, AllPlaced, OnePlace;
    StillAllPlaced(s, WakeAll(s, q), p => WakeTo(s, q, p));
  }

  // -- the rest --

  lemma CollectKeeps(s: Sys)
    requires Inv(s)
    ensures Inv(Reap(s))
  {
    var s' := Reap(s);
    forall p | At(s', p) != NULL ensures At(s', p) == At(s, p) && Fits(s', p, At(s', p)) {
      assert Fits(s, p, At(s, p));
      NotDead(s, p);
    }
    forall c | 0 <= c < |s.idle| ensures s.idle[c] in s'.tcb {
      NotZombie(s, s.idle[c]);
    }
    StillOnePlace(s, s', p => p);
    StillAllPlaced(s, s', p => p);
  }

  lemma NotDead(s: Sys, p: Place)
    requires OnePlace(s) && At(s, p) != NULL && !p.Dead?
    ensures At(s, p) !in s.zombies
  {
    forall i | 0 <= i < |s.zombies| ensures s.zombies[i] != At(s, p) {
      assert At(s, Dead(i)) == s.zombies[i];
    }
  }

  lemma NotZombie(s: Sys, t: nat)
    requires AllFit(s) && t in s.idle && t != NULL
    ensures t !in s.zombies
  {
    forall i | 0 <= i < |s.zombies| ensures s.zombies[i] != t {
      assert At(s, Dead(i)) == s.zombies[i];
    }
  }

  lemma StartKeeps(s: Sys, t: nat)
    requires Inv(s) && t in s.tcb && s.tcb[t].state == Uninitialised
    ensures Inv(Enqueue(s, t))
  {
    var s' := Enqueue(s, t);
    var at := InReady(|s.ready|);
    forall p ensures At(s', p) == (if p == at then t else At(s, p)) && At(s, p) != t {
      assert At(s, p) != NULL ==> Fits(s, p, At(s, p));
    }
    forall p | At(s', p) != NULL ensures Fits(s', p, At(s', p)) {
      assert p != at ==> Fits(s, p, At(s, p));
    }
    assert At(s', at) == t;
    StillAllPlaced(s, s', p => p);
  }

  lemma CreateKeeps(s: Sys, t: nat)
    requires Inv(s) && t != NULL && t !in s.tcb
    ensures Inv(Next(s, Create(t)))
  {
    var s' := Next(s, Create(t));
    forall p ensures At(s', p) == At(s, p) && (At(s, p) != NULL ==> Fits(s', p, At(s', p))) {
      assert At(s, p) != NULL ==> Fits(s, p, At(s, p));
    }
    StillAllPlaced(s, s', p => p);
  }

  // The thread on a CPU may write its own fields.
  lemma OwnFieldsKeep(s: Sys, c: nat, th: Tcb)
    requires Inv(s) && c < |s.cur|
    requires s.cur[c] in s.idle ==> th.state == Running
    requires th.state == Running || th.state == Terminated || (th.state == Blocked && Ticketed(s, th))
    requires th.state == Running ==> th.waitingOn == NULL
    ensures Inv(s.With(s.cur[c], th))
  {
    var t := s.cur[c];
    var s' := s.With(t, th);
    assert At(s, OnCpu(c)) == t && Fits(s, OnCpu(c), t);
    forall p ensures At(s', p) == At(s, p) && (At(s, p) != NULL ==> Fits(s', p, At(s', p))) {
      assert At(s, p) == t ==> p == OnCpu(c);
      assert At(s, p) != NULL ==> Fits(s, p, At(s, p));
    }
    StillAllPlaced(s, s', p => p);
  }

  // In every reachable state each thread is in one place, and its fields say so.
  lemma StepKeeps(s: Sys, step: Step)
    requires Inv(s) && Enabled(s, step)
    ensures Inv(Next(s, step))
  {
    match step
    case Create(t) => CreateKeeps(s, t);
    case Start(t) => StartKeeps(s, t);
    case Pass(c) => PassKeeps(s, c);
    case Wake(q) => WakeKeeps(s, q);
    case Collect => CollectKeeps(s);
    case Block(c, q, ticket) =>
      assert At(s, OnCpu(c)) == s.cur[c] && Fits(s, OnCpu(c), s.cur[c]);
      OwnFieldsKeep(s, c, Tcb(Blocked, q, ticket));
    case Unblock(c) => OwnFieldsKeep(s, c, s.Th(s.cur[c]).(waitingOn := NULL, state := Running));
    case Exit(c) =>
      assert At(s, OnCpu(c)) == s.cur[c] && Fits(s, OnCpu(c), s.cur[c]);
      OwnFieldsKeep(s, c, s.Th(s.cur[c]).(state := Terminated));
  }

  // ---- whole runs ----

  function Run(s: Sys, steps: seq<Step>): Sys
    decreases |steps|
  {
    if steps == [] then s else Run(Next(s, steps[0]), steps[1..])
  }

  ghost predicate Legal(s: Sys, steps: seq<Step>)
    decreases |steps|
  {
    steps == [] || (Enabled(s, steps[0]) && Legal(Next(s, steps[0]), steps[1..]))
  }

  // Every CPU runs its idle thread; there is nothing else.
  function Boot(idle: seq<nat>, queues: set<nat>): Sys {
    Sys(map t | t in idle :: Tcb(Running, NULL, 0), idle, idle, seq(|idle|, i => NULL), seq(|idle|, i => NULL),
        [], [], map q | q in queues :: Queue([], 0))
  }

  lemma {:induction false} RunKeeps(s: Sys, steps: seq<Step>)
    requires Inv(s) && Legal(s, steps)
    ensures Inv(Run(s, steps))
    decreases |steps|
  {
    if steps != [] {
      StepKeeps(s, steps[0]);
      RunKeeps(Next(s, steps[0]), steps[1..]);
    }
  }

  // Idle threads are threads, one for each CPU, and queues have addresses.
  ghost predicate Bootable(idle: seq<nat>, queues: set<nat>) {
    NULL !in idle && NULL !in queues && forall c, d :: 0 <= c < d < |idle| ==> idle[c] != idle[d]
  }

  lemma BootKeeps(idle: seq<nat>, queues: set<nat>)
    requires Bootable(idle, queues)
    ensures Inv(Boot(idle, queues))
  {
    var s := Boot(idle, queues);
    forall p | At(s, p) != NULL ensures p.OnCpu? && p.c < |idle| && idle[p.c] == At(s, p) {
    }
  }

  // Thread placement: in every reachable state each started thread that is no idle thread is in
  // exactly one place, so no two lists share a link and no thread runs on two CPUs.
  lemma ThreadPlacement(idle: seq<nat>, queues: set<nat>, steps: seq<Step>, t: nat)
    requires Bootable(idle, queues)
    requires Legal(Boot(idle, queues), steps)
    ensures var s := Run(Boot(idle, queues), steps);
            && (t in s.tcb && s.tcb[t].state != Uninitialised && t !in s.idle ==> exists p :: At(s, p) == t)
            && (t != NULL ==> forall p, r :: At(s, p) == t && At(s, r) == t ==> p == r)
            && (t != NULL ==> forall p :: At(s, p) == t ==> t in s.tcb && s.tcb[t].state != Uninitialised)
  {
    var s0 := Boot(idle, queues);
    BootKeeps(idle, queues);
    RunKeeps(s0, steps);
    var s := Run(s0, steps);
    if t in s.tcb && s.tcb[t].state != Uninitialised && t !in s.idle {
      assert Placed(s, t);
    }
    forall p | At(s, p) == t && t != NULL ensures t in s.tcb && s.tcb[t].state != Uninitialised {
      assert Fits(s, p, t);
    }
  }

  // -- no wake-up is lost --

  // t sleeps on q, in its list or still in a slot of its CPU, and has not been woken since.
  predicate AsleepOn(s: Sys, t: nat, q: nat) {
    && t in s.tcb && s.tcb[t].state == Blocked && s.tcb[t].waitingOn == q
    && q in s.queues && s.tcb[t].waitSeq == s.queues[q].tick
  }

  // Whoever sleeps in a queue's list went to sleep after the queue's last wake-up.
  lemma SleepersAreCurrent(s: Sys, q: nat, i: nat)
    requires Inv(s) && q in s.queues && i < |s.queues[q].list|
    ensures AsleepOn(s, s.queues[q].list[i], q)
  {
    assert Fits(s, InQueue(q, i), At(s, InQueue(q, i)));
  }

  predicate PassOn(step: Step, c: nat) {
    step.Pass? && step.c == c
  }

  // A pass with the CPU's two slots emptied first.
  function Settled(s: Sys, c: nat): Sys {
    SettleZombie(SettlePark(s, c), c)
  }

  lemma PassIs(s: Sys, c: nat)
    requires Inv(s) && c < |s.cur|
    ensures var s1 := Settled(s, c);
            && Inv(s1) && Slot(s1.park, c) == NULL && Slot(s1.dying, c) == NULL && s1.cur == s.cur && s1.idle == s.idle
            && Schedule(s, c) == if NextUp(s1, c) == s1.cur[c] then s1 else SwitchTo(s1, c, NextUp(s1, c))
  {
    ParkKeeps(s, c);
    ZombieKeeps(SettlePark(s, c), c);
    DispatchIs(Settled(s, c), c);
  }

  lemma TicksGrow(s: Sys, step: Step, q: nat)
    requires q in s.queues
    ensures q in Next(s, step).queues && s.queues[q].tick <= Next(s, step).queues[q].tick
  {
    hide Schedule;
    if step.Pass? {
      PassTicks(s, step.c, q);
    }
  }

  lemma PassTicks(s: Sys, c: nat, q: nat)
    requires q in s.queues
    ensures q in Schedule(s, c).queues && s.queues[q].tick == Schedule(s, c).queues[q].tick
  {
    hide SettlePark, SettleZombie, Requeue, Switch;
    var s1 := SettlePark(s, c);
    assert q in s1.queues && s1.queues[q].tick == s.queues[q].tick by {
      SettledTicks(s, c, q);
    }
    DispatchQueues(s1, c);
    DispatchQueues(SettleZombie(s1, c), c);
    DispatchQueues(Requeue(SettleZombie(s1, c), c), c);
  }

  lemma SettledTicks(s: Sys, c: nat, q: nat)
    requires q in s.queues
    ensures q in SettlePark(s, c).queues && s.queues[q].tick == SettlePark(s, c).queues[q].tick
  {
  }

  lemma DispatchQueues(s: Sys, c: nat)
    ensures SettleZombie(s, c).queues == s.queues && Requeue(s, c).queues == s.queues && Switch(s, c).queues == s.queues
  {
  }

  // One of the three slots of CPU c.
  predicate SlotOf(p: Place, c: nat) {
    p == OnCpu(c) || p == Parked(c) || p == Dying(c)
  }

  // A step of CPU c itself.
  predicate Own(step: Step, c: nat) {
    (step.Pass? || step.Block? || step.Unblock? || step.Exit?) && step.c == c
  }

  // A thread in a CPU's slots is left alone by everybody else.
  lemma SlotStays(s: Sys, step: Step, c: nat, p: Place)
    requires Inv(s) && Enabled(s, step) && c < |s.cur| && SlotOf(p, c) && At(s, p) != NULL
    requires !Own(step, c) || (p != OnCpu(c) && !step.Pass?)
    ensures var t, s' := At(s, p), Next(s, step);
            && |s'.cur| == |s.cur| && At(s', p) == t
            && t in s.tcb && t in s'.tcb && s'.tcb[t] == s.tcb[t] && Fits(s, p, t)
  {
    var t := At(s, p);
    assert Fits(s, p, t);
    match step
    case Pass(d) => SlotStaysPass(s, d, c, p);
    case Wake(q) =>
      assert forall i :: 0 <= i < |s.Q(q).list| ==> s.Q(q).list[i] == At(s, InQueue(q, i));
    case Collect => NotDead(s, p);
    case Create(u) =>
    case Start(u) =>
    case Block(d, q, n) => assert At(s, OnCpu(d)) == Slot(s.cur, d);
    case Unblock(d) => assert At(s, OnCpu(d)) == Slot(s.cur, d);
    case Exit(d) => assert At(s, OnCpu(d)) == Slot(s.cur, d);
  }

  lemma SlotStaysPass(s: Sys, d: nat, c: nat, p: Place)
    requires Inv(s) && d < |s.cur| && c < |s.cur| && d != c && SlotOf(p, c) && At(s, p) != NULL
    ensures var t, s' := At(s, p), Schedule(s, d);
            && |s'.cur| == |s.cur| && At(s', p) == t && t in s.tcb && t in s'.tcb && s'.tcb[t] == s.tcb[t]
  {
    hide AllPlaced, Settled, Schedule;
    SlotStaysSettled(s, d, c, p);
    PassIs(s, d);
    var s1 := Settled(s, d);
    assert Fits(s1, p, At(s, p));
    assert At(s1, OnCpu(d)) == s1.cur[d] && At(s1, InReady(0)) == Slot(s1.ready, 0);
    assert NextUp(s1, d) in s1.idle || NextUp(s1, d) == Slot(s1.ready, 0) || NextUp(s1, d) == s1.cur[d];
    hide AllFit, OnePlace;
  }

  lemma SlotStaysSettled(s: Sys, d: nat, c: nat, p: Place)
    requires Inv(s) && d < |s.cur| && c < |s.cur| && d != c && SlotOf(p, c) && At(s, p) != NULL
    ensures var t, s' := At(s, p), Settled(s, d);
            At(s', p) == t && t in s.tcb && t in s'.tcb && s'.tcb[t] == s.tcb[t]
  {
    hide AllPlaced;
    assert Fits(s, p, At(s, p));
    assert At(s, Parked(d)) == Slot(s.park, d);
    hide AllFit, OnePlace, Shaped;
  }

  // A wake-up reaches every sleeper of its queue: those in the list are runnable at once, and those
  // still in a slot of their CPU are late from now on.
  lemma WakeReaches(s: Sys, q: nat, p: Place)
    requires Inv(s) && q in s.queues && At(s, p) != NULL
    requires s.Th(At(s, p)).state == Blocked && s.Th(At(s, p)).waitingOn == q
    ensures var t, s' := At(s, p), Next(s, Wake(q));
            if p.InQueue? then t in s'.ready else (p.OnCpu? || p.Parked?) && At(s', p) == t && Late(s', t)
  {
    assert Fits(s, p, At(s, p));
    if !p.InQueue? {
      SlotStays(s, Wake(q), p.c, p);
    }
  }

  // The queue's counter has moved past the thread's ticket.
  predicate Late(s: Sys, t: nat) {
    var th := s.Th(t);
    th.waitingOn in s.queues && th.waitSeq < s.queues[th.waitingOn].tick
  }

  lemma LatePassWakes(s: Sys, c: nat)
    requires Inv(s) && c < |s.cur| && Slot(s.park, c) != NULL && Late(s, Slot(s.park, c))
    ensures var s' := Schedule(s, c);
            Slot(s.park, c) in s'.ready || Slot(s'.cur, c) == Slot(s.park, c)
  {
    var t := Slot(s.park, c);
    var s1 := Settled(s, c);
    assert s1.ready[|s.ready|] == t;
    PassIs(s, c);
    hide Inv, SettlePark, SettleZombie, Settled, Schedule;
    if NextUp(s1, c) != s1.cur[c] && |s.ready| > 0 {
      assert t in s1.ready[1..] by {
        assert s1.ready[1..][|s.ready| - 1] == t;
      }
    }
  }

  predicate Awake(s: Sys, t: nat) {
    t in s.ready || t in s.cur
  }

  function PassesOn(steps: seq<Step>, c: nat): nat {
    if steps == [] then 0 else (if PassOn(steps[0], c) then 1 else 0) + PassesOn(steps[1..], c)
  }

  lemma RunFirst(s: Sys, steps: seq<Step>, n: nat)
    requires 0 < n <= |steps|
    ensures Run(s, steps[..n]) == Run(Next(s, steps[0]), steps[1..][..n - 1])
  {
    hide Next;
    assert steps[..n][1..] == steps[1..][..n - 1];
  }

  // The number of steps up to and including the next pass of CPU c.
  function UntilPassOn(steps: seq<Step>, c: nat): (n: nat)
    ensures n <= |steps|
  {
    if steps == [] then 0 else if PassOn(steps[0], c) then 1 else 1 + UntilPassOn(steps[1..], c)
  }

  // No wake-up is lost: a thread that went to sleep on a ticket its queue has moved past is
  // runnable after the next pass of the CPU it slept on.
  lemma {:induction false} NoLostWakeUp(s: Sys, steps: seq<Step>, c: nat, t: nat)
    requires Inv(s) && Legal(s, steps) && c < |s.cur| && t != NULL && Slot(s.park, c) == t && Late(s, t)
    requires PassesOn(steps, c) > 0
    ensures Awake(Run(s, steps[..UntilPassOn(steps, c)]), t)
    decreases |steps|
  {
    var s' := Next(s, steps[0]);
    RunFirst(s, steps, UntilPassOn(steps, c));
    if PassOn(steps[0], c) {
      LatePassWakes(s, c);
      assert Run(s', []) == s';
    } else {
      StepKeeps(s, steps[0]);
      SlotStays(s, steps[0], c, Parked(c));
      TicksGrow(s, steps[0], s.tcb[t].waitingOn);
      hide Inv, Enabled, Next;
      NoLostWakeUp(s', steps[1..], c, t);
    }
  }

  // -- the ready queue is served in order --

  function Passes(steps: seq<Step>): nat {
    if steps == [] then 0 else (if steps[0].Pass? then 1 else 0) + Passes(steps[1..])
  }

  // Only passes take from the ready queue, one at a time from its head.
  lemma ReadyMoves(s: Sys, step: Step, k: nat)
    requires Inv(s) && Enabled(s, step) && k < |s.ready|
    ensures var s' := Next(s, step);
            if !step.Pass? then k < |s'.ready| && s'.ready[k] == s.ready[k]
            else if k == 0 then Slot(s'.cur, step.c) == s.ready[0]
            else k - 1 < |s'.ready| && s'.ready[k - 1] == s.ready[k]
  {
    if step.Pass? {
      var c := step.c;
      assert s.ready <= Settled(s, c).ready;
      PassIs(s, c);
      hide Inv, SettlePark, SettleZombie, Settled, Schedule;
    }
  }

  // The number of steps up to and including the k-th pass.
  function UntilPass(steps: seq<Step>, k: nat): (n: nat)
    ensures n <= |steps|
  {
    if steps == [] || k == 0 then 0 else 1 + UntilPass(steps[1..], if steps[0].Pass? then k - 1 else k)
  }

  // Bounded dispatch: whatever else happens, the thread at position k of the ready queue runs
  // as of the (k + 1)st pass, counted over all CPUs, on the CPU of that pass.
  lemma {:induction false} BoundedDispatch(s: Sys, steps: seq<Step>, k: nat)
    requires Inv(s) && Legal(s, steps) && k < |s.ready| && Passes(steps) > k
    ensures var n := UntilPass(steps, k + 1);
            n > 0 && steps[n - 1].Pass? && Slot(Run(s, steps[..n]).cur, steps[n - 1].c) == s.ready[k]
    decreases |steps|
  {
    hide Inv, Next, Enabled;
    var s' := Next(s, steps[0]);
    RunFirst(s, steps, UntilPass(steps, k + 1));
    StepKeeps(s, steps[0]);
    ReadyMoves(s, steps[0], k);
    if steps[0].Pass? && k == 0 {
      assert Run(s', []) == s';
    } else {
      hide Run;
      BoundedDispatch(s', steps[1..], if steps[0].Pass? then k - 1 else k);
    }
  }

  // -- threads are freed late, and once --

  // How many passes of its CPU a dying thread still waits for before the reaper may have it.
  ghost predicate Doomed(s: Sys, c: nat, t: nat, need: nat) {
    match need
    case 2 => At(s, OnCpu(c)) == t && s.Th(t).state == Terminated
    case 1 => At(s, Dying(c)) == t
    case _ => need == 0
  }

  lemma DoomedStep(s: Sys, step: Step, c: nat, t: nat, need: nat)
    requires Inv(s) && Enabled(s, step) && t != NULL && c < |s.cur| && 0 < need && Doomed(s, c, t, need)
    ensures |Next(s, step).cur| == |s.cur|
    ensures Doomed(Next(s, step), c, t, if PassOn(step, c) then need - 1 else need)
  {
    hide OnePlace, AllFit, AllPlaced, Schedule, WakeAll, Reap;
    if PassOn(step, c) {
      if need == 2 {
        DoomedPass(s, c, t);
      } else {
        PassIs(s, c);
      }
    } else {
      SlotStays(s, step, c, if need == 2 then OnCpu(c) else Dying(c));
    }
  }

  lemma DoomedPass(s: Sys, c: nat, t: nat)
    requires Inv(s) && t != NULL && c < |s.cur| && Doomed(s, c, t, 2)
    ensures |Schedule(s, c).cur| == |s.cur| && Slot(Schedule(s, c).dying, c) == t
  {
    hide AllPlaced, Schedule;
    assert Fits(s, OnCpu(c), t);
    assert At(s, Parked(c)) == Slot(s.park, c);
    var s1 := Settled(s, c);
    assert s1.Th(t).state == Terminated;
    PassIs(s, c);
    assert Fits(s1, OnCpu(c), t);
    assert At(s1, InReady(0)) == Slot(s1.ready, 0);
    assert Slot(s1.idle, c) in s1.idle;
    hide AllFit, OnePlace, Settled;
  }

  // The reaper has freed a thread that exited only when the CPU it exited on has been through two
  // passes: the one that switched away from it, and a later one that runs on another stack.
  lemma {:induction false} FreedAfterLaterPass(s: Sys, steps: seq<Step>, c: nat, t: nat, need: nat)
    requires Inv(s) && Legal(s, steps) && t != NULL && c < |s.cur| && Doomed(s, c, t, need)
    requires t !in Run(s, steps).tcb
    ensures PassesOn(steps, c) >= need
    decreases |steps|
  {
    if need > 0 {
      var p: Place := if need == 2 then OnCpu(c) else Dying(c);
      assert Fits(s, p, t);
      StepKeeps(s, steps[0]);
      DoomedStep(s, steps[0], c, t, need);
      FreedAfterLaterPass(Next(s, steps[0]), steps[1..], c, t, if PassOn(steps[0], c) then need - 1 else need);
    }
  }

  // -- the same over whole runs --

  // A state some run from boot arrives at.
  ghost predicate Reachable(s: Sys) {
    exists idle, queues, steps :: Bootable(idle, queues) && Legal(Boot(idle, queues), steps) && s == Run(Boot(idle, queues), steps)
  }

  lemma ReachableInv(s: Sys)
    requires Reachable(s)
    ensures Inv(s)
  {
    var idle, queues, steps :| Bootable(idle, queues) && Legal(Boot(idle, queues), steps) && s == Run(Boot(idle, queues), steps);
    BootKeeps(idle, queues);
    RunKeeps(Boot(idle, queues), steps);
  }

  lemma SleepersInAnyRun(s: Sys, q: nat, i: nat)
    requires Reachable(s) && q in s.queues && i < |s.queues[q].list|
    ensures AsleepOn(s, s.queues[q].list[i], q)
  {
    ReachableInv(s);
    SleepersAreCurrent(s, q, i);
  }

  lemma WakeUpInAnyRun(s: Sys, steps: seq<Step>, c: nat, t: nat)
    requires Reachable(s) && Legal(s, steps) && c < |s.cur| && t != NULL && Slot(s.park, c) == t && Late(s, t)
    requires PassesOn(steps, c) > 0
    ensures Awake(Run(s, steps[..UntilPassOn(steps, c)]), t)
  {
    ReachableInv(s);
    NoLostWakeUp(s, steps, c, t);
  }

  lemma DispatchInAnyRun(s: Sys, steps: seq<Step>, k: nat)
    requires Reachable(s) && Legal(s, steps) && k < |s.ready| && Passes(steps) > k
    ensures var n := UntilPass(steps, k + 1);
            n > 0 && steps[n - 1].Pass? && Slot(Run(s, steps[..n]).cur, steps[n - 1].c) == s.ready[k]
  {
    ReachableInv(s);
    BoundedDispatch(s, steps, k);
  }

  lemma FreedInAnyRun(s: Sys, steps: seq<Step>, c: nat, t: nat, need: nat)
    requires Reachable(s) && Legal(s, steps) && t != NULL && c < |s.cur| && Doomed(s, c, t, need)
    requires t !in Run(s, steps).tcb
    ensures PassesOn(steps, c) >= need
  {
    ReachableInv(s);
    FreedAfterLaterPass(s, steps, c, t, need);
  }
}
