/** wait4 over whole runs: processes exit, are adopted and waited for while threads take tickets,
    sleep and are woken. Two locks: process_lock, held from a change of the process list until
    the queues it concerns have been woken, and the scheduler's. */
module Wait4 {
  import opened Threads
  import opened Processes
  import Handshake

  // The process list, and what has become of everybody who ever exited.
  // `taken` are the pids of processes in the making, with their parents' pids.
  datatype Book = Book(procs: seq<Proc>, next: nat, taken: map<nat, nat>,
                       exited: map<nat, int>, reaped: seq<(nat, int)>, dropped: set<nat>)

  function Pids(ps: seq<Proc>): set<nat> {
    set p | p in ps :: p.pid
  }

  function Reaped(b: Book): set<nat> {
    set r | r in b.reaped :: r.0
  }

  // The queue of a process's children is named by its pid.
  predicate DeadChild(b: Book, parent: nat, want: int) {
    Reapable(b.procs, parent, want)
  }

  type World = Handshake.World<Book>

  datatype Event =
    | Cpu(step: Threads.Step)
    | Snapshot(c: nat, parent: nat, want: int)   // wait4 takes a ticket
    | NoneDead(c: nat)                           // its process_wait_child returns 0
    | Reap(parent: nat, want: int)               // process_wait_child returns a pid
    | NewPid(ppid: nat)                          // next_pid++, for a child of ppid or of nobody
    | Link(pid: nat)                             // process_register
    | Exit(pid: nat, status: int)                // process_terminate, up to its wake-ups
    | Tell(q: nat)                               // scheduler_wake_all from process_terminate

  function ReapedBook(b: Book, parent: nat, want: int): Book {
    var i := FirstZombie(b.procs, parent, want);
    if i == |b.procs| then b
    else b.(procs := Without(b.procs, b.procs[i].pid), reaped := b.reaped + [(b.procs[i].pid, b.procs[i].status)])
  }

  function TakenBook(b: Book, ppid: nat): Book {
    b.(next := b.next + 1, taken := b.taken[b.next := ppid])
  }

  function LinkedBook(b: Book, pid: nat): Book {
    if pid in b.taken then b.(procs := Registered(b.procs, pid, b.taken[pid]), taken := b.taken - {pid}) else b
  }

  // Whoever is no longer listed has been freed.
  function ExitBook(b: Book, pid: nat, status: int): Book {
    var ps := AfterExit(b.procs, pid, status);
    b.(procs := ps, exited := b.exited[pid := status], dropped := b.dropped + (Pids(b.procs) - Pids(ps)))
  }

  function AsStep(s: World, e: Event): Handshake.Step<Book> {
    match e
    case Cpu(st) => Handshake.Sched(st)
    case Snapshot(c, parent, want) => Handshake.TakeTicket(c, parent, want)
    case NoneDead(c) => Handshake.Look(c)
    case Reap(parent, want) => Handshake.Change(ReapedBook(s.data, parent, want), multiset{})
    case NewPid(ppid) => Handshake.Change(TakenBook(s.data, ppid), multiset{})
    case Link(pid) => Handshake.Change(LinkedBook(s.data, pid), multiset{})
    case Exit(pid, status) => Handshake.Change(ExitBook(s.data, pid, status), multiset(Told(s.data.procs, pid)))
    case Tell(q) => Handshake.Notify(q)
  }

  // process_lock is free while nobody is owed a wake-up.
  predicate LockFree(s: World) {
    s.owed == multiset{}
  }

  ghost predicate Possible(s: World, e: Event) {
    match e
    case Reap(parent, want) => LockFree(s)
    case NewPid(ppid) => LockFree(s) && (ppid == 0 || Alive(s.data.procs, ppid))
    // A parent makes its child itself, so it is alive until it has.
    case Link(pid) => LockFree(s) && pid in s.data.taken && (s.data.taken[pid] == 0 || Alive(s.data.procs, s.data.taken[pid]))
    case Exit(pid, status) => LockFree(s) && Alive(s.data.procs, pid)
    case NoneDead(c) => LockFree(s) && Handshake.Enabled(DeadChild, s, AsStep(s, e))
    case _ => Handshake.Enabled(DeadChild, s, AsStep(s, e))
  }

  ghost predicate PossibleRun(s: World, es: seq<Event>)
    decreases |es|
  {
    es == [] || (Possible(s, es[0]) && PossibleRun(Handshake.Next(s, AsStep(s, es[0])), es[1..]))
  }

  function After(s: World, es: seq<Event>): World
    decreases |es|
  {
    if es == [] then s else After(Handshake.Next(s, AsStep(s, es[0])), es[1..])
  }

  // ---- the book is kept ----

  function Zombies(ps: seq<Proc>): set<nat> {
    set p | p in ps && p.zombie :: p.pid
  }

  // Of those who exited, each is a zombie still, or was reaped, or was dropped, and only one of these.
  ghost predicate Partition(all: set<nat>, a: set<nat>, b: set<nat>, c: set<nat>) {
    all == a + b + c && a !! b && a !! c && b !! c
  }

  // Each pid was reaped once, with the status it exited with.
  ghost predicate Delivered(b: Book) {
    && (forall i, j :: 0 <= i < j < |b.reaped| ==> b.reaped[i].0 != b.reaped[j].0)
    && (forall i :: 0 <= i < |b.reaped| ==> b.reaped[i].0 in b.exited && b.reaped[i].1 == b.exited[b.reaped[i].0])
  }

  ghost predicate Statuses(b: Book) {
    forall p :: p in b.procs ==> (p.zombie <==> p.pid in b.exited) && (p.zombie ==> b.exited[p.pid] == p.status)
  }

  ghost predicate Fresh(b: Book) {
    && (forall pid :: pid in b.taken ==> b.taken[pid] < pid < b.next && !Listed(b.procs, pid) && pid !in b.exited)
    && (forall pid :: pid in b.exited ==> pid < b.next)
  }

  ghost predicate Kept(b: Book) {
    && Processes.Inv(b.procs, b.next) && Fresh(b) && Statuses(b) && Delivered(b)
    && Partition(b.exited.Keys, Zombies(b.procs), Reaped(b), b.dropped)
  }

  lemma NewPidKeeps(b: Book, ppid: nat)
    requires Kept(b) && b.next > 0 && (ppid == 0 || Alive(b.procs, ppid))
    ensures Kept(TakenBook(b, ppid))
  {
    var b' := TakenBook(b, ppid);
    forall p | p in b.procs ensures Processes.Fits(b.procs, b'.next, p) && p.pid < b.next {
      assert Processes.Fits(b.procs, b.next, p);
    }
  }

  lemma LinkKeeps(b: Book, pid: nat)
    requires Kept(b) && pid in b.taken && (b.taken[pid] == 0 || Alive(b.procs, b.taken[pid]))
    ensures Kept(LinkedBook(b, pid))
  {
    RegisterKeeps(b.procs, b.next, pid, b.taken[pid]);
    var qs := LinkedBook(b, pid).procs;
    assert forall p :: p in qs <==> p == qs[0] || p in b.procs;
    assert Zombies(qs) == Zombies(b.procs);
  }

  lemma ReapPids(ps: seq<Proc>, next: nat, z: Proc)
    requires Processes.Inv(ps, next) && z in ps && z.zombie
    ensures z.pid in Zombies(ps) && Zombies(Without(ps, z.pid)) == Zombies(ps) - {z.pid}
    ensures forall p :: p in Without(ps, z.pid) ==> p in ps
    ensures forall q, w :: Reapable(Without(ps, z.pid), q, w) ==> Reapable(ps, q, w)
  {
    WithoutIs(ps, z.pid);
    hide Without, Processes.Inv, Unique;
  }

  lemma ReapKeepsBook(b: Book, parent: nat, want: int)
    requires Kept(b)
    ensures Kept(ReapedBook(b, parent, want))
    ensures forall q, w :: Reapable(ReapedBook(b, parent, want).procs, q, w) ==> Reapable(b.procs, q, w)
  {
    var i := FirstZombie(b.procs, parent, want);
    if i < |b.procs| {
      var z := b.procs[i];
      assert z in b.procs;
      ReapKeeps(b.procs, b.next, z);
      ReapPids(b.procs, b.next, z);
      OnceMore(b, z, ReapedBook(b, parent, want));
      hide Without, Processes.Inv, FirstZombie, Reapable, Zombies, Delivered, Reaped;
    }
  }

  // One more pid delivered, which was not before.
  lemma OnceMore(b: Book, z: Proc, b': Book)
    requires Statuses(b) && Delivered(b) && z in b.procs && z.zombie && z.pid !in Reaped(b)
    requires b'.reaped == b.reaped + [(z.pid, z.status)] && b'.exited == b.exited
    ensures Delivered(b') && Reaped(b') == Reaped(b) + {z.pid}
  {
    assert forall k :: 0 <= k < |b.reaped| ==> b.reaped[k].0 in Reaped(b);
  }

  // Every process listed after an exit was listed before, and is a zombie if it was or is the one
  // that exited; only zombies, and the process itself, may be gone.
  lemma ExitFrom(ps: seq<Proc>, next: nat, me: Proc, status: int, q: Proc) returns (p: Proc)
    requires Processes.Inv(ps, next) && me in ps && !me.zombie && q in AfterExit(ps, me.pid, status)
    ensures p in ps && p.pid == q.pid
    ensures q.zombie <==> p.zombie || p == me
    ensures q.status == if p == me then status else p.status
  {
    AfterExitIs(ps, next, me, status);
    if HasParent(ps, me) && q == me.(zombie := true, status := status) {
      p := me;
    } else {
      p :| p in ps && p.pid != me.pid && q == Adopt(p, me.pid, Heir(ps, me.pid)) && !(q.zombie && q.ppid == 0);
    }
  }

  lemma ExitPids(ps: seq<Proc>, next: nat, me: Proc, status: int)
    requires Processes.Inv(ps, next) && me in ps && !me.zombie
    ensures var qs := AfterExit(ps, me.pid, status);
            && Pids(qs) <= Pids(ps)
            && Pids(ps) - Pids(qs) <= Zombies(ps) + {me.pid}
            && Zombies(qs) == (Zombies(ps) + {me.pid}) * Pids(qs)
  {
    hide AfterExit, Processes.Inv;
    var qs := AfterExit(ps, me.pid, status);
    LiveStay(ps, next, me, status);
    forall q | q in qs
      ensures q.pid in Pids(ps) && (q.zombie <==> q.pid in Zombies(ps) + {me.pid})
    {
      var p := ExitFrom(ps, next, me, status, q);
      ZombiePid(ps, next, p);
      assert p == me <==> p.pid == me.pid by {
        if p.pid == me.pid {
          UniquePid(ps, next, p, me);
        }
      }
    }
  }

  lemma LiveStay(ps: seq<Proc>, next: nat, me: Proc, status: int)
    requires Processes.Inv(ps, next) && me in ps && !me.zombie
    ensures forall p :: p in ps && !p.zombie && p.pid != me.pid ==> p.pid in Pids(AfterExit(ps, me.pid, status))
  {
    AfterExitIs(ps, next, me, status);
    hide AfterExit, Processes.Inv, Unique;
    forall p | p in ps && !p.zombie && p.pid != me.pid ensures p.pid in Pids(AfterExit(ps, me.pid, status)) {
      assert Adopt(p, me.pid, Heir(ps, me.pid)) in AfterExit(ps, me.pid, status);
    }
  }

  lemma ZombiePid(ps: seq<Proc>, next: nat, p: Proc)
    requires Processes.Inv(ps, next) && p in ps
    ensures p.zombie <==> p.pid in Zombies(ps)
  {
    forall q | q in ps && q.pid == p.pid ensures q == p {
      UniquePid(ps, next, q, p);
    }
  }

  lemma UniquePid(ps: seq<Proc>, next: nat, p: Proc, q: Proc)
    requires Processes.Inv(ps, next) && p in ps && q in ps && p.pid == q.pid
    ensures p == q
  {
    SamePid(ps, p, q);
  }

  lemma ExitKeepsBook(b: Book, me: Proc, status: int)
    requires Kept(b) && me in b.procs && !me.zombie
    ensures Kept(ExitBook(b, me.pid, status))
  {
    TerminateKeeps(b.procs, b.next, me, status);
    ExitPids(b.procs, b.next, me, status);
    assert Processes.Fits(b.procs, b.next, me);
    ExitPartition(b, me, status);
    ExitStatuses(b, me, status);
    ExitFresh(b, me, status);
    hide AfterExit, Processes.Inv, Partition, Statuses, Fresh;
    assert me.pid !in b.exited by {
      MeNotExited(b, me);
    }
  }

  lemma MeNotExited(b: Book, me: Proc)
    requires Kept(b) && me in b.procs && !me.zombie
    ensures me.pid !in b.exited
  {
  }

  lemma ExitPartition(b: Book, me: Proc, status: int)
    requires Kept(b) && me in b.procs && !me.zombie
    ensures var b' := ExitBook(b, me.pid, status);
            Partition(b'.exited.Keys, Zombies(b'.procs), Reaped(b'), b'.dropped)
  {
    var b', x := ExitBook(b, me.pid, status), me.pid;
    ExitPids(b.procs, b.next, me, status);
    MeNotExited(b, me);
    forall pid | pid in Reaped(b) || pid in b.dropped ensures pid !in Pids(b.procs) {
      GoneFromList(b, pid);
    }
    hide AfterExit, Processes.Inv, Zombies, Reaped, Fresh, Statuses, Delivered;
    assert b'.exited.Keys == b.exited.Keys + {x};
    assert x in Pids(b.procs);
  }

  lemma ExitStatuses(b: Book, me: Proc, status: int)
    requires Kept(b) && me in b.procs && !me.zombie
    ensures Statuses(ExitBook(b, me.pid, status))
  {
    var b' := ExitBook(b, me.pid, status);
    hide AfterExit, Processes.Inv, Zombies, Reaped, Fresh, Delivered, Partition;
    forall q | q in b'.procs
      ensures (q.zombie <==> q.pid in b'.exited) && (q.zombie ==> b'.exited[q.pid] == q.status)
    {
      var p := ExitFrom(b.procs, b.next, me, status, q);
      if p != me && p.pid == me.pid {
        UniquePid(b.procs, b.next, p, me);
      }
    }
  }

  lemma ExitFresh(b: Book, me: Proc, status: int)
    requires Kept(b) && me in b.procs && !me.zombie
    ensures Fresh(ExitBook(b, me.pid, status))
  {
    var b' := ExitBook(b, me.pid, status);
    ExitPids(b.procs, b.next, me, status);
    assert Processes.Fits(b.procs, b.next, me);
    hide AfterExit, Processes.Inv, Zombies, Reaped, Delivered, Partition, Statuses;
    forall pid | pid in b.taken ensures !Listed(b'.procs, pid) && pid != me.pid {
      assert !Listed(b.procs, pid) && Listed(b.procs, me.pid);
      assert Listed(b'.procs, pid) ==> pid in Pids(b'.procs);
    }
  }

  lemma GoneFromList(b: Book, pid: nat)
    requires Kept(b) && (pid in Reaped(b) || pid in b.dropped)
    ensures pid !in Pids(b.procs)
  {
    forall p | p in b.procs ensures p.pid != pid {
      if p.zombie {
        assert p.pid in Zombies(b.procs);
      }
    }
  }

  // ---- whole runs ----

  ghost predicate Inv(s: World) {
    Handshake.Inv(DeadChild, s) && Kept(s.data) && s.data.next > 0
  }

  lemma EventKeeps(s: World, e: Event)
    requires Inv(s) && Possible(s, e)
    ensures Handshake.Enabled(DeadChild, s, AsStep(s, e))
    ensures Inv(Handshake.Next(s, AsStep(s, e)))
  {
    hide Kept, Handshake.Inv, AfterExit, Registered, Told;
    var b := s.data;
    match e {
      case Reap(parent, want) => ReapKeepsBook(b, parent, want);
      case NewPid(ppid) => NewPidKeeps(b, ppid);
      case Link(pid) =>
        LinkKeeps(b, pid);
        NoNewDead(b.procs, pid, b.taken[pid]);
      case Exit(pid, status) =>
        var me :| me in b.procs && me.pid == pid && !me.zombie;
        ExitKeepsBook(b, me, status);
        ExitTells(b, me, status);
      case _ =>
    }
    Handshake.StepKeeps(DeadChild, s, AsStep(s, e));
  }

  lemma NoNewDead(ps: seq<Proc>, pid: nat, ppid: nat)
    ensures forall q, w :: Reapable(Registered(ps, pid, ppid), q, w) ==> Reapable(ps, q, w)
  {
    assert forall p :: p in Registered(ps, pid, ppid) ==> p == Proc(pid, ppid, false, 0) || p in ps;
  }

  lemma ExitTells(b: Book, me: Proc, status: int)
    requires Kept(b) && me in b.procs && !me.zombie
    ensures Handshake.Announced(DeadChild, b, ExitBook(b, me.pid, status), multiset(Told(b.procs, me.pid)))
  {
    hide AfterExit, Told, Reapable;
    forall q, want | DeadChild(ExitBook(b, me.pid, status), q, want) && !DeadChild(b, q, want)
      ensures q in multiset(Told(b.procs, me.pid))
    {
      ParentsAreTold(b.procs, b.next, me, status, q, want);
    }
  }

  lemma {:induction false} RunKeeps(s: World, es: seq<Event>)
    requires Inv(s) && PossibleRun(s, es)
    ensures Inv(After(s, es))
    decreases |es|
  {
    if es != [] {
      EventKeeps(s, es[0]);
      RunKeeps(Handshake.Next(s, AsStep(s, es[0])), es[1..]);
    }
  }

  // No process, no pid used.
  function Start(idle: seq<nat>, queues: set<nat>): World {
    Handshake.Start(idle, queues, Book([], 1, map[], map[], [], {}))
  }

  lemma StartKeeps(idle: seq<nat>, queues: set<nat>)
    requires Bootable(idle, queues)
    ensures Inv(Start(idle, queues))
  {
    BootKeeps(idle, queues);
  }

  // Sleep in wait4 is justified: whenever process_lock is free, whoever is asleep on a parent's queue,
  // in its list or still in a slot of its CPU, has no dead child of the kind it waits for.
  lemma ParentSleeps(idle: seq<nat>, queues: set<nat>, es: seq<Event>, parent: nat, t: nat)
    requires Bootable(idle, queues) && PossibleRun(Start(idle, queues), es)
    requires var s := After(Start(idle, queues), es); LockFree(s) && AsleepOn(s.sys, t, parent)
    ensures var s := After(Start(idle, queues), es);
            t in s.waits && s.waits[t].q == parent && !Reapable(s.data.procs, parent, s.waits[t].want)
  {
    StartKeeps(idle, queues);
    RunKeeps(Start(idle, queues), es);
    var s := After(Start(idle, queues), es);
    assert Handshake.Registered(s, t) && Handshake.Good(DeadChild, s, s.waits[t]);
  }

  lemma ListedParentSleeps(idle: seq<nat>, queues: set<nat>, es: seq<Event>, parent: nat, i: nat)
    requires Bootable(idle, queues) && PossibleRun(Start(idle, queues), es)
    requires var s := After(Start(idle, queues), es);
             LockFree(s) && parent in s.sys.queues && i < |s.sys.queues[parent].list|
    ensures var s := After(Start(idle, queues), es);
            var t := s.sys.queues[parent].list[i];
            t in s.waits && s.waits[t].q == parent && !Reapable(s.data.procs, parent, s.waits[t].want)
  {
    StartKeeps(idle, queues);
    RunKeeps(Start(idle, queues), es);
    SleepersAreCurrent(After(Start(idle, queues), es).sys, parent, i);
    ParentSleeps(idle, queues, es, parent, After(Start(idle, queues), es).sys.queues[parent].list[i]);
  }

  // At this exit d has nobody to wait for it: it is the process itself and has no living parent, or
  // it is a dead child of the process and there is no init to leave it to.
  ghost predicate NobodyFor(b: Book, x: nat, d: nat) {
    || (d == x && exists me :: me in b.procs && me.pid == x && forall p :: p in b.procs && p.pid == me.ppid ==> p.zombie)
    || (&& (exists z :: z in b.procs && z.pid == d && z.ppid == x && z.zombie)
        && (x == 1 || forall i :: i in b.procs && i.pid == 1 ==> i.zombie))
  }

  lemma DroppedAt(b: Book, me: Proc, status: int, d: nat)
    requires Kept(b) && me in b.procs && !me.zombie && d !in b.dropped
    requires d in ExitBook(b, me.pid, status).dropped
    ensures NobodyFor(b, me.pid, d)
  {
    hide Statuses, Delivered, Partition, Fresh, AfterExit;
    var qs := AfterExit(b.procs, me.pid, status);
    var p :| p in b.procs && p.pid == d;
    NotListed(qs, d);
    SelfOf(b.procs, b.next, me, status);
    OthersOf(b.procs, b.next, me, status);
    if p.pid != me.pid && p.ppid == me.pid {
      ChildrenOf(b.procs, b.next, me, status, p);
    } else if p.pid == me.pid {
      NoParent(b.procs, b.next, me);
    }
  }

  lemma NotListed(ps: seq<Proc>, d: nat)
    requires d !in Pids(ps)
    ensures forall q :: q in ps ==> q.pid != d
  {
  }

  lemma NoParent(ps: seq<Proc>, next: nat, me: Proc)
    requires Processes.Inv(ps, next) && me in ps && me.ppid == 0
    ensures forall p :: p in ps ==> p.pid != 0
  {
    forall p | p in ps ensures p.pid != 0 {
      assert Processes.Fits(ps, next, p);
    }
  }

  // Nobody's status is dropped in a run but at an exit that leaves nobody to wait for it.
  lemma {:induction false} DroppedInRun(s: World, es: seq<Event>, d: nat)
    requires Inv(s) && PossibleRun(s, es) && d in After(s, es).data.dropped && d !in s.data.dropped
    ensures exists k :: 0 <= k < |es| && es[k].Exit? && NobodyFor(After(s, es[..k]).data, es[k].pid, d)
    decreases |es|
  {
    hide Inv, NobodyFor, ExitBook;
    var s1 := Handshake.Next(s, AsStep(s, es[0]));
    EventKeeps(s, es[0]);
    if d in s1.data.dropped {
      DroppedByExit(s, es[0], d);
      assert es[..0] == [];
      assert es[0].Exit? && NobodyFor(After(s, es[..0]).data, es[0].pid, d);
    } else {
      DroppedInRun(s1, es[1..], d);
      var k :| 0 <= k < |es[1..]| && es[1..][k].Exit? && NobodyFor(After(s1, es[1..][..k]).data, es[1..][k].pid, d);
      assert es[..k + 1][1..] == es[1..][..k] && es[k + 1] == es[1..][k];
      assert After(s, es[..k + 1]) == After(s1, es[1..][..k]);
    }
  }

  lemma DroppedByExit(s: World, e: Event, d: nat)
    requires Inv(s) && Possible(s, e) && d !in s.data.dropped && d in Handshake.Next(s, AsStep(s, e)).data.dropped
    ensures e.Exit? && NobodyFor(s.data, e.pid, d)
  {
    hide ExitBook, NobodyFor, Kept, Handshake.Inv;
    if e.Exit? {
      var me :| me in s.data.procs && me.pid == e.pid && !me.zombie;
      DroppedAt(s.data, me, e.status, d);
    }
  }

  // Each exit status is delivered at most once and unaltered; a process that exited is a zombie
  // with a live parent, or was waited for, or was freed at an exit that left nobody to wait for it.
  lemma StatusesDelivered(idle: seq<nat>, queues: set<nat>, es: seq<Event>)
    requires Bootable(idle, queues) && PossibleRun(Start(idle, queues), es)
    ensures var b := After(Start(idle, queues), es).data;
            && Delivered(b)
            && Partition(b.exited.Keys, Zombies(b.procs), Reaped(b), b.dropped)
            && (forall p :: p in b.procs && p.zombie ==> p.pid in b.exited && p.status == b.exited[p.pid] && Alive(b.procs, p.ppid))
            && (forall p :: p in b.procs && p.ppid != 0 ==> Alive(b.procs, p.ppid) && p.ppid < p.pid)
            && (forall i, j :: 0 <= i < j < |b.procs| ==> b.procs[i].pid != b.procs[j].pid)
            && (forall d :: d in b.dropped ==>
                  exists k :: 0 <= k < |es| && es[k].Exit? && NobodyFor(After(Start(idle, queues), es[..k]).data, es[k].pid, d))
  {
    hide NobodyFor;
    StartKeeps(idle, queues);
    RunKeeps(Start(idle, queues), es);
    var b := After(Start(idle, queues), es).data;
    forall d | d in b.dropped
      ensures exists k :: 0 <= k < |es| && es[k].Exit? && NobodyFor(After(Start(idle, queues), es[..k]).data, es[k].pid, d)
    {
      DroppedInRun(Start(idle, queues), es, d);
    }
    forall p | p in b.procs && (p.zombie || p.ppid != 0) ensures Alive(b.procs, p.ppid) && p.ppid < p.pid {
      assert Processes.Fits(b.procs, b.next, p);
    }
  }
}
