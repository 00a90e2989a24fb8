/** The process list: exit, adoption by init, zombies, and waiting for children. Every operation
    is one section of process.c under process_lock. */
module Processes {
  const INIT: nat := 1

  // Pid 0 is nobody: the parent of a process that has none.
  datatype Proc = Proc(pid: nat, ppid: nat, zombie: bool, status: int)

  predicate Alive(ps: seq<Proc>, pid: nat) {
    exists p :: p in ps && p.pid == pid && !p.zombie
  }

  ghost predicate Unique(ps: seq<Proc>) {
    forall i, j :: 0 <= i < j < |ps| ==> ps[i].pid != ps[j].pid
  }

  // A parent is older, and alive; a zombie has one.
  ghost predicate Fits(ps: seq<Proc>, next: nat, p: Proc) {
    && p.ppid < p.pid < next
    && (p.ppid != 0 ==> Alive(ps, p.ppid))
    && (p.zombie ==> p.ppid != 0)
  }

  // Pids below next have been used.
  ghost predicate Inv(ps: seq<Proc>, next: nat) {
    Unique(ps) && forall p :: p in ps ==> Fits(ps, next, p)
  }

  predicate Listed(ps: seq<Proc>, pid: nat) {
    exists p :: p in ps && p.pid == pid
  }

  // process_register
  function Registered(ps: seq<Proc>, pid: nat, ppid: nat): seq<Proc> {
    [Proc(pid, ppid, false, 0)] + ps
  }

  // ---- process_terminate ----

  // Who inherits the children of x.
  function Heir(ps: seq<Proc>, x: nat): nat {
    if x != INIT && Alive(ps, INIT) then INIT else 0
  }

  function Adopt(p: Proc, x: nat, heir: nat): Proc {
    if p.pid != x && p.ppid == x then p.(ppid := heir) else p
  }

  function Adopted(ps: seq<Proc>, x: nat, heir: nat): (qs: seq<Proc>)
    ensures |qs| == |ps| && forall i :: 0 <= i < |ps| ==> qs[i] == Adopt(ps[i], x, heir)
  {
    seq(|ps|, i requires 0 <= i < |ps| => Adopt(ps[i], x, heir))
  }

  // A zombie that nobody can wait for.
  predicate Orphaned(p: Proc, x: nat) {
    p.pid != x && p.zombie && p.ppid == 0
  }

  function Swept(ps: seq<Proc>, x: nat): seq<Proc> {
    if ps == [] then [] else (if Orphaned(ps[0], x) then [] else [ps[0]]) + Swept(ps[1..], x)
  }

  function IndexOf(ps: seq<Proc>, pid: nat): (i: nat)
    ensures i <= |ps|
    ensures i < |ps| ==> ps[i].pid == pid
    ensures forall j :: 0 <= j < i ==> ps[j].pid != pid
  {
    if ps == [] || ps[0].pid == pid then 0 else 1 + IndexOf(ps[1..], pid)
  }

  function Without(ps: seq<Proc>, pid: nat): seq<Proc> {
    var i := IndexOf(ps, pid);
    if i == |ps| then ps else ps[..i] + ps[i + 1..]
  }

  predicate HasParent(ps: seq<Proc>, p: Proc) {
    p.ppid != 0 && Alive(ps, p.ppid)
  }

  // The process stays behind as a zombie while its parent lives.
  function Left(ps: seq<Proc>, x: nat, status: int): seq<Proc> {
    var i := IndexOf(ps, x);
    if i < |ps| && HasParent(ps, ps[i]) then ps[i := ps[i].(zombie := true, status := status)] else Without(ps, x)
  }

  function AfterExit(ps: seq<Proc>, x: nat, status: int): seq<Proc> {
    Left(Swept(Adopted(ps, x, Heir(ps, x)), x), x, status)
  }

  // Whose queues are woken: init's if it is given a zombie, and the parent's.
  function Told(ps: seq<Proc>, x: nat): seq<nat> {
    (if Heir(ps, x) != 0 && exists p :: p in ps && p.pid != x && p.ppid == x && p.zombie then [INIT] else [])
    + (var i := IndexOf(ps, x); if i < |ps| && HasParent(ps, ps[i]) then [ps[i].ppid] else [])
  }

  // ---- process_wait_child ----

  predicate Matches(p: Proc, parent: nat, want: int) {
    p.ppid == parent && (want > 0 ==> p.pid == want)
  }

  predicate Reapable(ps: seq<Proc>, parent: nat, want: int) {
    exists p :: p in ps && Matches(p, parent, want) && p.zombie
  }

  function FirstZombie(ps: seq<Proc>, parent: nat, want: int): (i: nat)
    ensures i <= |ps|
    ensures i < |ps| ==> Matches(ps[i], parent, want) && ps[i].zombie
    ensures forall j :: 0 <= j < i ==> !(Matches(ps[j], parent, want) && ps[j].zombie)
  {
    if ps == [] || (Matches(ps[0], parent, want) && ps[0].zombie) then 0 else 1 + FirstZombie(ps[1..], parent, want)
  }

  // ---- what the list holds afterwards ----

  lemma {:induction false} SweptIs(ps: seq<Proc>, x: nat)
    ensures forall p :: p in Swept(ps, x) <==> p in ps && !Orphaned(p, x)
    ensures Unique(ps) ==> Unique(Swept(ps, x))
    decreases |ps|
  {
    if ps != [] {
      SweptIs(ps[1..], x);
      var rest := Swept(ps[1..], x);
      assert forall p :: p in ps <==> p == ps[0] || p in ps[1..];
      if Unique(ps) {
        assert Unique(ps[1..]);
        forall i | 0 <= i < |rest| ensures rest[i].pid != ps[0].pid {
          assert rest[i] in ps[1..];
        }
      }
    }
  }

  lemma IndexOfMember(ps: seq<Proc>, p: Proc)
    requires Unique(ps) && p in ps
    ensures IndexOf(ps, p.pid) < |ps| && ps[IndexOf(ps, p.pid)] == p
  {
    var j :| 0 <= j < |ps| && ps[j] == p;
  }

  lemma WithoutIs(ps: seq<Proc>, pid: nat)
    requires Unique(ps)
    ensures Unique(Without(ps, pid))
    ensures forall p :: p in Without(ps, pid) <==> p in ps && p.pid != pid
  {
    var i := IndexOf(ps, pid);
    if i < |ps| {
      assert forall p :: p in ps <==> p in ps[..i] || p == ps[i] || p in ps[i + 1..];
    }
  }

  lemma SamePid(ps: seq<Proc>, p: Proc, q: Proc)
    requires Unique(ps) && p in ps && q in ps && p.pid == q.pid
    ensures p == q
  {
  }

  lemma LeftIs(ps: seq<Proc>, me: Proc, status: int)
    requires Unique(ps) && me in ps
    ensures Unique(Left(ps, me.pid, status))
    ensures forall p :: p in Left(ps, me.pid, status) <==>
              (p in ps && p.pid != me.pid) || (HasParent(ps, me) && p == me.(zombie := true, status := status))
  {
    IndexOfMember(ps, me);
    var i := IndexOf(ps, me.pid);
    if HasParent(ps, me) {
      var qs := Left(ps, me.pid, status);
      forall p ensures p in qs <==> (p in ps && p.pid != me.pid) || p == me.(zombie := true, status := status) {
        if p in ps && p.pid != me.pid {
          var j :| 0 <= j < |ps| && ps[j] == p;
          assert qs[j] == p;
        }
        assert qs[i] == me.(zombie := true, status := status);
      }
    } else {
      WithoutIs(ps, me.pid);
    }
  }

  // Everybody else stays, under init or nobody if the parent was x, except zombies left to nobody;
  // x itself stays, as a zombie, exactly if its parent lives.
  lemma AfterExitIs(ps: seq<Proc>, next: nat, me: Proc, status: int)
    requires Inv(ps, next) && me in ps && !me.zombie
    ensures var x, heir := me.pid, Heir(ps, me.pid);
            && Unique(AfterExit(ps, x, status))
            && forall q :: q in AfterExit(ps, x, status) <==>
                 (exists p :: p in ps && p.pid != x && q == Adopt(p, x, heir) && !(q.zombie && q.ppid == 0))
                 || (HasParent(ps, me) && q == me.(zombie := true, status := status))
  {
    var x, heir := me.pid, Heir(ps, me.pid);
    var rs := Swept(Adopted(ps, x, heir), x);
    SweptMembers(ps, me);
    LeftIs(rs, me, status);
    ParentSurvives(ps, next, me);
    hide Adopted, Swept, Left, Heir, Unique, HasParent, Inv;
    forall q ensures q in AfterExit(ps, x, status) <==>
                 (exists p :: p in ps && p.pid != x && q == Adopt(p, x, heir) && !(q.zombie && q.ppid == 0))
                 || (HasParent(ps, me) && q == me.(zombie := true, status := status))
    {
      assert q in rs <==> !Orphaned(q, x) && exists p :: p in ps && q == Adopt(p, x, heir);
    }
  }

  // The list before the process itself is dealt with.
  lemma SweptMembers(ps: seq<Proc>, me: Proc)
    requires Unique(ps) && me in ps && !me.zombie
    ensures var x, heir := me.pid, Heir(ps, me.pid);
            var rs := Swept(Adopted(ps, x, heir), x);
            && Unique(rs) && me in rs
            && forall q :: q in rs <==> !Orphaned(q, x) && exists p :: p in ps && q == Adopt(p, x, heir)
  {
    var x, heir := me.pid, Heir(ps, me.pid);
    AdoptedIs(ps, x, heir);
    SweptIs(Adopted(ps, x, heir), x);
    hide Adopted, Swept, Unique;
    assert me == Adopt(me, x, heir);
  }

  lemma AdoptedIs(ps: seq<Proc>, x: nat, heir: nat)
    requires Unique(ps)
    ensures Unique(Adopted(ps, x, heir))
    ensures forall q :: q in Adopted(ps, x, heir) <==> exists p :: p in ps && q == Adopt(p, x, heir)
  {
    var qs := Adopted(ps, x, heir);
    forall p | p in ps ensures Adopt(p, x, heir) in qs {
      var i :| 0 <= i < |ps| && ps[i] == p;
      assert qs[i] == Adopt(p, x, heir);
    }
  }

  lemma ParentSurvives(ps: seq<Proc>, next: nat, me: Proc)
    requires Inv(ps, next) && me in ps && !me.zombie
    ensures HasParent(Swept(Adopted(ps, me.pid, Heir(ps, me.pid)), me.pid), me) <==> HasParent(ps, me)
  {
    var x, heir := me.pid, Heir(ps, me.pid);
    AdoptedIs(ps, x, heir);
    SweptIs(Adopted(ps, x, heir), x);
    if HasParent(ps, me) {
      var p :| p in ps && p.pid == me.ppid && !p.zombie;
      assert Adopt(p, x, heir) in Swept(Adopted(ps, x, heir), x);
    }
  }

  // ---- an exit, process by process ----

  // While init lives the children become its own, dead or alive, and it is woken for the dead;
  // without init the living are left to nobody and the dead are gone.
  lemma ChildrenOf(ps: seq<Proc>, next: nat, me: Proc, status: int, p: Proc)
    requires Inv(ps, next) && me in ps && !me.zombie && p in ps && p.ppid == me.pid
    ensures var qs := AfterExit(ps, me.pid, status);
            if me.pid != 1 && exists i :: i in ps && i.pid == 1 && !i.zombie then
              && Proc(p.pid, 1, p.zombie, p.status) in qs
              && (p.zombie ==> 1 in Told(ps, me.pid))
            else if p.zombie then forall q :: q in qs ==> q.pid != p.pid
            else Proc(p.pid, 0, false, p.status) in qs
  {
    var x, heir := me.pid, Heir(ps, me.pid);
    AfterExitIs(ps, next, me, status);
    assert Fits(ps, next, p);
    hide AfterExit, Unique;
    if p.zombie && heir == 0 {
      ZombieGone(ps, next, me, status, p);
    } else {
      assert Adopt(p, x, heir) in AfterExit(ps, x, status);
    }
  }

  lemma ZombieGone(ps: seq<Proc>, next: nat, me: Proc, status: int, p: Proc)
    requires Inv(ps, next) && me in ps && !me.zombie && p in ps && p.ppid == me.pid && p.zombie && Heir(ps, me.pid) == 0
    ensures forall q :: q in AfterExit(ps, me.pid, status) ==> q.pid != p.pid
  {
    var x := me.pid;
    AfterExitIs(ps, next, me, status);
    assert Fits(ps, next, p);
    hide AfterExit, Heir;
    forall q | q in AfterExit(ps, x, status) ensures q.pid != p.pid {
      if !(HasParent(ps, me) && q == me.(zombie := true, status := status)) {
        var o :| o in ps && o.pid != x && q == Adopt(o, x, 0) && !(q.zombie && q.ppid == 0);
        if o.pid == p.pid {
          SamePid(ps, o, p);
        }
      }
    }
  }

  // Nobody else is touched, and nobody is new.
  lemma OthersOf(ps: seq<Proc>, next: nat, me: Proc, status: int)
    requires Inv(ps, next) && me in ps && !me.zombie
    ensures forall p :: p in ps && p.pid != me.pid && p.ppid != me.pid ==> p in AfterExit(ps, me.pid, status)
    ensures forall q :: q in AfterExit(ps, me.pid, status) ==> exists p :: p in ps && p.pid == q.pid
    ensures var qs := AfterExit(ps, me.pid, status); forall i, j :: 0 <= i < j < |qs| ==> qs[i].pid != qs[j].pid
  {
    var x := me.pid;
    AfterExitIs(ps, next, me, status);
    hide AfterExit, Heir;
    forall p | p in ps && p.pid != x && p.ppid != x ensures p in AfterExit(ps, x, status) {
      assert Fits(ps, next, p) && Adopt(p, x, Heir(ps, x)) == p;
    }
  }

  // The process itself stays, dead, for its parent, which is woken, and without one is gone.
  lemma SelfOf(ps: seq<Proc>, next: nat, me: Proc, status: int)
    requires Inv(ps, next) && me in ps && !me.zombie
    ensures var qs := AfterExit(ps, me.pid, status);
            if me.ppid != 0 then
              && (exists p :: p in ps && p.pid == me.ppid && !p.zombie)
              && Proc(me.pid, me.ppid, true, status) in qs && me.ppid in Told(ps, me.pid)
            else forall q :: q in qs ==> q.pid != me.pid
  {
    var x, heir := me.pid, Heir(ps, me.pid);
    AfterExitIs(ps, next, me, status);
    ParentTold(ps, next, me);
    assert Fits(ps, next, me);
    hide AfterExit, Unique, Heir, Inv, Told, Alive, Fits;
    if me.ppid == 0 {
      forall q | q in AfterExit(ps, x, status) ensures q.pid != x {
        var p :| p in ps && p.pid != x && q == Adopt(p, x, heir) && !(q.zombie && q.ppid == 0);
      }
    } else {
      assert Alive(ps, me.ppid) by {
        assert Fits(ps, next, me);
      }
      assert me.(zombie := true, status := status) in AfterExit(ps, x, status);
    }
  }

  lemma ParentTold(ps: seq<Proc>, next: nat, me: Proc)
    requires Inv(ps, next) && me in ps
    ensures me.ppid != 0 ==> me.ppid in Told(ps, me.pid)
  {
    IndexOfMember(ps, me);
    assert Fits(ps, next, me);
  }

  // Nobody is woken for nothing.
  lemma ToldOnly(ps: seq<Proc>, next: nat, me: Proc, t: nat)
    requires Inv(ps, next) && me in ps && !me.zombie && t in Told(ps, me.pid)
    ensures t == me.ppid
            || (t == 1 && me.pid != 1 && (exists i :: i in ps && i.pid == 1 && !i.zombie)
                && exists p :: p in ps && p.ppid == me.pid && p.zombie)
  {
    IndexOfMember(ps, me);
  }

  // ---- the invariant ----

  lemma RegisterKeeps(ps: seq<Proc>, next: nat, pid: nat, ppid: nat)
    requires Inv(ps, next) && ppid < pid < next && !Listed(ps, pid) && (ppid == 0 || Alive(ps, ppid))
    ensures Inv(Registered(ps, pid, ppid), next)
  {
    var qs := Registered(ps, pid, ppid);
    assert forall p :: p in qs <==> p == qs[0] || p in ps;
    forall x | Alive(ps, x) ensures Alive(qs, x) {
      var p :| p in ps && p.pid == x && !p.zombie;
      assert p in qs;
    }
    forall i | 0 <= i < |ps| ensures ps[i].pid != pid {
      assert ps[i] in ps;
    }
  }

  lemma AliveAfterExit(ps: seq<Proc>, next: nat, me: Proc, status: int, pid: nat)
    requires Inv(ps, next) && me in ps && !me.zombie && pid != me.pid && Alive(ps, pid)
    ensures Alive(AfterExit(ps, me.pid, status), pid)
  {
    AfterExitIs(ps, next, me, status);
    hide AfterExit, Heir, Unique, Inv;
    var p :| p in ps && p.pid == pid && !p.zombie;
    assert Adopt(p, me.pid, Heir(ps, me.pid)) in AfterExit(ps, me.pid, status);
  }

  lemma TerminateKeeps(ps: seq<Proc>, next: nat, me: Proc, status: int)
    requires Inv(ps, next) && me in ps && !me.zombie
    ensures Inv(AfterExit(ps, me.pid, status), next)
  {
    var x, heir := me.pid, Heir(ps, me.pid);
    var qs := AfterExit(ps, x, status);
    AfterExitIs(ps, next, me, status);
    hide AfterExit, Unique, Alive;
    assert heir != 0 ==> heir != x && heir == INIT && Alive(ps, heir);
    hide Heir;
    forall q | q in qs ensures Fits(qs, next, q) {
      var p := me;
      if !(q == me.(zombie := true, status := status) && HasParent(ps, me)) {
        p :| p in ps && p.pid != x && q == Adopt(p, x, heir) && !(q.zombie && q.ppid == 0);
      }
      assert Fits(ps, next, p);
      if q.ppid != 0 {
        AliveAfterExit(ps, next, me, status, q.ppid);
      }
    }
  }

  // A zombie reaped takes nobody's parent away.
  lemma ReapKeeps(ps: seq<Proc>, next: nat, z: Proc)
    requires Inv(ps, next) && z in ps && z.zombie
    ensures Inv(Without(ps, z.pid), next)
  {
    var qs := Without(ps, z.pid);
    WithoutIs(ps, z.pid);
    forall pid | Alive(ps, pid) ensures Alive(qs, pid) {
      var p :| p in ps && p.pid == pid && !p.zombie;
      assert p.pid == z.pid ==> p == z by {
        if p.pid == z.pid {
          SamePid(ps, p, z);
        }
      }
      assert p in qs;
    }
  }

  // Whoever can be waited for after an exit and could not before has a parent that is told.
  lemma ParentsAreTold(ps: seq<Proc>, next: nat, me: Proc, status: int, parent: nat, want: int)
    requires Inv(ps, next) && me in ps && !me.zombie
    requires Reapable(AfterExit(ps, me.pid, status), parent, want) && !Reapable(ps, parent, want)
    ensures parent in Told(ps, me.pid)
  {
    var x, heir := me.pid, Heir(ps, me.pid);
    AfterExitIs(ps, next, me, status);
    IndexOfMember(ps, me);
    var q :| q in AfterExit(ps, x, status) && Matches(q, parent, want) && q.zombie;
    if q == me.(zombie := true, status := status) && HasParent(ps, me) {
      assert parent == me.ppid;
    } else {
      var p :| p in ps && p.pid != x && q == Adopt(p, x, heir) && !(q.zombie && q.ppid == 0);
      assert p.ppid == x;
    }
  }

  // ---- the list as the kernel works on it ----

  class ProcessTable {
    var list: seq<Proc>
    var nextPid: nat

    ghost predicate Valid()
      reads this
    {
      Inv(list, nextPid)
    }

    constructor ()
      ensures Valid() && list == []
    {
      list, nextPid := [], 1;
    }

    method TakePid() returns (pid: nat)
      requires Valid()
      modifies this`nextPid
      ensures Valid() && pid == old(nextPid) && nextPid == pid + 1 && !Listed(list, pid)
    {
      pid := nextPid;
      nextPid := nextPid + 1;
    }

    method Register(pid: nat, ppid: nat)
      requires Valid() && ppid < pid < nextPid && !Listed(list, pid) && (ppid == 0 || Alive(list, ppid))
      modifies this`list
      ensures Valid() && list == Registered(old(list), pid, ppid) == [Proc(pid, ppid, false, 0)] + old(list)
    {
      RegisterKeeps(list, nextPid, pid, ppid);
      list := [Proc(pid, ppid, false, 0)] + list;
    }

    // process_terminate, from where it takes the lock
    method Terminate(x: nat, status: int) returns (told: seq<nat>)
      requires Valid() && Alive(list, x)
      modifies this`list
      ensures Valid() && list == AfterExit(old(list), x, status)
      ensures told == Told(old(list), x)
      ensures forall p :: p in old(list) && p.ppid == x ==>
                if x != 1 && exists i :: i in old(list) && i.pid == 1 && !i.zombie then Proc(p.pid, 1, p.zombie, p.status) in list
                else p.zombie || Proc(p.pid, 0, false, p.status) in list
    {
      hide Adopted, Swept, Left, Inv, Unique;
      ghost var ps := list;
      ghost var me :| me in ps && me.pid == x && !me.zombie;
      TerminateKeeps(ps, nextPid, me, status);
      var init := FindAlive(INIT, x);
      var heir: nat := if init then INIT else 0;
      assert heir == Heir(ps, x);
      var zombieForInit := GiveAway(x, heir);
      Sweep(x);
      told := [];
      if init && zombieForInit {
        told := [INIT];
      }
      MeSwept(ps, nextPid, me);
      var parent := Depart(x, status);
      if parent != 0 {
        told := told + [parent];
      }
      forall p | p in ps && p.ppid == x
        ensures if x != 1 && exists i :: i in ps && i.pid == 1 && !i.zombie then Proc(p.pid, 1, p.zombie, p.status) in list
                else p.zombie || Proc(p.pid, 0, false, p.status) in list
      {
        ChildrenOf(ps, nextPid, me, status, p);
      }
    }

    // The process itself: a zombie from now on if its parent lives, gone otherwise.
    method Depart(x: nat, status: int) returns (parent: nat)
      requires IndexOf(list, x) < |list|
      modifies this`list
      ensures list == Left(old(list), x, status)
      ensures var me := old(list)[IndexOf(old(list), x)];
              parent == if HasParent(old(list), me) then me.ppid else 0
    {
      var i := IndexAt(x);
      if list[i].ppid != 0 {
        var found := FindAlive(list[i].ppid, 0);
        if found {
          parent := list[i].ppid;
          list := list[i := list[i].(zombie := true, status := status)];
          return;
        }
      }
      list := list[..i] + list[i + 1..];
      parent := 0;
    }

    // Is there a live process with this pid other than x?
    method FindAlive(pid: nat, x: nat) returns (found: bool)
      ensures found <==> pid != x && Alive(list, pid)
    {
      found := false;
      var i := 0;
      while i < |list|
        invariant i <= |list|
        invariant found <==> exists j :: 0 <= j < i && list[j].pid == pid && !list[j].zombie && list[j].pid != x
      {
        if list[i].pid == pid && !list[i].zombie && list[i].pid != x {
          found := true;
        }
        i := i + 1;
      }
      if found {
        ghost var j :| 0 <= j < i && list[j].pid == pid && !list[j].zombie && list[j].pid != x;
        assert list[j] in list;
      }
    }

    method IndexAt(pid: nat) returns (i: nat)
      ensures i == IndexOf(list, pid)
    {
      i := 0;
      while i < |list| && list[i].pid != pid
        invariant i <= |list| && IndexOf(list, pid) == i + IndexOf(list[i..], pid)
      {
        assert list[i..][1..] == list[i + 1..];
        i := i + 1;
      }
    }

    // The children of x go to the heir; says whether one of them is a zombie.
    method GiveAway(x: nat, heir: nat) returns (zombie: bool)
      modifies this`list
      ensures list == Adopted(old(list), x, heir)
      ensures zombie <==> exists p :: p in old(list) && p.pid != x && p.ppid == x && p.zombie
    {
      ghost var ps := list;
      zombie := false;
      var i := 0;
      while i < |list|
        invariant i <= |list| == |ps|
        invariant forall j :: 0 <= j < i ==> list[j] == Adopt(ps[j], x, heir)
        invariant forall j :: i <= j < |ps| ==> list[j] == ps[j]
        invariant zombie <==> exists j :: 0 <= j < i && ps[j].pid != x && ps[j].ppid == x && ps[j].zombie
      {
        var p := list[i];
        if p.pid != x && p.ppid == x {
          list := list[i := p.(ppid := heir)];
          if p.zombie {
            zombie := true;
          }
        }
        i := i + 1;
      }
      if zombie {
        ghost var j :| 0 <= j < i && ps[j].pid != x && ps[j].ppid == x && ps[j].zombie;
        assert ps[j] in ps;
      }
      assert list == Adopted(ps, x, heir);
    }

    method Sweep(x: nat)
      modifies this`list
      ensures list == Swept(old(list), x)
    {
      hide Swept;
      ghost var ps := list;
      var i := 0;
      assert list[..0] == [] && list[0..] == list;
      while i < |list|
        invariant i <= |list|
        invariant list[..i] + Swept(list[i..], x) == Swept(ps, x)
        decreases |list| - i
      {
        SweepStep(list, i, x);
        if Orphaned(list[i], x) {
          list := list[..i] + list[i + 1..];
        } else {
          i := i + 1;
        }
      }
      SweepEnd(list, x);
    }

    // process_wait_child: -1 without a child that matches, 0 if none of them is dead yet.
    method WaitChild(parent: nat, want: int) returns (r: int, status: int)
      requires Valid()
      modifies this`list
      ensures Valid()
      ensures r == -1 <==> forall p :: p in old(list) ==> !Matches(p, parent, want)
      ensures r == -1 <==> forall p :: p in old(list) && p.ppid == parent ==> want > 0 && p.pid != want
      ensures r > 0 <==> Reapable(old(list), parent, want)
      ensures r > 0 <==> exists p :: p in old(list) && p.ppid == parent && p.zombie && (want <= 0 || p.pid == want)
      ensures r > 0 ==>
                && (want <= 0 || r == want)
                && (exists p :: p in old(list) && p.pid == r && p.ppid == parent && p.zombie && p.status == status)
                && (forall p :: p in list <==> p in old(list) && p.pid != r)
      ensures r <= 0 ==> (r == 0 || r == -1) && list == old(list)
      ensures r > 0 ==> var i := FirstZombie(old(list), parent, want);
                        i < |old(list)| && r == old(list)[i].pid && status == old(list)[i].status
                        && list == Without(old(list), old(list)[i].pid)
    {
      hide Inv, Unique, Matches, Without, IndexOf, FirstZombie;
      WantedChildren(list, parent, want);
      var have, i := FindZombie(parent, want);
      r, status := if have then 0 else -1, 0;
      if i < |list| {
        var z := list[i];
        ZombieFits(list, nextPid, z);
        var k := IndexAt(z.pid);
        WithoutAt(list, z.pid);
        list := list[..k] + list[k + 1..];
        r, status := z.pid, z.status;
      }
    }

    // The loop of process_wait_child: is there a match, and where is the first dead one?
    method FindZombie(parent: nat, want: int) returns (have: bool, at: nat)
      ensures have <==> exists p :: p in list && Matches(p, parent, want)
      ensures at == FirstZombie(list, parent, want)
      ensures at < |list| <==> Reapable(list, parent, want)
    {
      have := false;
      var i := 0;
      while i < |list|
        invariant i <= |list| && have == exists j :: 0 <= j < i && Matches(list[j], parent, want)
        invariant forall j :: 0 <= j < i ==> !(Matches(list[j], parent, want) && list[j].zombie)
      {
        if Matches(list[i], parent, want) {
          have := true;
          assert list[i] in list;
          if list[i].zombie {
            FirstZombieIs(list, parent, want, i);
            return true, i;
          }
        }
        i := i + 1;
      }
      FirstZombieIs(list, parent, want, i);
      return have, i;
    }
  }

  lemma WithoutAt(ps: seq<Proc>, pid: nat)
    ensures var k := IndexOf(ps, pid); k < |ps| ==> Without(ps, pid) == ps[..k] + ps[k + 1..]
  {
  }

  lemma WantedChildren(ps: seq<Proc>, parent: nat, want: int)
    ensures forall p :: Matches(p, parent, want) <==> p.ppid == parent && (want <= 0 || p.pid == want)
  {
  }

  // A reaped zombie is where its pid says, and is nobody's parent.
  lemma ZombieFits(ps: seq<Proc>, next: nat, z: Proc)
    requires Inv(ps, next) && z in ps && z.zombie
    ensures IndexOf(ps, z.pid) < |ps| && ps[IndexOf(ps, z.pid)] == z && z.pid > 0
    ensures Inv(Without(ps, z.pid), next)
    ensures forall p :: p in Without(ps, z.pid) <==> p in ps && p.pid != z.pid
  {
    assert Fits(ps, next, z);
    WithoutIs(ps, z.pid);
    ReapKeeps(ps, next, z);
    IndexOfMember(ps, z);
  }

  lemma SweepStep(ps: seq<Proc>, i: nat, x: nat)
    requires i < |ps|
    ensures var qs := ps[..i] + ps[i + 1..];
            ps[..i] + Swept(ps[i..], x)
            == if Orphaned(ps[i], x) then qs[..i] + Swept(qs[i..], x) else ps[..i + 1] + Swept(ps[i + 1..], x)
  {
    var qs := ps[..i] + ps[i + 1..];
    var rest := Swept(ps[i + 1..], x);
    assert ps[i..][1..] == ps[i + 1..];
    if Orphaned(ps[i], x) {
      assert qs[..i] == ps[..i] && qs[i..] == ps[i + 1..];
      assert Swept(ps[i..], x) == [] + rest == rest;
    } else {
      assert ps[..i + 1] + rest == ps[..i] + ([ps[i]] + rest);
    }
  }

  lemma SweepEnd(ps: seq<Proc>, x: nat)
    ensures ps[..|ps|] + Swept(ps[|ps|..], x) == ps
  {
  }

  lemma FirstZombieIs(ps: seq<Proc>, parent: nat, want: int, i: nat)
    requires i <= |ps| && (i < |ps| ==> Matches(ps[i], parent, want) && ps[i].zombie)
    requires forall j :: 0 <= j < i ==> !(Matches(ps[j], parent, want) && ps[j].zombie)
    ensures FirstZombie(ps, parent, want) == i
  {
  }

  // The exiting process is not swept away, and still has the parent it had.
  lemma MeSwept(ps: seq<Proc>, next: nat, me: Proc)
    requires Inv(ps, next) && me in ps && !me.zombie
    ensures IndexOf(ps, me.pid) < |ps| && ps[IndexOf(ps, me.pid)] == me
    ensures var qs := Swept(Adopted(ps, me.pid, Heir(ps, me.pid)), me.pid);
            && IndexOf(qs, me.pid) < |qs| && qs[IndexOf(qs, me.pid)] == me
            && (HasParent(qs, me) <==> HasParent(ps, me))
  {
    var x, heir := me.pid, Heir(ps, me.pid);
    AdoptedIs(ps, x, heir);
    SweptIs(Adopted(ps, x, heir), x);
    assert me == Adopt(me, x, heir);
    IndexOfMember(ps, me);
    IndexOfMember(Swept(Adopted(ps, x, heir), x), me);
    ParentSurvives(ps, next, me);
  }
}
