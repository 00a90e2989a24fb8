/** What becomes of threads over whole runs: who has exited never runs again and is freed, who
    sleeps stays asleep until woken, and who is preempted queues up behind the others. */
module ThreadFates {
  import opened Threads

  // ---- who has exited ----

  // With this many passes of its CPU to go before the reaper may have it.
  ghost predicate Leaving(s: Sys, c: nat, t: nat, need: nat) {
    if need == 0 then t !in s.tcb || t in s.zombies else need <= 2 && Doomed(s, c, t, need)
  }

  // The address is not given out again.
  ghost predicate NotRemade(steps: seq<Step>, t: nat) {
    forall k :: 0 <= k < |steps| ==> steps[k] != Create(t)
  }

  function LessOne(n: nat): nat {
    if n == 0 then 0 else n - 1
  }

  lemma KeysStay(s: Sys, step: Step)
    requires Inv(s) && Enabled(s, step) && !step.Create?
    ensures Next(s, step).tcb.Keys <= s.tcb.Keys
  {
    hide OnePlace, AllPlaced, Schedule;
    match step
    case Pass(c) =>
      PassIs(s, c);
      var s1 := Settled(s, c);
      SettledKeys(s, c);
      assert At(s1, InReady(0)) == Slot(s1.ready, 0) && At(s1, OnCpu(c)) == s1.cur[c];
      assert s1.ready != [] ==> Fits(s1, InReady(0), s1.ready[0]);
      assert Fits(s1, OnCpu(c), s1.cur[c]);
      hide Settled, AllFit;
    case Block(c, q, n) => assert At(s, OnCpu(c)) == s.cur[c] && Fits(s, OnCpu(c), s.cur[c]);
    case Unblock(c) => assert At(s, OnCpu(c)) == s.cur[c] && Fits(s, OnCpu(c), s.cur[c]);
    case Exit(c) => assert At(s, OnCpu(c)) == s.cur[c] && Fits(s, OnCpu(c), s.cur[c]);
    case _ =>
  }

  lemma SettledKeys(s: Sys, c: nat)
    requires Inv(s) && c < |s.cur|
    ensures Settled(s, c).tcb.Keys == s.tcb.Keys
    ensures forall t :: t in s.zombies ==> t in Settled(s, c).zombies
    ensures Slot(s.dying, c) != NULL ==> Slot(s.dying, c) in Settled(s, c).zombies
  {
    hide OnePlace, AllPlaced;
    assert At(s, Parked(c)) == Slot(s.park, c);
    assert Slot(s.park, c) != NULL ==> Fits(s, Parked(c), Slot(s.park, c));
    hide AllFit;
  }

  lemma PassZombies(s: Sys, c: nat)
    requires Inv(s) && c < |s.cur|
    ensures Schedule(s, c).zombies == Settled(s, c).zombies
  {
    PassIs(s, c);
    hide Inv, Settled, Schedule;
  }

  lemma DeadStays(s: Sys, step: Step, t: nat)
    requires Inv(s) && Enabled(s, step) && step != Create(t) && (t !in s.tcb || t in s.zombies)
    ensures t !in Next(s, step).tcb || t in Next(s, step).zombies
  {
    if t !in s.tcb {
      if !step.Create? {
        KeysStay(s, step);
      }
    } else if step.Pass? {
      SettledKeys(s, step.c);
      PassZombies(s, step.c);
      hide Schedule, Settled, Inv;
    }
  }

  lemma LeavingStep(s: Sys, step: Step, c: nat, t: nat, need: nat)
    requires Inv(s) && Enabled(s, step) && t != NULL && c < |s.cur| && step != Create(t) && Leaving(s, c, t, need)
    ensures |Next(s, step).cur| == |s.cur|
    ensures Leaving(Next(s, step), c, t, if PassOn(step, c) then LessOne(need) else need)
  {
    if need == 0 {
      DeadStays(s, step, t);
      SameCpus(s, step);
    } else {
      DoomedStep(s, step, c, t, need);
      if need == 1 && PassOn(step, c) {
        SettledKeys(s, c);
        PassZombies(s, c);
      }
    }
  }

  lemma SameCpus(s: Sys, step: Step)
    requires Inv(s) && Enabled(s, step)
    ensures |Next(s, step).cur| == |s.cur| && Next(s, step).idle == s.idle
  {
    if step.Pass? {
      PassIs(s, step.c);
      hide Inv, Settled, Schedule;
    }
  }

  lemma NotRemadeSoon(steps: seq<Step>, t: nat)
    requires NotRemade(steps, t) && steps != []
    ensures steps[0] != Create(t) && NotRemade(steps[1..], t)
  {
  }

  lemma {:induction false} LeavingRun(s: Sys, steps: seq<Step>, c: nat, t: nat, need: nat)
    requires Inv(s) && Legal(s, steps) && t != NULL && c < |s.cur| && NotRemade(steps, t) && Leaving(s, c, t, need)
    ensures var done := PassesOn(steps, c);
            Leaving(Run(s, steps), c, t, if done < need then need - done else 0)
    decreases |steps|
  {
    hide Inv, Next, Enabled, Leaving, NotRemade;
    if steps != [] {
      NotRemadeSoon(steps, t);
      StepKeeps(s, steps[0]);
      LeavingStep(s, steps[0], c, t, need);
      LeavingRun(Next(s, steps[0]), steps[1..], c, t, if PassOn(steps[0], c) then LessOne(need) else need);
    }
  }

  // It is on no list that leads back to a CPU.
  lemma LeavingIsGone(s: Sys, c: nat, t: nat, need: nat)
    requires Inv(s) && t != NULL && c < |s.cur| && Leaving(s, c, t, need)
    ensures t !in s.ready && (forall q :: q in s.queues ==> t !in s.queues[q].list)
    ensures need < 2 ==> t !in s.cur
    ensures t in s.tcb ==> s.tcb[t].state == Terminated
  {
    hide AllPlaced, Shaped;
    forall p | At(s, p) == t ensures !p.InReady? && !p.InQueue? && (need < 2 ==> !p.OnCpu?) {
      assert Fits(s, p, t);
      var o := LastPlace(s, c, t, need);
      assert At(s, o) == t && p == o;
    }
    if t in s.tcb {
      var o := LastPlace(s, c, t, need);
      assert At(s, o) == t && Fits(s, o, t);
    }
    hide Inv, Leaving;
    NowhereIn(s, t, need < 2);
  }

  lemma NowhereIn(s: Sys, t: nat, off: bool)
    requires t != NULL && forall p :: At(s, p) == t ==> !p.InReady? && !p.InQueue? && (off ==> !p.OnCpu?)
    ensures t !in s.ready && (forall q :: q in s.queues ==> t !in s.queues[q].list)
    ensures off ==> t !in s.cur
  {
    forall i | 0 <= i < |s.ready| ensures s.ready[i] != t {
      assert At(s, InReady(i)) == s.ready[i];
    }
    forall q, i | q in s.queues && 0 <= i < |s.queues[q].list| ensures s.queues[q].list[i] != t {
      assert At(s, InQueue(q, i)) == s.queues[q].list[i];
    }
    forall d | 0 <= d < |s.cur| ensures off ==> s.cur[d] != t {
      assert At(s, OnCpu(d)) == s.cur[d];
    }
  }

  lemma LastPlace(s: Sys, c: nat, t: nat, need: nat) returns (p: Place)
    requires Leaving(s, c, t, need) && t in s.tcb && t != NULL
    ensures At(s, p) == t && (p.Dead? || p == Dying(c) || (need == 2 && p == OnCpu(c) && s.tcb[t].state == Terminated))
  {
    if need == 0 {
      var i :| 0 <= i < |s.zombies| && s.zombies[i] == t;
      p := Dead(i);
    } else {
      p := if need == 2 then OnCpu(c) else Dying(c);
    }
  }

  // A thread that exits never gets to run again: it is never ready, is on no CPU once its own has
  // been through a pass, and after two passes it is freed by the next reaping, if it has not been.
  lemma ExitedIsGone(s: Sys, c: nat, steps: seq<Step>)
    requires Reachable(s) && c < |s.cur| == |s.idle| && s.cur[c] != s.idle[c] && s.cur[c] in s.tcb && s.tcb[s.cur[c]].state == Running
    requires Legal(Next(s, Exit(c)), steps) && NotRemade(steps, s.cur[c])
    ensures var t, s' := s.cur[c], Run(Next(s, Exit(c)), steps);
            && t !in s'.ready && (forall q :: q in s'.queues ==> t !in s'.queues[q].list)
            && (t in s'.tcb ==> s'.tcb[t].state == Terminated)
            && (PassesOn(steps, c) >= 1 ==> t !in s'.cur)
            && (PassesOn(steps, c) >= 2 ==> (t in s'.zombies || t !in s'.tcb) && t !in Next(s', Collect).tcb)
  {
    hide Inv, Leaving, Run, Next, Legal, NotRemade, Reachable;
    ReachableInv(s);
    var t, s1 := s.cur[c], Next(s, Exit(c));
    JustExited(s, c);
    LeavingRun(s1, steps, c, t, 2);
    RunKeeps(s1, steps);
    SameCpusRun(s1, steps);
    var done := PassesOn(steps, c);
    LeavingIsGone(Run(s1, steps), c, t, if done < 2 then 2 - done else 0);
    DeadReaped(Run(s1, steps), c, t, if done < 2 then 2 - done else 0);
  }

  lemma JustExited(s: Sys, c: nat)
    requires Inv(s) && c < |s.cur| == |s.idle| && s.cur[c] != s.idle[c] && s.cur[c] in s.tcb && s.tcb[s.cur[c]].state == Running
    ensures Inv(Next(s, Exit(c))) && Leaving(Next(s, Exit(c)), c, s.cur[c], 2) && |Next(s, Exit(c)).cur| == |s.cur| && s.cur[c] != NULL
  {
    hide OnePlace, AllFit, AllPlaced;
    StepKeeps(s, Exit(c));
  }

  lemma DeadReaped(s: Sys, c: nat, t: nat, need: nat)
    requires Leaving(s, c, t, need)
    ensures need == 0 ==> (t in s.zombies || t !in s.tcb) && t !in Next(s, Collect).tcb
  {
  }

  lemma {:induction false} SameCpusRun(s: Sys, steps: seq<Step>)
    requires Inv(s) && Legal(s, steps)
    ensures |Run(s, steps).cur| == |s.cur| && Run(s, steps).idle == s.idle
    decreases |steps|
  {
    if steps != [] {
      StepKeeps(s, steps[0]);
      SameCpus(s, steps[0]);
      hide Inv, Next, Enabled;
      SameCpusRun(Next(s, steps[0]), steps[1..]);
    }
  }

  // ---- who sleeps ----

  // Asleep on q with a ticket that is still good, and off every CPU.
  ghost predicate Away(s: Sys, t: nat, q: nat) {
    AsleepOn(s, t, q) && t !in s.cur
  }

  lemma AwayPlace(s: Sys, t: nat, q: nat) returns (p: Place)
    requires Inv(s) && Away(s, t, q)
    ensures At(s, p) == t && t != NULL && t !in s.idle && (p.Parked? || (p.InQueue? && p.q == q))
  {
    forall d | 0 <= d < |s.idle| ensures s.idle[d] != t {
    }
    assert Placed(s, t);
    p :| At(s, p) == t;
    assert Fits(s, p, t);
  }

  // A pass leaves the threads alone that it neither takes up nor lets go.
  lemma PassSpares(s: Sys, c: nat, t: nat, q: nat)
    requires Inv(s) && c < |s.cur| && Away(s, t, q)
    ensures t in Settled(s, c).tcb && Settled(s, c).tcb[t] == s.tcb[t] && Settled(s, c).queues.Keys == s.queues.Keys
  {
    assert At(s, Parked(c)) == Slot(s.park, c);
    hide OnePlace, AllFit, AllPlaced, Shaped;
  }

  lemma AwayPass(s: Sys, c: nat, t: nat, q: nat)
    requires Inv(s) && c < |s.cur| && Away(s, t, q)
    ensures Away(Schedule(s, c), t, q)
  {
    hide AllPlaced, Shaped, OnePlace, Schedule;
    var s1 := Settled(s, c);
    PassSpares(s, c, t, q);
    PassIs(s, c);
    PassTicks(s, c, q);
    assert s1.ready != [] ==> At(s1, InReady(0)) == s1.ready[0] && (s1.ready[0] != NULL ==> Fits(s1, InReady(0), s1.ready[0]));
    assert t !in s1.cur && t != Slot(s1.idle, c) by {
      var p := AwayPlace(s, t, q);
      assert At(s, p) == t;
    }
    assert NextUp(s1, c) != t by {
      assert s1.tcb[t].state == Blocked;
      assert t != NULL by {
        var p := AwayPlace(s, t, q);
      }
    }
    hide Settled, AllFit;
  }

  lemma AwayStep(s: Sys, step: Step, t: nat, q: nat)
    requires Inv(s) && Enabled(s, step) && step != Wake(q) && Away(s, t, q)
    ensures Away(Next(s, step), t, q)
  {
    hide Schedule, AllPlaced, OnePlace;
    if step.Pass? {
      AwayPass(s, step.c, t, q);
    } else if step.Wake? {
      assert forall i :: 0 <= i < |s.Q(step.q).list| ==> s.Q(step.q).list[i] == At(s, InQueue(step.q, i));
    } else if step.Collect? {
      assert forall i :: 0 <= i < |s.zombies| ==> s.zombies[i] == At(s, Dead(i));
    }
  }

  // Once in the queue's list it stays there until the queue is woken.
  lemma ListedStays(s: Sys, step: Step, t: nat, q: nat)
    requires Inv(s) && Enabled(s, step) && step != Wake(q) && q in s.queues && t in s.queues[q].list
    ensures q in Next(s, step).queues && t in Next(s, step).queues[q].list
  {
    hide Schedule, AllPlaced, OnePlace, AllFit;
    if step.Pass? {
      PassLists(s, step.c, q);
    }
  }

  lemma PassLists(s: Sys, c: nat, q: nat)
    requires Inv(s) && c < |s.cur| && q in s.queues
    ensures q in Schedule(s, c).queues && forall t :: t in s.queues[q].list ==> t in Schedule(s, c).queues[q].list
    ensures Slot(s.park, c) != NULL && AsleepOn(s, Slot(s.park, c), q) ==> Slot(s.park, c) in Schedule(s, c).queues[q].list
  {
    SettledLists(s, c, q);
    PassQueues(s, c);
    hide Inv, Schedule, Settled;
  }

  lemma SettledLists(s: Sys, c: nat, q: nat)
    requires Inv(s) && c < |s.cur| && q in s.queues
    ensures q in Settled(s, c).queues && forall t :: t in s.queues[q].list ==> t in Settled(s, c).queues[q].list
    ensures Slot(s.park, c) != NULL && AsleepOn(s, Slot(s.park, c), q) ==> Slot(s.park, c) in Settled(s, c).queues[q].list
  {
    assert q != NULL;
    hide Inv;
  }

  // A pass puts a thread parked on its CPU at the head of its queue's list, if the queue has not moved
  // on, and one that died there at the head of the zombies; no other queue's list changes.
  lemma PassFiles(s: Sys, c: nat)
    requires Inv(s) && c < |s.cur| == |s.park| == |s.dying|
    ensures var t, s' := s.park[c], Next(s, Pass(c));
            && (t != NULL && t in s.tcb && s.tcb[t].waitingOn in s.queues && s.queues[s.tcb[t].waitingOn].tick == s.tcb[t].waitSeq ==>
                  var q := s.tcb[t].waitingOn;
                  s'.queues == s.queues[q := Queue([t] + s.queues[q].list, s.queues[q].tick)])
            && (t == NULL || t !in s.tcb || s.tcb[t].waitingOn !in s.queues || s.queues[s.tcb[t].waitingOn].tick != s.tcb[t].waitSeq ==>
                  s'.queues == s.queues)
    ensures Next(s, Pass(c)).zombies == if s.dying[c] == NULL then s.zombies else [s.dying[c]] + s.zombies
  {
    PassQueues(s, c);
    PassZombies(s, c);
    assert At(s, Parked(c)) == s.park[c];
    assert s.park[c] != NULL ==> Fits(s, Parked(c), s.park[c]);
    hide Schedule, OnePlace, AllPlaced, AllFit;
  }

  lemma PassQueues(s: Sys, c: nat)
    requires Inv(s) && c < |s.cur|
    ensures Schedule(s, c).queues == Settled(s, c).queues
  {
    PassIs(s, c);
    hide Inv, Schedule, Settled;
  }

  // In the list, or parked on c and on its way there.
  ghost predicate Bound(s: Sys, t: nat, q: nat, c: nat, passed: bool) {
    q in s.queues && (t in s.queues[q].list || (!passed && Slot(s.park, c) == t && t != NULL))
  }

  lemma BoundStep(s: Sys, step: Step, t: nat, q: nat, c: nat, passed: bool)
    requires Inv(s) && Enabled(s, step) && step != Wake(q) && Away(s, t, q) && c < |s.cur| && Bound(s, t, q, c, passed)
    ensures Bound(Next(s, step), t, q, c, passed || PassOn(step, c))
  {
    hide Inv, Enabled, Next, Away;
    if t in s.queues[q].list {
      ListedStays(s, step, t, q);
    } else if PassOn(step, c) {
      ParkedListed(s, c, t, q);
    } else {
      ParkedStays(s, step, c, t, q);
    }
  }

  lemma ParkedListed(s: Sys, c: nat, t: nat, q: nat)
    requires Inv(s) && c < |s.cur| && Away(s, t, q) && Slot(s.park, c) == t && t != NULL
    ensures q in Next(s, Pass(c)).queues && t in Next(s, Pass(c)).queues[q].list
  {
    hide Inv, Schedule;
    PassLists(s, c, q);
  }

  lemma ParkedStays(s: Sys, step: Step, c: nat, t: nat, q: nat)
    requires Inv(s) && Enabled(s, step) && c < |s.cur| && !PassOn(step, c) && Slot(s.park, c) == t && t != NULL && q in s.queues
    ensures q in Next(s, step).queues && Slot(Next(s, step).park, c) == t
  {
    SlotStays(s, step, c, Parked(c));
    TicksGrow(s, step, q);
    hide Inv, Next, Enabled;
  }

  // No thread is woken for nothing: off its CPU and asleep on a good ticket it stays asleep as long
  // as nobody wakes the queue, and is in the queue's list once the CPU it slept on has passed on.
  lemma {:induction false} StaysAsleep(s: Sys, steps: seq<Step>, t: nat, q: nat, c: nat, passed: bool)
    requires Inv(s) && Legal(s, steps) && Away(s, t, q) && c < |s.cur| && Bound(s, t, q, c, passed)
    requires forall k :: 0 <= k < |steps| ==> steps[k] != Wake(q)
    ensures Away(Run(s, steps), t, q) && Bound(Run(s, steps), t, q, c, passed || PassesOn(steps, c) > 0)
    decreases |steps|
  {
    hide Inv, Next, Enabled, Away, Bound;
    if steps != [] {
      assert forall k :: 0 <= k < |steps[1..]| ==> steps[1..][k] == steps[k + 1];
      StepKeeps(s, steps[0]);
      AwayStep(s, steps[0], t, q);
      BoundStep(s, steps[0], t, q, c, passed);
      SameCpus(s, steps[0]);
      StaysAsleep(Next(s, steps[0]), steps[1..], t, q, c, passed || PassOn(steps[0], c));
    }
  }

  lemma NotReady(s: Sys, t: nat, q: nat)
    requires Inv(s) && Away(s, t, q)
    ensures t !in s.ready && t != NULL && s.tcb[t].state == Blocked
  {
    var p := AwayPlace(s, t, q);
    forall i | 0 <= i < |s.ready| ensures s.ready[i] != t {
      assert At(s, InReady(i)) == s.ready[i];
    }
  }

  // A thread that goes to sleep leaves its CPU at the next pass.
  lemma BlockedLeaves(s: Sys, c: nat, q: nat)
    requires Inv(s) && c < |s.cur| == |s.idle| && s.cur[c] != s.idle[c] && s.cur[c] in s.tcb && s.tcb[s.cur[c]].state == Running
    requires q in s.queues
    ensures var t, s1 := s.cur[c], Next(s, Block(c, q, s.queues[q].tick));
            var s2 := Next(s1, Pass(c));
            Inv(s1) && Inv(s2) && |s2.cur| == |s.cur| && Away(s2, t, q) && Bound(s2, t, q, c, false)
  {
    hide AllPlaced, Schedule;
    var t, s1 := s.cur[c], Next(s, Block(c, q, s.queues[q].tick));
    StepKeeps(s, Block(c, q, s.queues[q].tick));
    StepKeeps(s1, Pass(c));
    hide Shaped, OnePlace, AllFit;
    BlockedSwitches(s1, c, t, q);
  }

  lemma BlockedSwitches(s: Sys, c: nat, t: nat, q: nat)
    requires Inv(s) && c < |s.cur| && s.cur[c] == t && AsleepOn(s, t, q)
    ensures var s' := Schedule(s, c); |s'.cur| == |s.cur| && t !in s'.cur && Slot(s'.park, c) == t && t != NULL && AsleepOn(s', t, q)
  {
    hide AllPlaced, Schedule;
    assert At(s, OnCpu(c)) == t && Fits(s, OnCpu(c), t);
    assert At(s, Parked(c)) == Slot(s.park, c);
    assert t != Slot(s.park, c) && t != NULL;
    PassIs(s, c);
    PassTicks(s, c, q);
    var s1 := Settled(s, c);
    assert s1.tcb[t] == s.tcb[t];
    assert s1.ready != [] ==> At(s1, InReady(0)) == s1.ready[0] && Fits(s1, InReady(0), s1.ready[0]);
    forall d | 0 <= d < |s.cur| && d != c ensures s.cur[d] != t {
      assert At(s, OnCpu(d)) == s.cur[d];
    }
    hide Settled, AllFit, OnePlace;
  }

  // scheduler_wait, over any run: a thread that goes to sleep on a counter that has not moved runs on
  // no CPU and waits in no ready queue from its CPU's next pass on until the queue is woken.
  lemma SleepsUntilWoken(s: Sys, c: nat, q: nat, steps: seq<Step>)
    requires Reachable(s) && q in s.queues
    requires c < |s.cur| == |s.idle| && s.cur[c] != s.idle[c] && s.cur[c] in s.tcb && s.tcb[s.cur[c]].state == Running
    requires Legal(Next(Next(s, Block(c, q, s.queues[q].tick)), Pass(c)), steps)
    requires forall k :: 0 <= k < |steps| ==> steps[k] != Wake(q)
    ensures var t, s' := s.cur[c], Run(Next(Next(s, Block(c, q, s.queues[q].tick)), Pass(c)), steps);
            && t !in s'.cur && t !in s'.ready && t in s'.tcb && s'.tcb[t].state == Blocked
            && (PassesOn(steps, c) > 0 ==> q in s'.queues && t in s'.queues[q].list)
  {
    hide Inv, Next, Legal, Run, Reachable, Away, Bound;
    ReachableInv(s);
    var t, s2 := s.cur[c], Next(Next(s, Block(c, q, s.queues[q].tick)), Pass(c));
    BlockedLeaves(s, c, q);
    StaysAsleep(s2, steps, t, q, c, false);
    RunKeeps(s2, steps);
    NotReady(Run(s2, steps), t, q);
    BoundMeans(Run(s2, steps), t, q, c, PassesOn(steps, c) > 0);
  }

  lemma BoundMeans(s: Sys, t: nat, q: nat, c: nat, passed: bool)
    requires Away(s, t, q) && Bound(s, t, q, c, passed)
    ensures t !in s.cur && t in s.tcb && (passed ==> q in s.queues && t in s.queues[q].list)
  {
  }

  // ---- who runs ----

  // A pass takes up the longest waiting thread; whoever was running and has to make room queues up
  // last, still ready to run; a CPU idles only if nothing is ready; no other CPU is concerned.
  lemma PassServes(s: Sys, c: nat)
    requires Reachable(s) && c < |s.cur| == |s.idle|
    ensures var t, s' := s.cur[c], Next(s, Pass(c));
            && |s'.cur| == |s.cur| && s'.cur[c] in s'.tcb && s'.tcb[s'.cur[c]].state == Running
            && (s.ready != [] ==> s'.cur[c] == s.ready[0])
            && (s'.cur[c] == s.idle[c] ==> s.ready == [] && (t == s.idle[c] || t !in s.tcb || s.tcb[t].state != Running))
            && (t != s.idle[c] && t in s.tcb && s.tcb[t].state == Running ==>
                  s'.cur[c] == t
                  || (s'.ready != [] && s'.ready[|s'.ready| - 1] == t && t in s'.tcb && s'.tcb[t].state == Ready))
            && forall d :: 0 <= d < |s.cur| && d != c ==> s'.cur[d] == s.cur[d]
  {
    hide AllPlaced, Schedule, Reachable;
    ReachableInv(s);
    StepKeeps(s, Pass(c));
    PassIs(s, c);
    var s1, s' := Settled(s, c), Schedule(s, c);
    assert s.ready <= s1.ready && Busy(s, c) == Busy(s1, c) by {
      ReadyGrows(s, c);
    }
    assert s1.ready != [] ==> At(s1, InReady(0)) == s1.ready[0] && Fits(s1, InReady(0), s1.ready[0]);
    assert At(s1, OnCpu(c)) == s1.cur[c] && Fits(s1, OnCpu(c), s1.cur[c]);
    hide Settled, AllFit, OnePlace;
  }

  lemma ReadyGrows(s: Sys, c: nat)
    requires Inv(s) && c < |s.cur|
    ensures s.ready <= Settled(s, c).ready && Busy(s, c) == Busy(Settled(s, c), c)
  {
    assert At(s, OnCpu(c)) == s.cur[c] && Fits(s, OnCpu(c), s.cur[c]);
    assert At(s, Parked(c)) == Slot(s.park, c);
    hide AllPlaced, AllFit, Shaped;
  }
}
