/** keyboard.c: the ring buffer between the keyboard interrupt and its readers, and its use of
    the sleep/wake handshake. */
module Keyboard {
  import opened Threads
  import opened Handshake

  const KBD_BUF_SIZE: nat := 256
  // One position stays empty, to tell a full buffer from an empty one.
  const CAPACITY: nat := KBD_BUF_SIZE - 1

  // ---- the queue the buffer stands for ----

  // A character for which there is no room is dropped.
  function Pushed(q: seq<char>, c: char): seq<char> {
    if |q| < CAPACITY then q + [c] else q
  }

  // What a reader with room for this many characters takes: up to the end of the line.
  function Line(q: seq<char>, room: nat): (line: seq<char>)
    ensures line <= q && |line| <= room
  {
    if q == [] || room == 0 then []
    else if q[0] == '\n' then [q[0]]
    else [q[0]] + Line(q[1..], room - 1)
  }

  // A line ends at its newline and nowhere earlier, unless the room or the queue ends first.
  lemma {:induction false} LineEnds(q: seq<char>, room: nat)
    ensures var line := Line(q, room);
            && (forall i :: 0 <= i < |line| - 1 ==> line[i] != '\n')
            && (line == q || |line| == room || (line != [] && line[|line| - 1] == '\n'))
    decreases |q|
  {
    if q != [] && room != 0 && q[0] != '\n' {
      LineEnds(q[1..], room - 1);
    }
  }

  // The characters from position tail on, around the end of the array if need be.
  function Ring(buf: seq<char>, tail: nat, n: nat): (q: seq<char>)
    requires |buf| == KBD_BUF_SIZE
    ensures |q| == n
  {
    seq(n, i requires 0 <= i < n => buf[(tail + i) % KBD_BUF_SIZE])
  }

  function Count(tail: nat, head: nat): nat
    requires tail < KBD_BUF_SIZE
  {
    if tail <= head then head - tail else head + KBD_BUF_SIZE - tail
  }

  lemma RingPush(buf: seq<char>, tail: nat, head: nat, c: char)
    requires |buf| == KBD_BUF_SIZE && tail < KBD_BUF_SIZE && head < KBD_BUF_SIZE && (head + 1) % KBD_BUF_SIZE != tail
    ensures Ring(buf[head := c], tail, Count(tail, (head + 1) % KBD_BUF_SIZE)) == Ring(buf, tail, Count(tail, head)) + [c]
    ensures Count(tail, head) < CAPACITY
  {
  }

  lemma NextSlot(tail: nat, i: nat)
    ensures ((tail + 1) % KBD_BUF_SIZE + i) % KBD_BUF_SIZE == (tail + (i + 1)) % KBD_BUF_SIZE
  {
  }

  lemma RingPop(buf: seq<char>, tail: nat, head: nat)
    requires |buf| == KBD_BUF_SIZE && tail < KBD_BUF_SIZE && head < KBD_BUF_SIZE && head != tail
    ensures Ring(buf, tail, Count(tail, head)) == [buf[tail]] + Ring(buf, (tail + 1) % KBD_BUF_SIZE, Count((tail + 1) % KBD_BUF_SIZE, head))
  {
    var next, n := (tail + 1) % KBD_BUF_SIZE, Count(tail, head);
    var front, rest := Ring(buf, tail, n), Ring(buf, next, n - 1);
    assert Count(next, head) == n - 1;
    forall i | 0 <= i < n - 1 ensures rest[i] == front[1..][i] {
      NextSlot(tail, i);
    }
  }

  class Buffer {
    const buf: array<char>
    var head: nat
    var tail: nat

    ghost predicate Valid()
      reads this
    {
      buf.Length == KBD_BUF_SIZE && head < KBD_BUF_SIZE && tail < KBD_BUF_SIZE
    }

    constructor ()
      ensures Valid() && Contents() == []
    {
      buf := new char[KBD_BUF_SIZE](i => '\0');
      head, tail := 0, 0;
    }

    // Oldest first.
    ghost function Contents(): (q: seq<char>)
      reads this, buf
      requires Valid()
      ensures |q| <= CAPACITY
    {
      Ring(buf[..], tail, Count(tail, head))
    }

    // kbd_push, before it wakes the readers
    method Push(c: char)
      requires Valid()
      modifies this`head, buf
      ensures Valid() && Contents() == Pushed(old(Contents()), c)
      ensures |old(Contents())| < 255 ==> Contents() == old(Contents()) + [c]
      ensures |old(Contents())| == 255 ==> Contents() == old(Contents())
    {
      hide Ring;
      var next := (head + 1) % KBD_BUF_SIZE;
      if next != tail {
        buf[head] := c;
        head := next;
        RingPush(old(buf[..]), tail, old(head), c);
      }
    }

    // kbd_pop
    method Pop() returns (ok: bool, c: char)
      requires Valid()
      modifies this`tail
      ensures Valid()
      ensures ok <==> old(Contents()) != []
      ensures ok ==> old(Contents()) == [c] + Contents()
      ensures !ok ==> Contents() == []
    {
      ok := head != tail;
      c := '\0';
      if ok {
        c := buf[tail];
        tail := (tail + 1) % KBD_BUF_SIZE;
        RingPop(buf[..], old(tail), head);
      }
    }

    // keyboard_read between two sleeps: what it copies out, and whether it is done.
    method Drain(room: nat) returns (line: seq<char>, done: bool)
      requires Valid() && room > 0
      modifies this`tail
      ensures Valid()
      ensures line == Line(old(Contents()), room) && old(Contents()) == line + Contents()
      ensures done <==> |line| == room || (line != [] && line[|line| - 1] == '\n')
      ensures forall i :: 0 <= i < |line| - 1 ==> line[i] != '\n'
      ensures !done ==> Contents() == []
    {
      hide Ring, Line;
      line := [];
      ghost var q := Contents();
      var ok := true;
      while |line| < room
        invariant Valid() && |line| <= room && q == line + Contents()
        invariant line + Line(Contents(), room - |line|) == Line(q, room)
        invariant forall i :: 0 <= i < |line| ==> line[i] != '\n'
      {
        ghost var rest := Contents();
        var c;
        ok, c := Pop();
        if !ok {
          assert line + [] == line;
          NoRoom(room - |line|);
          return line, false;
        }
        LineTakes(q, line, c, Contents(), room);
        line := line + [c];
        if c == '\n' {
          return line, true;
        }
      }
      NoLine(Contents());
      return line, true;
    }
  }

  lemma NoLine(q: seq<char>)
    ensures Line(q, 0) == []
  {
  }

  lemma NoRoom(room: nat)
    ensures Line([], room) == []
  {
  }

  lemma LineTakes(q: seq<char>, line: seq<char>, c: char, rest: seq<char>, room: nat)
    requires |line| < room && q == line + ([c] + rest) && line + Line([c] + rest, room - |line|) == Line(q, room)
    ensures q == (line + [c]) + rest
    ensures (line + [c]) + (if c == '\n' then [] else Line(rest, room - |line| - 1)) == Line(q, room)
  {
    assert ([c] + rest)[1..] == rest;
    var after := if c == '\n' then [] else Line(rest, room - |line| - 1);
    assert Line([c] + rest, room - |line|) == [c] + after;
    assert line + ([c] + after) == (line + [c]) + after;
  }

  // ---- readers and producers ----

  const KBD_WQ: nat := 1

  // A reader looks for any character at all.
  predicate Input(buffer: seq<char>, q: nat, want: int) {
    q == KBD_WQ && buffer != []
  }

  datatype Event =
    | Cpu(step: Threads.Step)
    | Snapshot(c: nat)   // keyboard_read takes a ticket
    | Empty(c: nat)      // its kbd_pop finds nothing
    | Take               // somebody's kbd_pop takes a character
    | Key(ch: char)      // kbd_push puts a character, or drops it
    | Woken              // a kbd_push has called scheduler_wake_all

  function AsStep(s: World<seq<char>>, e: Event): Handshake.Step<seq<char>> {
    match e
    case Cpu(st) => Sched(st)
    case Snapshot(c) => TakeTicket(c, KBD_WQ, 0)
    case Empty(c) => Look(c)
    case Take => Change(if s.data == [] then [] else s.data[1..], multiset{})
    case Key(ch) => Change(Pushed(s.data, ch), multiset{KBD_WQ})
    case Woken => Notify(KBD_WQ)
  }

  // Of the events, only those of the handshake proper and of the CPUs are restricted.
  ghost predicate Possible(s: World<seq<char>>, e: Event) {
    e.Take? || e.Key? || Handshake.Enabled(Input, s, AsStep(s, e))
  }

  ghost predicate PossibleRun(s: World<seq<char>>, es: seq<Event>)
    decreases |es|
  {
    es == [] || (Possible(s, es[0]) && PossibleRun(Handshake.Next(s, AsStep(s, es[0])), es[1..]))
  }

  function After(s: World<seq<char>>, es: seq<Event>): World<seq<char>>
    decreases |es|
  {
    if es == [] then s else After(Handshake.Next(s, AsStep(s, es[0])), es[1..])
  }

  // Pushes that have not called scheduler_wake_all yet.
  function MidPush(es: seq<Event>): int {
    if es == [] then 0 else (if es[0].Key? then 1 else if es[0].Woken? then -1 else 0) + MidPush(es[1..])
  }

  lemma {:induction false} RunsKeep(s: World<seq<char>>, es: seq<Event>)
    requires Handshake.Inv(Input, s) && PossibleRun(s, es)
    ensures Handshake.Inv(Input, After(s, es))
    ensures After(s, es).owed[KBD_WQ] == s.owed[KBD_WQ] + MidPush(es)
    decreases |es|
  {
    if es != [] {
      Handshake.StepKeeps(Input, s, AsStep(s, es[0]));
      RunsKeep(Handshake.Next(s, AsStep(s, es[0])), es[1..]);
    }
  }

  // A reader is asleep beside a non-empty buffer, in the queue's list or still in a slot of its CPU,
  // only while some producer is between its push and its wake-up.
  lemma ReaderSleeps(idle: seq<nat>, queues: set<nat>, es: seq<Event>, t: nat)
    requires Bootable(idle, queues) && PossibleRun(Handshake.Start(idle, queues, []), es)
    requires AsleepOn(After(Handshake.Start(idle, queues, []), es).sys, t, KBD_WQ)
    ensures After(Handshake.Start(idle, queues, []), es).data != [] ==> MidPush(es) > 0
  {
    var s0 := Handshake.Start<seq<char>>(idle, queues, []);
    BootKeeps(idle, queues);
    RunsKeep(s0, es);
    var s := After(s0, es);
    assert Registered(s, t) && Good(Input, s, s.waits[t]);
  }

  lemma ListedReaderSleeps(idle: seq<nat>, queues: set<nat>, es: seq<Event>, i: nat)
    requires Bootable(idle, queues) && PossibleRun(Handshake.Start(idle, queues, []), es)
    requires var s := After(Handshake.Start(idle, queues, []), es); KBD_WQ in s.sys.queues && i < |s.sys.queues[KBD_WQ].list|
    ensures After(Handshake.Start(idle, queues, []), es).data != [] ==> MidPush(es) > 0
  {
    var s0 := Handshake.Start<seq<char>>(idle, queues, []);
    BootKeeps(idle, queues);
    RunsKeep(s0, es);
    SleepersAreCurrent(After(s0, es).sys, KBD_WQ, i);
    ReaderSleeps(idle, queues, es, After(s0, es).sys.queues[KBD_WQ].list[i]);
  }
}
