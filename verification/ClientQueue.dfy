/** The notification queue of a client thread: producers push under a lock and raise an
    edge-triggered event, the thread drains the queue (src/h9d/tcpclientthread.cc,
    src/h9d/epoll.cc). */
module ClientQueue {

  type Message = nat

  datatype Pc =
    | CheckRunning
    | Waiting
    | Receiving
    | Draining                                     // at the head of the do-while loop
    | Sending(message: Message, queueEmpty: bool)  // between the lock and the loop's condition
    | Stopped

  /** `event` is the pending asynchronous event. The history: messages in the order pushed, and
      in the order handed to the socket. `assertFailed` is the program's own assertion. */
  datatype State = State(queue: seq<Message>, event: bool, running: bool, pc: Pc,
                         pushed: seq<Message>, sent: seq<Message>, assertFailed: bool)

  const IDLE := State([], false, true, CheckRunning, [], [], false)

  datatype Event =
    | Push(message: Message)    // send_msg, all of it inside the lock
    | Loop                      // the condition of the thread's loop
    | WaitAsync                 // wait reports the asynchronous event alone
    | WaitSocket                // wait reports the socket alone
    | WaitBoth                  // wait reports both
    | RecvDone(open: bool)
    | Pop
    | Sent(open: bool)
    | Close                     // close_connection, from another thread

  /** Reporting the asynchronous event uses it up, whichever branch is taken. */
  function Step(s: State, ev: Event): State {
    match ev
    case Push(m) => s.(queue := s.queue + [m], pushed := s.pushed + [m], event := s.event || |s.queue| == 0)
    case Loop => if s.pc == CheckRunning then s.(pc := if s.running then Waiting else Stopped) else s
    case WaitAsync => if s.pc == Waiting && s.event then s.(event := false, pc := Draining) else s
    case WaitSocket => if s.pc == Waiting && !s.event then s.(pc := Receiving) else s
    case WaitBoth => if s.pc == Waiting && s.event then s.(event := false, pc := Receiving) else s
    case RecvDone(open) =>
      if s.pc == Receiving then s.(pc := CheckRunning, running := s.running && open) else s
    case Pop =>
      if s.pc != Draining then s
      else if s.queue == [] then s.(assertFailed := true)
      else s.(queue := s.queue[1..], pc := Sending(s.queue[0], |s.queue| == 1))
    case Sent(open) =>
      if !s.pc.Sending? then s
      else s.(sent := s.sent + [s.pc.message], running := s.running && open,
              pc := if s.pc.queueEmpty then CheckRunning else Draining)
    case Close => s.(running := false)
  }

  function Run(s: State, evs: seq<Event>): State {
    if evs == [] then s else Step(Run(s, evs[..|evs| - 1]), evs[|evs| - 1])
  }

  /** The drain will look at the queue again. */
  predicate WillDrain(pc: Pc) { pc.Draining? || (pc.Sending? && !pc.queueEmpty) }

  function InHand(pc: Pc): seq<Message> { if pc.Sending? then [pc.message] else [] }

  ghost predicate Inv(s: State) {
    && (s.event || WillDrain(s.pc) ==> s.queue != [])
    && !(s.event && WillDrain(s.pc))
    && s.sent + InHand(s.pc) + s.queue == s.pushed
    && !s.assertFailed
  }

  lemma InvStep(s: State, ev: Event)
    requires Inv(s)
    ensures Inv(Step(s, ev))
  {
    if ev.Push? { assert s.sent + InHand(s.pc) + (s.queue + [ev.message]) == s.pushed + [ev.message]; }
    if ev.Pop? && s.pc.Draining? { assert s.sent + [s.queue[0]] + s.queue[1..] == s.sent + [] + s.queue; }
    if ev.Sent? && s.pc.Sending? { assert s.sent + [s.pc.message] + [] + s.queue == s.sent + [s.pc.message] + s.queue; }
  }

  lemma {:induction false} InvAlways(evs: seq<Event>)
    ensures Inv(Run(IDLE, evs))
  {
    hide Step;
    if evs != [] {
      InvAlways(evs[..|evs| - 1]);
      InvStep(Run(IDLE, evs[..|evs| - 1]), evs[|evs| - 1]);
    }
  }

  /** Over every interleaving: a pending event means a message is queued and no drain is under
      way that will see it, so the assertion holds; messages leave in the order pushed. */
  lemma QueueIsSafe(evs: seq<Event>)
    ensures var s := Run(IDLE, evs);
            && !s.assertFailed
            && (s.event ==> s.queue != [] && !WillDrain(s.pc))
            && s.sent + InHand(s.pc) <= s.pushed && s.queue == s.pushed[|s.sent + InHand(s.pc)|..]
  {
    InvAlways(evs);
    var s := Run(IDLE, evs);
    assert s.pushed[..|s.sent + InHand(s.pc)|] == s.sent + InHand(s.pc);
  }

  // ---- when a message is left behind ----

  /** Messages are queued, and nothing will make the thread look. */
  predicate Stranded(s: State) { s.queue != [] && !s.event && !WillDrain(s.pc) }

  lemma StrandedStep(s: State, ev: Event)
    requires Inv(s)
    ensures Stranded(Step(s, ev)) <==> Stranded(s) || (ev == WaitBoth && s.pc == Waiting && s.event)
  {
  }

  /** Some wait of the run reported the socket and the event together. */
  function Missed(s: State, evs: seq<Event>): bool {
    if evs == [] then false
    else
      var n := |evs| - 1;
      var t := Run(s, evs[..n]);
      Missed(s, evs[..n]) || (evs[n] == WaitBoth && t.pc == Waiting && t.event)
  }

  /** Messages are stranded, for the rest of the run, exactly when some wait reported both. */
  lemma {:induction false} StrandedIffBoth(evs: seq<Event>)
    ensures Stranded(Run(IDLE, evs)) <==> Missed(IDLE, evs)
  {
    hide Step, Stranded;
    if evs == [] {
      NothingStranded();
    } else {
      var n := |evs| - 1;
      StrandedIffBoth(evs[..n]);
      InvAlways(evs[..n]);
      StrandedStep(Run(IDLE, evs[..n]), evs[n]);
    }
  }

  lemma NothingStranded()
    ensures !Stranded(IDLE)
  {
  }

  /** It does happen: one message pushed before the thread waits, and the client's socket
      readable at the same time. */
  lemma OneIsStranded(m: Message)
    ensures var evs := [Push(m), Loop, WaitBoth];
            && Missed(IDLE, evs) && Stranded(Run(IDLE, evs))
            && Run(IDLE, evs) == State([m], false, true, Receiving, [m], [], false)
  {
    var a: seq<Event>, b, c := [Push(m)], [Push(m), Loop], [Push(m), Loop, WaitBoth];
    assert a[..0] == [] && b[..1] == a && c[..2] == b;
    assert Run(IDLE, a) == State([m], true, true, CheckRunning, [m], [], false) by {
      assert Run(IDLE, []) == IDLE && [] + [m] == [m];
    }
    assert Run(IDLE, b) == Run(IDLE, a).(pc := Waiting);
    assert Run(IDLE, c) == Step(Run(IDLE, b), WaitBoth);
  }

  /** From then on the thread takes no message any more, whatever happens. */
  lemma {:induction false} StrandedForever(s: State, evs: seq<Event>)
    requires Inv(s) && Stranded(s)
    ensures Inv(Run(s, evs)) && Stranded(Run(s, evs)) && s.queue <= Run(s, evs).queue
  {
    if evs != [] {
      var n := |evs| - 1;
      StrandedForever(s, evs[..n]);
      InvStep(Run(s, evs[..n]), evs[n]);
      StrandedStep(Run(s, evs[..n]), evs[n]);
    }
  }

  /** Otherwise a thread that waits with no event pending has sent everything. */
  lemma AllSent(evs: seq<Event>)
    requires !Missed(IDLE, evs)
    ensures var s := Run(IDLE, evs); s.pc == Waiting && !s.event ==> s.queue == [] && s.sent == s.pushed
  {
    InvAlways(evs);
    StrandedIffBoth(evs);
  }

  // ---- when the thread stops ----

  /** The socket fails, or the connection is closed from outside. */
  predicate Fails(s: State, ev: Event) {
    || ev == Close
    || (s.pc.Sending? && ev == Sent(false))
    || (s.pc == Receiving && ev == RecvDone(false))
  }

  function Failed(s: State, evs: seq<Event>): bool {
    if evs == [] then false
    else Failed(s, evs[..|evs| - 1]) || Fails(Run(s, evs[..|evs| - 1]), evs[|evs| - 1])
  }

  /** The thread is to go on exactly as long as nothing has failed. */
  lemma {:induction false} RunningIffNothingFailed(evs: seq<Event>)
    ensures Run(IDLE, evs).running <==> !Failed(IDLE, evs)
  {
    if evs != [] { RunningIffNothingFailed(evs[..|evs| - 1]); }
  }

  /** After a failure it never waits again; it stops, once it has sent what it was about to send. */
  lemma {:induction false} NeverWaitsAgain(s: State, evs: seq<Event>)
    requires !s.running && s.pc != Waiting
    ensures var t := Run(s, evs); !t.running && t.pc != Waiting && (t.pc == CheckRunning ==> Step(t, Loop).pc == Stopped)
  {
    if evs != [] { NeverWaitsAgain(s, evs[..|evs| - 1]); }
  }

  /** Steps the thread takes by itself while its socket holds. */
  function NextOwn(pc: Pc): Event {
    match pc
    case Draining => Pop
    case Sending(_, _) => Sent(true)
    case Receiving => RecvDone(true)
    case _ => Loop
  }

  /** Where that leads. */
  function Goal(s: State): Pc {
    if s.pc == Waiting || (s.running && s.pc != Stopped) then Waiting else Stopped
  }

  function Left(pc: Pc): nat {
    match pc
    case Sending(_, _) => 4
    case Draining => 3
    case Receiving => 2
    case CheckRunning => 1
    case _ => 0
  }

  lemma OwnProgress(s: State)
    requires Inv(s) && s.pc != Waiting && s.pc != Stopped
    ensures var t := Step(s, NextOwn(s.pc));
            && Goal(t) == Goal(s) && t.running == s.running
            && (|t.queue| < |s.queue| || (|t.queue| == |s.queue| && Left(t.pc) < Left(s.pc)))
            && (if WillDrain(s.pc) then WillDrain(t.pc) || t.queue == [] else t.queue == s.queue && !WillDrain(t.pc))
  {
  }

  /** From any reachable state, left to itself, it comes back to waiting, or stops if it is to stop;
      on the way it sends everything queued if it was draining, and else nothing. */
  lemma {:induction false} BackToWaiting(s: State) returns (evs: seq<Event>)
    requires Inv(s)
    ensures var t := Run(s, evs);
            Inv(t) && t.running == s.running && t.pc == Goal(s) && t.queue == if WillDrain(s.pc) then [] else s.queue
    decreases |s.queue|, Left(s.pc)
  {
    hide Inv, Step, WillDrain;
    evs := [];
    if s.pc == Waiting || s.pc == Stopped {
      NotDraining(s.pc);
    } else {
      var ev := NextOwn(s.pc);
      OwnProgress(s);
      InvStep(s, ev);
      var more := BackToWaiting(Step(s, ev));
      RunOne(s, ev);
      RunJoined(s, [ev], more);
      evs := [ev] + more;
    }
  }

  lemma NotDraining(pc: Pc)
    ensures pc == Waiting || pc == Stopped ==> !WillDrain(pc)
  {
  }

  // ---- the object ----

  class TCPClientThread {
    var asyncMsgQueue: seq<Message>
    var asyncEvent: bool
    var running: bool
    ghost var pc: Pc
    ghost var pushed: seq<Message>
    ghost var sent: seq<Message>

    ghost function TheState(): State reads this { State(asyncMsgQueue, asyncEvent, running, pc, pushed, sent, false) }

    constructor ()
      ensures TheState() == IDLE
    {
      asyncMsgQueue, asyncEvent, running, pc, pushed, sent := [], false, true, CheckRunning, [], [];
    }

    method SendMsg(m: Message)
      modifies this`asyncMsgQueue, this`asyncEvent, this`pushed
      ensures TheState() == Step(old(TheState()), Push(m))
      ensures |asyncMsgQueue| == |old(asyncMsgQueue)| + 1 && pushed == old(pushed) + [m]
      ensures asyncEvent == (old(asyncEvent) || old(asyncMsgQueue) == [])
    {
      asyncMsgQueue := asyncMsgQueue + [m];
      pushed := pushed + [m];
      if |asyncMsgQueue| == 1 { asyncEvent := true; }
    }

    /** The drain, while other threads push: `others[i]` between the i-th time the queue is
        unlocked and the next time it is locked. `results` says, message by message, whether the
        socket was still open. Whatever is left in the queue has an event pending. */
    method ThreadSendAsyncMsg(results: nat -> bool, others: seq<seq<Message>>) returns (ghost evs: seq<Event>)
      requires Inv(TheState()) && pc == Draining
      modifies this
      ensures Inv(TheState()) && pc == CheckRunning && TheState() == Run(old(TheState()), evs)
      ensures asyncMsgQueue != [] ==> asyncEvent
      ensures (forall i :: 0 <= i < |others| ==> others[i] == []) ==>
                asyncMsgQueue == [] && sent == pushed == old(pushed)
    {
      hide Inv, Step;
      var queueEmpty := false;
      var i := 0;
      evs := [];
      while !queueEmpty
        invariant Inv(TheState()) && pc == (if queueEmpty then CheckRunning else Draining)
        invariant TheState() == Run(old(TheState()), evs)
        invariant queueEmpty && asyncMsgQueue != [] ==> asyncEvent
        invariant (forall k :: 0 <= k < |others| ==> others[k] == []) ==>
                    pushed == old(pushed) && (queueEmpty ==> asyncMsgQueue == [])
        decreases if i < |others| then |others| - i else 0, |asyncMsgQueue|, !queueEmpty
      {
        ghost var more;
        queueEmpty, more := SendFirst(results(i), if i < |others| then others[i] else []);
        RunJoined(old(TheState()), evs, more);
        evs := evs + more;
        i := i + 1;
      }
      if asyncMsgQueue == [] { DrainedAll(TheState()); }
    }

    /** One turn of the drain: take a message under the lock, and send it while others push. */
    method SendFirst(open: bool, others: seq<Message>) returns (queueEmpty: bool, ghost evs: seq<Event>)
      requires Inv(TheState()) && pc == Draining
      modifies this
      ensures Inv(TheState()) && pc == (if queueEmpty then CheckRunning else Draining)
      ensures TheState() == Run(old(TheState()), evs) && pushed == old(pushed) + others
      ensures queueEmpty && asyncMsgQueue != [] ==> asyncEvent
      ensures others == [] ==> queueEmpty == (asyncMsgQueue == []) && |asyncMsgQueue| < |old(asyncMsgQueue)|
    {
      var msg;
      msg, queueEmpty := Take();
      hide Inv, Step, Run;
      RunOne(old(TheState()), Pop);
      var pushes := PushAll(others);
      InvStep(TheState(), Sent(open));
      RunOne(TheState(), Sent(open));
      RunJoined(old(TheState()), [Pop], pushes);
      RunJoined(old(TheState()), [Pop] + pushes, [Sent(open)]);
      evs := [Pop] + pushes + [Sent(open)];
      Finish(open);
    }

    /** Other threads push, one after another. */
    method PushAll(ms: seq<Message>) returns (ghost evs: seq<Event>)
      requires Inv(TheState())
      modifies this`asyncMsgQueue, this`asyncEvent, this`pushed
      ensures Inv(TheState()) && TheState() == Run(old(TheState()), evs) && pushed == old(pushed) + ms
      ensures |asyncMsgQueue| == |old(asyncMsgQueue)| + |ms|
      ensures (old(asyncMsgQueue) != [] ==> old(asyncEvent)) ==> (asyncMsgQueue != [] ==> asyncEvent)
    {
      hide Inv, Step;
      evs := [];
      for i := 0 to |ms|
        invariant Inv(TheState()) && TheState() == Run(old(TheState()), evs) && pushed == old(pushed) + ms[..i]
        invariant |asyncMsgQueue| == |old(asyncMsgQueue)| + i
        invariant (old(asyncMsgQueue) != [] ==> old(asyncEvent)) ==> (asyncMsgQueue != [] ==> asyncEvent)
      {
        InvStep(TheState(), Push(ms[i]));
        OneMore(old(TheState()), evs, Push(ms[i]));
        evs := evs + [Push(ms[i])];
        SendMsg(ms[i]);
      }
    }

    /** The locked part. */
    method Take() returns (msg: Message, queueEmpty: bool)
      requires Inv(TheState()) && pc == Draining
      modifies this
      ensures TheState() == Step(old(TheState()), Pop) && Inv(TheState()) && pc == Sending(msg, queueEmpty)
      ensures |asyncMsgQueue| == |old(asyncMsgQueue)| - 1 && queueEmpty == (asyncMsgQueue == [])
      ensures pushed == old(pushed)
    {
      InvStep(TheState(), Pop);
      assert asyncMsgQueue != [];
      msg := asyncMsgQueue[0];
      asyncMsgQueue := asyncMsgQueue[1..];
      queueEmpty := asyncMsgQueue == [];
      pc := Sending(msg, queueEmpty);
    }

    /** The message is written; a closed socket ends the thread's loop later on. */
    method Finish(open: bool)
      requires pc.Sending?
      modifies this
      ensures TheState() == Step(old(TheState()), Sent(open))
    {
      sent := sent + [pc.message];
      if !open { running := false; }
      pc := if pc.queueEmpty then CheckRunning else Draining;
    }
  }

  lemma DrainedAll(s: State)
    requires Inv(s) && s.pc == CheckRunning && s.queue == []
    ensures s.sent == s.pushed
  {
    assert s.sent + [] + [] == s.sent;
  }

  lemma OneMore(s: State, evs: seq<Event>, ev: Event)
    ensures Run(s, evs + [ev]) == Step(Run(s, evs), ev)
  {
    hide Step;
    assert (evs + [ev])[..|evs|] == evs;
  }

  lemma RunOne(s: State, ev: Event)
    ensures Run(s, [ev]) == Step(s, ev)
  {
    hide Step;
    assert [ev][..0] == [];
  }

  lemma {:induction false} RunJoined(s: State, a: seq<Event>, b: seq<Event>)
    ensures Run(Run(s, a), b) == Run(s, a + b)
  {
    hide Step;
    if b == [] {
      assert a + b == a;
    } else {
      var n := |b| - 1;
      RunJoined(s, a, b[..n]);
      assert a + b == (a + b[..n]) + [b[n]];
      OneMore(s, a + b[..n], b[n]);
    }
  }
}
