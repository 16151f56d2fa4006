/** The bus engine: the send and forward queues, the bus thread that drains them, the
    endpoints with their unacknowledged frames, and the promise behind every local frame
    (src/h9d/bus.cc, src/h9d/bus_endpoint.cc, src/h9d/busframe.cc). Client threads and the
    bus thread interleave in atomic steps cut at the lock boundaries. */
module Bus {
  import opened Common
  import opened Frames

  // ---- a frame in flight ----

  datatype SendResult = SendResult(seqnum: byte, source: byte, ok: nat, failed: nat)

  /** `promise` lists the values the send promise has been given. */
  datatype BusFrame = BusFrame(frame: Frame, raw: bool, activated: bool, activeBuses: nat,
                               ok: nat, failed: nat, promise: seq<SendResult>)

  function Result(f: BusFrame): SendResult { SendResult(f.frame.seqnum, f.frame.source, f.ok, f.failed) }

  /** inc_send_counter and inc_send_fail_counter. */
  function Acked(f: BusFrame, good: bool): BusFrame {
    var g := if good then f.(ok := f.ok + 1) else f.(failed := f.failed + 1);
    if g.activated && g.ok + g.failed >= g.activeBuses then g.(promise := g.promise + [Result(g)]) else g
  }

  /** The types that consume a sequence number, src/h9d/bus.cc:35-57. */
  predicate Sequenced(kind: byte) {
    kind in [0, PAGE_START, QUIT_BOOTLOADER, PAGE_FILL, BOOTLOADER_TURNED_ON,
             SET_REG, GET_REG, SET_BIT, CLEAR_BIT, NODE_UPGRADE, NODE_RESET]
  }

  /** They are the unicast types but for the five by which a node answers, numbers 5 to 9. */
  lemma RequestsAreSequenced(kind: byte)
    ensures Sequenced(kind) <==> kind < 16 && !(5 <= kind <= 9)
  {
  }

  predicate Stamps(f: BusFrame) { !f.raw && Sequenced(f.frame.kind) }

  function StampFrame(f: BusFrame, next: byte, busId: byte): BusFrame {
    if f.raw then f
    else f.(frame := f.frame.(source := busId, seqnum := if Stamps(f) then next else f.frame.seqnum))
  }

  function NextSeqnum(f: BusFrame, next: byte): byte {
    if !Stamps(f) then next else if next >= SEQNUM_MAX_VALUE then 0 else next + 1
  }

  // ---- the state ----

  /** Where a frame came from: a local client, or the endpoint of that name. */
  datatype Origin = Local | From(name: string)

  /** `outstanding` is the serial driver's count of unacknowledged sends; the other drivers
      acknowledge inside the send. `given` and `acks` record every frame handed to the
      endpoint and every acknowledgement passed on by its driver. */
  datatype Endpoint = Endpoint(name: string, slcan: bool, outstanding: nat, pending: seq<nat>,
                               given: seq<nat>, acks: seq<bool>)

  /** What the bus thread does next. */
  datatype Pc =
    | Waiting
    | CheckForward
    | CheckSend(busy: bool)
    | Handing(id: nat, next: nat, forward: bool)
    | Receiving

  /** A frame is named by its place in `frames`, which lists all frames in the order they
      were queued; `origins` is their unchanging part. `event` is the pending asynchronous
      event, `owed` counts clients that pushed onto an empty queue and have yet to raise it.
      `served` records the frames the bus thread has dequeued. */
  datatype State = State(frames: seq<BusFrame>, origins: seq<Origin>, sendQ: seq<nat>, fwdQ: seq<nat>,
                         nextSeqnum: byte, busId: byte, forwarding: bool, eps: seq<Endpoint>,
                         event: bool, owed: nat, pc: Pc, served: seq<nat>)

  function Fresh(f: Frame, raw: bool): BusFrame { BusFrame(f, raw, false, 0, 0, 0, []) }

  function Initial(names: seq<(string, bool)>, busId: byte, forwarding: bool): State {
    State([], [], [], [], 0, busId, forwarding,
          seq(|names|, i requires 0 <= i < |names| => Endpoint(names[i].0, names[i].1, 0, [], [], [])),
          false, 0, Waiting, [])
  }

  // ---- the steps ----

  datatype Event =
    | Push(frame: Frame, raw: bool)       // send_frame_noblock, inside the lock
    | Trigger                             // send_frame_noblock, after the lock
    | TakeAsync                           // wait reports the asynchronous event
    | TakeSockets                         // wait reports sockets only
    | RunForward                          // recv_thread_forward up to its loop
    | RunSend                             // recv_thread_send up to its loop
    | HandOne                             // one turn of the loop over the endpoints
    | AckByte(e: nat, good: bool)         // the driver of endpoint e reads CR or BELL
    | RecvFrame(e: nat, f: Frame)         // the driver of endpoint e yields a frame
    | RecvDone

  function Goes(o: Origin, name: string): bool { o != From(name) }

  /** The acknowledgement callback of endpoint e. */
  function Callback(s: State, e: nat, good: bool): State
    requires e < |s.eps|
  {
    var p := s.eps[e];
    if p.pending == [] || p.pending[0] >= |s.frames| then s
    else s.(eps := s.eps[e := p.(pending := p.pending[1..], acks := p.acks + [good])],
            frames := s.frames[p.pending[0] := Acked(s.frames[p.pending[0]], good)])
  }

  function Give(s: State, e: nat, id: nat): State
    requires e < |s.eps|
  {
    var p := s.eps[e];
    s.(eps := s.eps[e := p.(pending := p.pending + [id], given := p.given + [id])])
  }

  function CountUp(s: State, e: nat): State
    requires e < |s.eps|
  { s.(eps := s.eps[e := s.eps[e].(outstanding := s.eps[e].outstanding + 1)]) }

  /** BusEndpoint::send_frame on endpoint e. */
  function SendTo(s: State, e: nat, id: nat): State
    requires e < |s.eps|
  {
    if s.eps[e].slcan then CountUp(Give(s, e, id), e) else Callback(Give(s, e, id), e, true)
  }

  function Step(s: State, ev: Event): State {
    match ev
    case Push(f, raw) =>
      s.(frames := s.frames + [Fresh(f, raw)], origins := s.origins + [Local],
         sendQ := s.sendQ + [|s.frames|], owed := if s.sendQ == [] then s.owed + 1 else s.owed)
    case Trigger => if s.owed == 0 then s else s.(owed := s.owed - 1, event := true)
    case TakeAsync => if s.pc == Waiting && s.event then s.(pc := CheckForward, event := false) else s
    case TakeSockets => if s.pc == Waiting then s.(pc := Receiving) else s
    case RunForward => if s.pc == CheckForward then StepForward(s) else s
    case RunSend => if s.pc.CheckSend? then StepSend(s) else s
    case HandOne => if s.pc.Handing? then StepHand(s) else s
    case AckByte(e, good) => if s.pc == Receiving && e < |s.eps| then StepAck(s, e, good) else s
    case RecvFrame(e, f) => if s.pc == Receiving && e < |s.eps| then StepRecv(s, e, f) else s
    case RecvDone => if s.pc == Receiving then s.(pc := Waiting) else s
  }

  function StepForward(s: State): State {
    if s.forwarding && s.fwdQ != [] then
      s.(fwdQ := s.fwdQ[1..], served := s.served + [s.fwdQ[0]], pc := Handing(s.fwdQ[0], 0, true))
    else s.(pc := CheckSend(false))
  }

  function StepSend(s: State): State
    requires s.pc.CheckSend?
  {
    if s.sendQ == [] then s.(pc := if s.pc.busy then CheckForward else Waiting)
    else if s.sendQ[0] >= |s.frames| then s
    else
      var id := s.sendQ[0];
      var f := s.frames[id].(activated := true, activeBuses := |s.eps|);
      s.(sendQ := s.sendQ[1..], served := s.served + [id], pc := Handing(id, 0, false),
         frames := s.frames[id := StampFrame(f, s.nextSeqnum, s.busId)],
         nextSeqnum := NextSeqnum(f, s.nextSeqnum))
  }

  function StepHand(s: State): State
    requires s.pc.Handing?
  {
    var Handing(id, k, forward) := s.pc;
    if k >= |s.eps| then s.(pc := if forward then CheckSend(true) else CheckForward)
    else if forward && id < |s.origins| && !Goes(s.origins[id], s.eps[k].name) then s.(pc := Handing(id, k + 1, forward))
    else SendTo(s, k, id).(pc := Handing(id, k + 1, forward))
  }

  /** The serial driver passes an acknowledgement on only while sends are outstanding. */
  function StepAck(s: State, e: nat, good: bool): State
    requires e < |s.eps|
  {
    var p := s.eps[e];
    if p.slcan && p.outstanding > 0
    then Callback(s.(eps := s.eps[e := p.(outstanding := p.outstanding - 1)]), e, good)
    else s
  }

  function StepRecv(s: State, e: nat, f: Frame): State
    requires e < |s.eps|
  {
    if !s.forwarding then s
    else s.(frames := s.frames + [Fresh(f.(origin := s.eps[e].name), false)],
            origins := s.origins + [From(s.eps[e].name)], fwdQ := s.fwdQ + [|s.frames|],
            event := s.event || s.fwdQ == [])
  }

  function Run(s: State, evs: seq<Event>): State {
    if evs == [] then s else Step(Run(s, evs[..|evs| - 1]), evs[|evs| - 1])
  }

  lemma OneMore(s: State, evs: seq<Event>, ev: Event)
    ensures Run(s, evs + [ev]) == Step(Run(s, evs), ev)
  {
    assert (evs + [ev])[..|evs|] == evs;
  }

  lemma {:induction false} RunJoined(s: State, a: seq<Event>, b: seq<Event>)
    ensures Run(Run(s, a), b) == Run(s, a + b)
  {
    hide Step;
    if b == [] {
      assert a + b == a;
    } else {
      var n := |b| - 1;
      RunJoined(s, a, b[..n]);
      assert a + b == (a + b[..n]) + [b[n]];
      OneMore(s, a + b[..n], b[n]);
    }
  }

  // ---- 1. no lost wake-up ----

  predicate Draining(pc: Pc) { pc.CheckForward? || pc.CheckSend? || pc.Handing? }

  ghost predicate WakeUp(s: State) {
    && (s.sendQ != [] ==> s.event || Draining(s.pc) || s.owed > 0)
    && (s.fwdQ != [] ==> s.event || (Draining(s.pc) && s.pc != CheckSend(false)))
    && (s.fwdQ != [] ==> s.forwarding)
  }

  lemma WakeUpStep(s: State, ev: Event)
    requires WakeUp(s)
    ensures WakeUp(Step(s, ev))
  {
    hide StampFrame, NextSeqnum, Acked;
  }

  lemma {:induction false} WakeUpAlways(s: State, evs: seq<Event>)
    requires WakeUp(s)
    ensures WakeUp(Run(s, evs))
  {
    if evs != [] {
      WakeUpAlways(s, evs[..|evs| - 1]);
      WakeUpStep(Run(s, evs[..|evs| - 1]), evs[|evs| - 1]);
    }
  }

  // ---- 2. conservation: who is given what, in which order ----

  datatype Want = Locals | Foreigns | For(name: string) | Others(name: string)

  predicate Wanted(o: Origin, w: Want) {
    match w
    case Locals => o.Local?
    case Foreigns => o.From?
    case For(name) => Goes(o, name)
    case Others(name) => o.From? && o.name != name
  }

  /** The frames among ids that are wanted, in order. */
  function Pick(origins: seq<Origin>, ids: seq<nat>, w: Want): seq<nat> {
    if ids == [] then []
    else
      var last := ids[|ids| - 1];
      Pick(origins, ids[..|ids| - 1], w) + if last < |origins| && Wanted(origins[last], w) then [last] else []
  }

  function Upto(n: nat): seq<nat> { seq(n, i => i) }

  lemma PickOne(origins: seq<Origin>, ids: seq<nat>, id: nat, w: Want)
    ensures Pick(origins, ids + [id], w)
         == Pick(origins, ids, w) + if id < |origins| && Wanted(origins[id], w) then [id] else []
  {
    assert (ids + [id])[..|ids|] == ids;
  }

  lemma {:induction false} PickGrown(origins: seq<Origin>, o: Origin, ids: seq<nat>, w: Want)
    requires forall i :: 0 <= i < |ids| ==> ids[i] < |origins|
    ensures Pick(origins + [o], ids, w) == Pick(origins, ids, w)
  {
    if ids != [] { PickGrown(origins, o, ids[..|ids| - 1], w); }
  }

  lemma UptoNext(n: nat)
    ensures Upto(n + 1) == Upto(n) + [n]
  {
  }

  ghost predicate NoDup(s: seq<nat>) { forall i, j :: 0 <= i < j < |s| ==> s[i] != s[j] }

  ghost predicate Apart(s: seq<nat>, t: seq<nat>) {
    forall i, j :: 0 <= i < |s| && 0 <= j < |t| ==> s[i] != t[j]
  }

  ghost predicate Known(ids: seq<nat>, n: nat) { forall i :: 0 <= i < |ids| ==> ids[i] < n }

  /** The frames whose hand-out to endpoint e is over. */
  function Handed(s: State, e: nat): seq<nat> {
    if s.pc.Handing? && s.pc.next <= e && s.served != [] then s.served[..|s.served| - 1] else s.served
  }

  /** Every queued frame is dequeued at most once and in order; endpoint e has been given
      exactly the dequeued frames, less those that came from it. */
  ghost predicate Conserved(s: State) { Queues(s) && Deliveries(s) }

  ghost predicate Queues(s: State) {
    && |s.origins| == |s.frames|
    && Known(s.served, |s.frames|) && Known(s.sendQ, |s.frames|) && Known(s.fwdQ, |s.frames|)
    && NoDup(s.served) && NoDup(s.sendQ) && NoDup(s.fwdQ) && Apart(s.served, s.sendQ) && Apart(s.served, s.fwdQ)
    && (forall i :: 0 <= i < |s.sendQ| ==> s.origins[s.sendQ[i]].Local?)
    && (forall i :: 0 <= i < |s.fwdQ| ==> s.origins[s.fwdQ[i]].From?)
    && Pick(s.origins, s.served, Locals) + s.sendQ == Pick(s.origins, Upto(|s.frames|), Locals)
    && Pick(s.origins, s.served, Foreigns) + s.fwdQ == Pick(s.origins, Upto(|s.frames|), Foreigns)
  }

  ghost predicate Deliveries(s: State) {
    && (s.pc.Handing? ==>
          s.served != [] && s.served[|s.served| - 1] == s.pc.id && s.pc.next <= |s.eps|
          && s.pc.id < |s.origins| && s.origins[s.pc.id].From? == s.pc.forward)
    && (forall e :: 0 <= e < |s.eps| ==>
          s.eps[e].given == Pick(s.origins, Handed(s, e), For(s.eps[e].name)))
  }

  lemma MoveHead(served: seq<nat>, q: seq<nat>, other: seq<nat>)
    requires q != [] && NoDup(served) && NoDup(q) && Apart(served, q)
    requires Apart(served, other) && q[0] !in other
    ensures NoDup(served + [q[0]]) && NoDup(q[1..])
    ensures Apart(served + [q[0]], q[1..]) && Apart(served + [q[0]], other)
  {
  }

  /** Steps that touch no queue and give nothing to anyone. */
  ghost predicate SameBooks(s: State, t: State) {
    && t.origins == s.origins && |t.frames| == |s.frames| && t.served == s.served
    && t.sendQ == s.sendQ && t.fwdQ == s.fwdQ && |t.eps| == |s.eps|
    && (t.pc == s.pc || (!t.pc.Handing? && !s.pc.Handing?))
    && (forall e :: 0 <= e < |s.eps| ==> t.eps[e].given == s.eps[e].given && t.eps[e].name == s.eps[e].name)
  }

  lemma ConservedIfSame(s: State, t: State)
    requires Conserved(s) && SameBooks(s, t)
    ensures Conserved(t)
  {
    hide Pick;
    assert forall e :: 0 <= e < |s.eps| ==> Handed(t, e) == Handed(s, e);
  }

  lemma KnownIds(ids: seq<nat>, n: nat)
    requires Known(ids, n)
    ensures forall i :: 0 <= i < |ids| ==> ids[i] < n
  {
  }

  lemma Enqueued(served: seq<nat>, q: seq<nat>, n: nat)
    requires NoDup(q) && Known(q, n) && Known(served, n) && Apart(served, q)
    ensures NoDup(q + [n]) && Known(q + [n], n + 1) && Known(served, n + 1) && Apart(served, q + [n])
  {
  }

  lemma ConservedPush(s: State, f: Frame, raw: bool)
    requires Conserved(s)
    ensures Conserved(Step(s, Push(f, raw)))
  {
    var t, n := Step(s, Push(f, raw)), |s.frames|;
    Grown(s, Local);
    Enqueued(s.served, s.sendQ, n);
    Enqueued(s.served, s.fwdQ, n);
    hide Pick, NoDup, Apart, Known;
    KnownIds(s.sendQ, n);
    KnownIds(s.fwdQ, n);
    assert Pick(s.origins, s.served, Locals) + t.sendQ == Pick(s.origins, s.served, Locals) + s.sendQ + [n];
    assert forall e :: 0 <= e < |s.eps| ==> Handed(t, e) == Handed(s, e);
  }

  /** What a new frame does to every selection of the conservation law. */
  lemma Grown(s: State, o: Origin)
    requires Conserved(s)
    ensures var n, origins := |s.frames|, s.origins + [o];
            && Pick(origins, s.served, Locals) == Pick(s.origins, s.served, Locals)
            && Pick(origins, s.served, Foreigns) == Pick(s.origins, s.served, Foreigns)
            && Pick(origins, Upto(n + 1), Locals)
               == Pick(s.origins, Upto(n), Locals) + (if o.Local? then [n] else [])
            && Pick(origins, Upto(n + 1), Foreigns)
               == Pick(s.origins, Upto(n), Foreigns) + (if o.From? then [n] else [])
            && (forall e :: 0 <= e < |s.eps| ==>
                  Pick(origins, Handed(s, e), For(s.eps[e].name)) == Pick(s.origins, Handed(s, e), For(s.eps[e].name)))
  {
    var n, origins := |s.frames|, s.origins + [o];
    hide Pick;
    PickGrown(s.origins, o, s.served, Locals);
    PickGrown(s.origins, o, s.served, Foreigns);
    UptoNext(n);
    PickOne(origins, Upto(n), n, Locals);
    PickOne(origins, Upto(n), n, Foreigns);
    PickGrown(s.origins, o, Upto(n), Locals);
    PickGrown(s.origins, o, Upto(n), Foreigns);
    forall e | 0 <= e < |s.eps|
      ensures Pick(origins, Handed(s, e), For(s.eps[e].name)) == Pick(s.origins, Handed(s, e), For(s.eps[e].name))
    {
      PickGrown(s.origins, o, Handed(s, e), For(s.eps[e].name));
    }
  }

  lemma ConservedRecv(s: State, e: nat, f: Frame)
    requires Conserved(s) && s.pc == Receiving && e < |s.eps|
    ensures Conserved(StepRecv(s, e, f))
  {
    Grown(s, From(s.eps[e].name));
    hide Pick;
  }

  lemma MoveLocal(s: State, t: State)
    requires Queues(s) && s.sendQ != [] && t.origins == s.origins && |t.frames| == |s.frames|
    requires t.served == s.served + [s.sendQ[0]] && t.sendQ == s.sendQ[1..] && t.fwdQ == s.fwdQ
    ensures Queues(t)
  {
    hide Pick, NoDup, Apart;
    var id := s.sendQ[0];
    PickOne(s.origins, s.served, id, Locals);
    PickOne(s.origins, s.served, id, Foreigns);
    MoveHead(s.served, s.sendQ, s.fwdQ);
    assert s.sendQ == [id] + s.sendQ[1..];
  }

  lemma MoveForeign(s: State, t: State)
    requires Queues(s) && s.fwdQ != [] && t.origins == s.origins && |t.frames| == |s.frames|
    requires t.served == s.served + [s.fwdQ[0]] && t.fwdQ == s.fwdQ[1..] && t.sendQ == s.sendQ
    ensures Queues(t)
  {
    hide Pick, NoDup, Apart;
    var id := s.fwdQ[0];
    PickOne(s.origins, s.served, id, Locals);
    PickOne(s.origins, s.served, id, Foreigns);
    MoveHead(s.served, s.fwdQ, s.sendQ);
    assert s.fwdQ == [id] + s.fwdQ[1..];
  }

  /** A frame just dequeued is in hand, and has been given to nobody. */
  lemma NowInHand(s: State, t: State, id: nat)
    requires Deliveries(s) && !s.pc.Handing? && id < |t.origins| && t.origins == s.origins && t.eps == s.eps
    requires t.served == s.served + [id] && t.pc == Handing(id, 0, s.origins[id].From?)
    ensures Deliveries(t)
  {
    hide Pick;
    assert (s.served + [id])[..|s.served|] == s.served;
  }

  /** A queue's head becomes the last frame served. */
  lemma Dequeued(s: State, t: State, local: bool)
    requires Conserved(s) && !s.pc.Handing? && (if local then s.sendQ else s.fwdQ) != []
    requires var id := if local then s.sendQ[0] else s.fwdQ[0];
             && t.origins == s.origins && |t.frames| == |s.frames| && t.eps == s.eps
             && t.served == s.served + [id] && t.pc == Handing(id, 0, !local)
             && (if local then t.sendQ == s.sendQ[1..] && t.fwdQ == s.fwdQ
                 else t.sendQ == s.sendQ && t.fwdQ == s.fwdQ[1..])
    ensures Conserved(t)
  {
    hide Queues, Deliveries;
    HeadOrigin(s);
    if local {
      MoveLocal(s, t);
      NowInHand(s, t, s.sendQ[0]);
    } else {
      MoveForeign(s, t);
      NowInHand(s, t, s.fwdQ[0]);
    }
  }

  lemma HeadOrigin(s: State)
    requires Queues(s)
    ensures |s.origins| == |s.frames|
    ensures s.sendQ != [] ==> s.sendQ[0] < |s.frames| && s.origins[s.sendQ[0]].Local?
    ensures s.fwdQ != [] ==> s.fwdQ[0] < |s.frames| && s.origins[s.fwdQ[0]].From?
  {
    hide Pick, NoDup, Apart;
  }

  lemma ConservedSend(s: State)
    requires Conserved(s) && s.pc.CheckSend?
    ensures Conserved(StepSend(s))
  {
    if s.sendQ == [] {
      ConservedIfSame(s, StepSend(s));
    } else {
      hide Deliveries, StampFrame, NextSeqnum, NoDup, Apart, Pick;
      Dequeued(s, StepSend(s), true);
    }
  }

  lemma ConservedForward(s: State)
    requires Conserved(s) && s.pc == CheckForward
    ensures Conserved(StepForward(s))
  {
    hide Conserved;
    if s.forwarding && s.fwdQ != [] {
      Dequeued(s, StepForward(s), false);
    } else {
      ConservedIfSame(s, StepForward(s));
    }
  }

  predicate GivesNow(s: State, e: nat) {
    s.pc.Handing? && s.pc.next == e && e < |s.eps|
    && (s.pc.forward && s.pc.id < |s.origins| ==> Goes(s.origins[s.pc.id], s.eps[e].name))
  }

  lemma HandEffects(s: State)
    requires s.pc.Handing?
    ensures var t := StepHand(s);
            && t.origins == s.origins && |t.frames| == |s.frames| && t.served == s.served
            && t.sendQ == s.sendQ && t.fwdQ == s.fwdQ && |t.eps| == |s.eps|
            && (forall e :: 0 <= e < |s.eps| ==>
                  && t.eps[e].name == s.eps[e].name
                  && t.eps[e].given == if GivesNow(s, e) then s.eps[e].given + [s.pc.id] else s.eps[e].given)
            && (s.pc.next < |s.eps| ==> t.pc == s.pc.(next := s.pc.next + 1))
            && (s.pc.next >= |s.eps| ==> !t.pc.Handing?)
  {
    hide Acked;
  }

  lemma ConservedHand(s: State)
    requires Conserved(s) && s.pc.Handing?
    ensures Conserved(StepHand(s))
  {
    hide StepHand, NoDup, Apart, Pick;
    HandEffects(s);
    var t, k := StepHand(s), s.pc.next;
    var n := |s.served|;
    assert s.served == s.served[..n - 1] + [s.pc.id];
    forall e | 0 <= e < |t.eps| ensures t.eps[e].given == Pick(t.origins, Handed(t, e), For(t.eps[e].name)) {
      if e == k {
        PickOne(s.origins, s.served[..n - 1], s.pc.id, For(s.eps[k].name));
      } else {
        assert Handed(t, e) == Handed(s, e);
      }
    }
  }

  lemma ConservedStep(s: State, ev: Event)
    requires Conserved(s)
    ensures Conserved(Step(s, ev))
  {
    hide Conserved, StepSend, StepForward, StepHand, StepRecv, Acked;
    match ev
    case Push(f, raw) => ConservedPush(s, f, raw);
    case RunForward => if s.pc == CheckForward { ConservedForward(s); }
    case RunSend => if s.pc.CheckSend? { ConservedSend(s); }
    case HandOne => if s.pc.Handing? { ConservedHand(s); }
    case RecvFrame(e, f) => if s.pc == Receiving && e < |s.eps| { ConservedRecv(s, e, f); }
    case _ => ConservedIfSame(s, Step(s, ev));
  }

  // ---- 3. acknowledgements and the send promise ----

  /** How often the acknowledgements so far resolved frame id this way: the i-th one
      resolves the i-th frame given. */
  function Hits(given: seq<nat>, acks: seq<bool>, id: nat, good: bool): nat {
    if acks == [] then 0
    else
      var n := |acks| - 1;
      Hits(given, acks[..n], id, good) + if n < |given| && given[n] == id && acks[n] == good then 1 else 0
  }

  function Acks(eps: seq<Endpoint>, id: nat, good: bool): nat {
    if eps == [] then 0
    else
      var p := eps[|eps| - 1];
      Acks(eps[..|eps| - 1], id, good) + Hits(p.given, p.acks, id, good)
  }

  function Settlements(eps: seq<Endpoint>, id: nat): nat { Acks(eps, id, true) + Acks(eps, id, false) }

  ghost predicate Fifo(p: Endpoint) { |p.acks| <= |p.given| && p.pending == p.given[|p.acks|..] }

  ghost predicate PromiseKept(f: BusFrame, n: nat) {
    && (f.activated ==> f.activeBuses == n)
    && f.promise == if f.activated && n > 0 && f.ok + f.failed == n then [Result(f)] else []
  }

  ghost predicate Settled(s: State) {
    && (forall e :: 0 <= e < |s.eps| ==> Fifo(s.eps[e]))
    && (forall id :: 0 <= id < |s.frames| ==>
          && s.frames[id].ok == Acks(s.eps, id, true) && s.frames[id].failed == Acks(s.eps, id, false)
          && PromiseKept(s.frames[id], |s.eps|))
  }

  lemma {:induction false} HitsMoreGiven(given: seq<nat>, acks: seq<bool>, x: nat, id: nat, good: bool)
    requires |acks| <= |given|
    ensures Hits(given + [x], acks, id, good) == Hits(given, acks, id, good)
  {
    if acks != [] { HitsMoreGiven(given, acks[..|acks| - 1], x, id, good); }
  }

  lemma HitsMoreAcks(given: seq<nat>, acks: seq<bool>, a: bool, id: nat, good: bool)
    requires |acks| < |given|
    ensures Hits(given, acks + [a], id, good)
         == Hits(given, acks, id, good) + if given[|acks|] == id && a == good then 1 else 0
  {
    assert (acks + [a])[..|acks|] == acks;
  }

  /** A frame is settled at most once by an endpoint, and only when its place has come. */
  lemma {:induction false} HitsOnce(given: seq<nat>, acks: seq<bool>, id: nat)
    requires NoDup(given) && |acks| <= |given|
    ensures Hits(given, acks, id, true) + Hits(given, acks, id, false)
         == if id in given[..|acks|] then 1 else 0
  {
    if acks != [] {
      var n := |acks| - 1;
      HitsOnce(given, acks[..n], id);
      assert given[..n + 1] == given[..n] + [given[n]];
      assert given[n] !in given[..n];
    }
  }

  lemma {:induction false} AcksUpdate(eps: seq<Endpoint>, e: nat, p: Endpoint, id: nat, good: bool)
    requires e < |eps|
    ensures Acks(eps[e := p], id, good)
         == Acks(eps, id, good) - Hits(eps[e].given, eps[e].acks, id, good) + Hits(p.given, p.acks, id, good)
  {
    hide Hits;
    var n := |eps| - 1;
    if e == n {
      assert eps[e := p][..n] == eps[..n];
    } else {
      assert eps[e := p][..n] == eps[..n][e := p];
      AcksUpdate(eps[..n], e, p, id, good);
    }
  }

  ghost predicate Orderly(p: Endpoint) { NoDup(p.given) && |p.acks| <= |p.given| }

  ghost predicate Unsettled(p: Endpoint, id: nat) { |p.acks| <= |p.given| && id !in p.given[..|p.acks|] }

  lemma {:induction false} SettlementsBound(eps: seq<Endpoint>, id: nat)
    requires forall e :: 0 <= e < |eps| ==> Orderly(eps[e])
    ensures Settlements(eps, id) <= |eps|
    ensures (exists e :: 0 <= e < |eps| && Unsettled(eps[e], id)) ==> Settlements(eps, id) < |eps|
  {
    if eps != [] {
      var n := |eps| - 1;
      HitsOnce(eps[n].given, eps[n].acks, id);
      SettlementsBound(eps[..n], id);
      if e :| 0 <= e < |eps| && Unsettled(eps[e], id) {
        if e < n { assert eps[..n][e] == eps[e]; }
      }
    }
  }

  lemma SettledGive(s: State, e: nat, id: nat)
    requires Settled(s) && e < |s.eps|
    ensures Settled(Give(s, e, id))
  {
    var t, p := Give(s, e, id), s.eps[e];
    hide Acks, Hits;
    assert t.eps[e].pending == t.eps[e].given[|p.acks|..];
    forall x, good ensures Acks(t.eps, x, good) == Acks(s.eps, x, good) {
      AcksUpdate(s.eps, e, t.eps[e], x, good);
      HitsMoreGiven(p.given, p.acks, id, x, good);
    }
  }

  lemma AckedKept(f: BusFrame, n: nat, good: bool)
    requires PromiseKept(f, n) && f.ok + f.failed < n
    ensures PromiseKept(Acked(f, good), n)
    ensures Acked(f, good).ok == f.ok + (if good then 1 else 0) && Acked(f, good).failed == f.failed + (if good then 0 else 1)
  {
  }

  lemma CallbackAcks(s: State, e: nat, good: bool)
    requires Settled(s) && e < |s.eps| && s.eps[e].pending != [] && s.eps[e].pending[0] < |s.frames|
    requires forall k :: 0 <= k < |s.eps| ==> NoDup(s.eps[k].given)
    ensures var t, id := Callback(s, e, good), s.eps[e].pending[0];
            && Fifo(t.eps[e]) && Settlements(s.eps, id) < |s.eps|
            && forall x, g :: Acks(t.eps, x, g) == Acks(s.eps, x, g) + if x == id && g == good then 1 else 0
  {
    hide Acks, Hits, Acked;
    var t, p := Callback(s, e, good), s.eps[e];
    var id, n := p.pending[0], |p.acks|;
    assert p.given[n] == id;
    assert t.eps[e].pending == p.given[n + 1..];
    forall x, g ensures Acks(t.eps, x, g) == Acks(s.eps, x, g) + if x == id && g == good then 1 else 0 {
      AcksUpdate(s.eps, e, t.eps[e], x, g);
      HitsMoreAcks(p.given, p.acks, good, x, g);
    }
    assert Unsettled(p, id);
    assert forall k :: 0 <= k < |s.eps| ==> Fifo(s.eps[k]);
    SettlementsBound(s.eps, id);
  }

  lemma SettledCallback(s: State, e: nat, good: bool)
    requires Settled(s) && e < |s.eps|
    requires forall k :: 0 <= k < |s.eps| ==> NoDup(s.eps[k].given)
    ensures Settled(Callback(s, e, good))
  {
    hide Acks, Acked, PromiseKept, NoDup, Fifo;
    var p := s.eps[e];
    if p.pending != [] && p.pending[0] < |s.frames| {
      CallbackAcks(s, e, good);
      AckedKept(s.frames[p.pending[0]], |s.eps|, good);
    }
  }

  ghost predicate SameAccounts(s: State, t: State) {
    && |t.frames| >= |s.frames| && t.frames[..|s.frames|] == s.frames
    && |t.eps| == |s.eps|
    && (forall e :: 0 <= e < |s.eps| ==> t.eps[e] == s.eps[e].(outstanding := t.eps[e].outstanding))
  }

  lemma {:induction false} AcksSame(eps: seq<Endpoint>, fps: seq<Endpoint>, id: nat, good: bool)
    requires |eps| == |fps|
    requires forall e :: 0 <= e < |eps| ==> fps[e].given == eps[e].given && fps[e].acks == eps[e].acks
    ensures Acks(eps, id, good) == Acks(fps, id, good)
  {
    hide Hits;
    if eps != [] { AcksSame(eps[..|eps| - 1], fps[..|eps| - 1], id, good); }
  }

  lemma SettledIfSame(s: State, t: State)
    requires Settled(s) && SameAccounts(s, t) && |t.frames| == |s.frames|
    ensures Settled(t)
  {
    hide Acks, Hits;
    assert t.frames == s.frames;
    forall x, g ensures Acks(t.eps, x, g) == Acks(s.eps, x, g) { AcksSame(s.eps, t.eps, x, g); }
  }

  ghost predicate AllKnown(s: State) {
    forall e :: 0 <= e < |s.eps| ==> Known(s.eps[e].given, |s.frames|) && NoDup(s.eps[e].given)
  }

  lemma {:induction false} PickMembers(origins: seq<Origin>, ids: seq<nat>, w: Want)
    requires NoDup(ids)
    ensures NoDup(Pick(origins, ids, w))
    ensures forall x :: x in Pick(origins, ids, w) <==> x in ids && x < |origins| && Wanted(origins[x], w)
  {
    if ids != [] {
      var n := |ids| - 1;
      PickMembers(origins, ids[..n], w);
      assert ids == ids[..n] + [ids[n]];
      assert ids[n] !in ids[..n];
    }
  }

  lemma ConservedKnown(s: State)
    requires Conserved(s)
    ensures AllKnown(s)
  {
    forall e | 0 <= e < |s.eps| ensures Known(s.eps[e].given, |s.frames|) && NoDup(s.eps[e].given) {
      PickMembers(s.origins, Handed(s, e), For(s.eps[e].name));
      assert forall i :: 0 <= i < |s.eps[e].given| ==> s.eps[e].given[i] in s.eps[e].given;
    }
  }

  lemma {:induction false} AcksOfUnknown(eps: seq<Endpoint>, id: nat, good: bool)
    requires forall e :: 0 <= e < |eps| ==> id !in eps[e].given
    ensures Acks(eps, id, good) == 0
  {
    if eps != [] {
      var p := eps[|eps| - 1];
      AcksOfUnknown(eps[..|eps| - 1], id, good);
      HitsOfUnknown(p.given, p.acks, id, good);
    }
  }

  lemma {:induction false} HitsOfUnknown(given: seq<nat>, acks: seq<bool>, id: nat, good: bool)
    requires id !in given
    ensures Hits(given, acks, id, good) == 0
  {
    if acks != [] { HitsOfUnknown(given, acks[..|acks| - 1], id, good); }
  }

  /** A new frame, or a frame being activated, has not been acknowledged by anybody. */
  lemma SettledNew(s: State, t: State)
    requires Settled(s) && AllKnown(s) && SameAccounts(s, t) && |t.frames| == |s.frames| + 1
    requires exists f, raw :: t.frames[|s.frames|] == Fresh(f, raw)
    ensures Settled(t)
  {
    hide Acks, Hits;
    var n := |s.frames|;
    forall x, g ensures Acks(t.eps, x, g) == Acks(s.eps, x, g) { AcksSame(s.eps, t.eps, x, g); }
    AcksOfUnknown(s.eps, n, true);
    AcksOfUnknown(s.eps, n, false);
    assert forall id :: 0 <= id < n ==> t.frames[id] == t.frames[..n][id];
  }

  lemma SettledSend(s: State)
    requires Settled(s) && Conserved(s) && s.pc.CheckSend?
    ensures Settled(StepSend(s))
  {
    hide Acks, Hits, Pick, NextSeqnum;
    if s.sendQ != [] {
      var id := s.sendQ[0];
      forall e | 0 <= e < |s.eps| ensures id !in s.eps[e].given { NotGivenYet(s, e); }
      AcksOfUnknown(s.eps, id, true);
      AcksOfUnknown(s.eps, id, false);
    }
  }

  lemma NotGivenYet(s: State, e: nat)
    requires Conserved(s) && !s.pc.Handing? && s.sendQ != [] && e < |s.eps|
    ensures s.sendQ[0] !in s.eps[e].given
  {
    PickMembers(s.origins, s.served, For(s.eps[e].name));
    assert s.sendQ[0] !in s.served;
  }

  lemma SettledHand(s: State)
    requires Settled(s) && Conserved(s) && s.pc.Handing?
    ensures Settled(StepHand(s))
  {
    hide Conserved, Settled, Callback;
    var t, k, id := StepHand(s), s.pc.next, s.pc.id;
    ConservedHand(s);
    ConservedKnown(t);
    HandEffects(s);
    if GivesNow(s, k) {
      var mid := Give(s, k, id);
      SettledGive(s, k, id);
      if s.eps[k].slcan {
        SettledIfSame(mid, t);
      } else {
        SettledCallback(mid, k, true);
        SettledIfSame(Callback(mid, k, true), t);
      }
    } else {
      SettledIfSame(s, t);
    }
  }

  lemma SettledStep(s: State, ev: Event)
    requires Settled(s) && Conserved(s)
    ensures Settled(Step(s, ev))
  {
    hide Settled, Conserved, StepSend, StepHand, Callback;
    ConservedKnown(s);
    var t := Step(s, ev);
    match ev
    case Push(f, raw) => SettledNew(s, t);
    case RecvFrame(e, f) =>
      if |t.frames| > |s.frames| { SettledNew(s, t); } else { SettledIfSame(s, t); }
    case RunSend => if s.pc.CheckSend? { SettledSend(s); }
    case HandOne => if s.pc.Handing? { SettledHand(s); }
    case AckByte(e, good) =>
      if s.pc == Receiving && e < |s.eps| && s.eps[e].slcan && s.eps[e].outstanding > 0 {
        var mid := s.(eps := s.eps[e := s.eps[e].(outstanding := s.eps[e].outstanding - 1)]);
        SettledIfSame(s, mid);
        SettledCallback(mid, e, good);
      }
    case _ => SettledIfSame(s, t);
  }

  // ---- 4. the drivers, and sequence numbers ----

  /** Between steps the serial driver's counter is the number of unacknowledged frames of its
      endpoint; the other drivers leave none, and report success only. */
  ghost predicate Drivers(s: State) {
    forall e :: 0 <= e < |s.eps| ==>
      if s.eps[e].slcan then s.eps[e].outstanding == |s.eps[e].pending|
      else s.eps[e].pending == [] && AllGood(s.eps[e].acks)
  }

  ghost predicate AllGood(acks: seq<bool>) { forall i :: 0 <= i < |acks| ==> acks[i] }

  lemma DriversAck(s: State, e: nat, good: bool)
    requires Drivers(s) && Settled(s) && AllKnown(s) && e < |s.eps|
    ensures Drivers(StepAck(s, e, good))
  {
    hide Acked, Acks, NoDup;
    var p := s.eps[e];
    if p.pending != [] { assert p.pending[0] == p.given[|p.acks|]; }
  }

  lemma DriversHand(s: State)
    requires Drivers(s) && s.pc.Handing? && s.pc.id < |s.frames|
    ensures Drivers(StepHand(s))
  {
    hide Acked;
  }

  lemma DriversStep(s: State, ev: Event)
    requires Drivers(s) && Settled(s) && Conserved(s)
    ensures Drivers(Step(s, ev))
  {
    hide Settled, Conserved, StepHand, StepAck, StampFrame, NextSeqnum;
    match ev
    case AckByte(e, good) =>
      if s.pc == Receiving && e < |s.eps| {
        ConservedKnown(s);
        DriversAck(s, e, good);
      }
    case HandOne =>
      if s.pc.Handing? {
        HandingKnown(s);
        DriversHand(s);
      }
    case _ =>
      assert Step(s, ev).eps == s.eps;
  }

  lemma HandingKnown(s: State)
    requires Conserved(s) && s.pc.Handing?
    ensures s.pc.id < |s.frames|
  {
  }

  /** How many of the frames ids took a sequence number. */
  function Stamped(frames: seq<BusFrame>, origins: seq<Origin>, ids: seq<nat>): nat {
    if ids == [] then 0
    else
      var n := |ids| - 1;
      Stamped(frames, origins, ids[..n]) + if TakesNumber(frames, origins, ids[n]) then 1 else 0
  }

  predicate TakesNumber(frames: seq<BusFrame>, origins: seq<Origin>, id: nat) {
    id < |frames| && id < |origins| && origins[id].Local? && Stamps(frames[id])
  }

  /** The k-th frame that takes a sequence number takes k modulo 32. */
  ghost predicate Numbered(s: State) {
    && |s.origins| == |s.frames| && Known(s.served, |s.frames|)
    && s.nextSeqnum == Stamped(s.frames, s.origins, s.served) % 32
    && (forall k :: 0 <= k < |s.served| && TakesNumber(s.frames, s.origins, s.served[k]) ==>
          s.frames[s.served[k]].frame.seqnum == Stamped(s.frames, s.origins, s.served[..k]) % 32)
  }

  ghost predicate SameNumbers(f: BusFrame, g: BusFrame) { f.frame == g.frame && f.raw == g.raw }

  lemma {:induction false} StampedSame(s: State, t: State, ids: seq<nat>)
    requires |s.frames| <= |t.frames| && |s.origins| == |s.frames| && |t.origins| == |t.frames|
    requires Known(ids, |s.frames|) && s.origins <= t.origins
    requires forall id :: 0 <= id < |s.frames| ==> Stamps(s.frames[id]) == Stamps(t.frames[id])
    ensures Stamped(t.frames, t.origins, ids) == Stamped(s.frames, s.origins, ids)
  {
    hide Stamps;
    if ids != [] { StampedSame(s, t, ids[..|ids| - 1]); }
  }

  lemma NumberedIfSame(s: State, t: State)
    requires Numbered(s) && |s.frames| <= |t.frames| && |t.origins| == |t.frames| && s.origins <= t.origins
    requires forall id :: 0 <= id < |s.frames| ==> SameNumbers(s.frames[id], t.frames[id])
    requires t.served == s.served && t.nextSeqnum == s.nextSeqnum
    ensures Numbered(t)
  {
    hide Stamped, Sequenced;
    StampedSame(s, t, s.served);
    forall k | 0 <= k < |s.served|
      ensures Stamped(t.frames, t.origins, s.served[..k]) == Stamped(s.frames, s.origins, s.served[..k])
    {
      StampedSame(s, t, s.served[..k]);
    }
  }

  /** A frame enters `served`, and takes the next number if it takes one at all. */
  lemma NumberedServe(s: State, t: State, id: nat, f: BusFrame)
    requires Numbered(s) && id < |s.frames| && id !in s.served
    requires t.origins == s.origins && t.served == s.served + [id]
    requires t.frames == s.frames[id := f] && Stamps(f) == Stamps(s.frames[id])
    requires TakesNumber(s.frames, s.origins, id) ==> f.frame.seqnum == s.nextSeqnum
    requires t.nextSeqnum == if TakesNumber(s.frames, s.origins, id) then (s.nextSeqnum + 1) % 32 else s.nextSeqnum
    ensures Numbered(t)
  {
    hide Stamped, Sequenced, Stamps;
    var n := |s.served|;
    assert t.served[..n] == s.served;
    StampedSame(s, t, s.served);
    StampedOne(t.frames, t.origins, s.served, id);
    forall k | 0 <= k < n
      ensures Stamped(t.frames, t.origins, t.served[..k]) == Stamped(s.frames, s.origins, s.served[..k])
    {
      assert t.served[..k] == s.served[..k];
      StampedSame(s, t, s.served[..k]);
    }
  }

  lemma StampedOne(frames: seq<BusFrame>, origins: seq<Origin>, ids: seq<nat>, id: nat)
    ensures Stamped(frames, origins, ids + [id])
         == Stamped(frames, origins, ids) + if TakesNumber(frames, origins, id) then 1 else 0
  {
    assert (ids + [id])[..|ids|] == ids;
  }

  lemma NumberedStep(s: State, ev: Event)
    requires Numbered(s) && Conserved(s)
    ensures Numbered(Step(s, ev))
  {
    var t := Step(s, ev);
    if ev == RunSend && s.pc.CheckSend? && s.sendQ != [] {
      NumberedSend(s);
    } else if ev == RunForward && s.pc == CheckForward && s.forwarding && s.fwdQ != [] {
      var id := s.fwdQ[0];
      assert t.frames == s.frames[id := s.frames[id]];
      hide Pick, Stamped;
      NumberedServe(s, t, id, s.frames[id]);
    } else {
      NumbersKept(s, ev);
      NumberedIfSame(s, t);
    }
  }

  ghost predicate NumbersUnchanged(s: State, t: State) {
    && |t.frames| == |s.frames| && t.origins == s.origins && t.served == s.served && t.nextSeqnum == s.nextSeqnum
    && forall id :: 0 <= id < |s.frames| ==> SameNumbers(s.frames[id], t.frames[id])
  }

  lemma CallbackKeepsNumbers(s: State, e: nat, good: bool)
    requires e < |s.eps|
    ensures NumbersUnchanged(s, Callback(s, e, good))
  {
  }

  lemma HandKeepsNumbers(s: State)
    requires s.pc.Handing?
    ensures NumbersUnchanged(s, StepHand(s))
  {
    hide Callback;
    var Handing(id, k, forward) := s.pc;
    if k < |s.eps| { CallbackKeepsNumbers(Give(s, k, id), k, true); }
  }

  lemma AckKeepsNumbers(s: State, e: nat, good: bool)
    requires e < |s.eps|
    ensures NumbersUnchanged(s, StepAck(s, e, good))
  {
    hide Callback;
    if s.eps[e].outstanding > 0 {
      CallbackKeepsNumbers(s.(eps := s.eps[e := s.eps[e].(outstanding := s.eps[e].outstanding - 1)]), e, good);
    }
  }

  lemma NumbersKept(s: State, ev: Event)
    requires |s.origins| == |s.frames|
    requires ev == RunSend && s.pc.CheckSend? ==> s.sendQ == []
    requires ev == RunForward && s.pc == CheckForward ==> !s.forwarding || s.fwdQ == []
    ensures var t := Step(s, ev);
            && |s.frames| <= |t.frames| && |t.origins| == |t.frames| && s.origins <= t.origins
            && t.served == s.served && t.nextSeqnum == s.nextSeqnum
            && forall id :: 0 <= id < |s.frames| ==> SameNumbers(s.frames[id], t.frames[id])
  {
    hide StepHand, StepAck;
    if ev.AckByte? && ev.e < |s.eps| { AckKeepsNumbers(s, ev.e, ev.good); }
    if s.pc.Handing? { HandKeepsNumbers(s); }
  }

  lemma NumberedSend(s: State)
    requires Numbered(s) && Conserved(s) && s.pc.CheckSend? && s.sendQ != []
    ensures Numbered(StepSend(s))
  {
    hide Pick, Stamped, Sequenced;
    var t, id := StepSend(s), s.sendQ[0];
    assert t.frames == s.frames[id := t.frames[id]];
    NumberedServe(s, t, id, t.frames[id]);
  }

  /** The promise of a frame is armed exactly when a local frame is dequeued. */
  ghost predicate Armed(s: State) {
    && |s.origins| == |s.frames|
    && forall id :: 0 <= id < |s.frames| ==> (s.frames[id].activated <==> s.origins[id].Local? && id in s.served)
  }

  lemma ArmedServe(s: State, t: State, id: nat)
    requires Armed(s) && id < |s.frames| && t.origins == s.origins && t.served == s.served + [id]
    requires |t.frames| == |s.frames|
    requires forall x :: 0 <= x < |s.frames| && x != id ==> t.frames[x].activated == s.frames[x].activated
    requires t.frames[id].activated == s.origins[id].Local?
    ensures Armed(t)
  {
  }

  lemma ArmedStep(s: State, ev: Event)
    requires Armed(s) && Conserved(s)
    ensures Armed(Step(s, ev))
  {
    hide Pick, NoDup, Apart, NextSeqnum, Sequenced, Deliveries;
    var t := Step(s, ev);
    if ev == RunSend && s.pc.CheckSend? && s.sendQ != [] {
      ArmedServe(s, t, s.sendQ[0]);
    } else if ev == RunForward && s.pc == CheckForward && s.forwarding && s.fwdQ != [] {
      assert s.origins[s.fwdQ[0]].From?;
      ArmedServe(s, t, s.fwdQ[0]);
    } else {
      ArmedIfKept(s, ev);
    }
  }

  lemma ArmedIfKept(s: State, ev: Event)
    requires Armed(s) && Conserved(s)
    requires ev == RunSend && s.pc.CheckSend? ==> s.sendQ == []
    requires ev == RunForward && s.pc == CheckForward ==> !s.forwarding || s.fwdQ == []
    ensures Armed(Step(s, ev))
  {
    hide Step, Pick, NoDup, Apart, Deliveries;
    ArmingKept(s, ev);
    assert |s.frames| !in s.served;
  }

  lemma ArmingKept(s: State, ev: Event)
    requires |s.origins| == |s.frames|
    requires ev == RunSend && s.pc.CheckSend? ==> s.sendQ == []
    requires ev == RunForward && s.pc == CheckForward ==> !s.forwarding || s.fwdQ == []
    ensures var t := Step(s, ev);
            && |s.frames| <= |t.frames| <= |s.frames| + 1 && |t.origins| == |t.frames| && s.origins <= t.origins
            && t.served == s.served
            && (forall id :: 0 <= id < |s.frames| ==> t.frames[id].activated == s.frames[id].activated)
            && (|t.frames| > |s.frames| ==> !t.frames[|s.frames|].activated)
  {
    hide StepHand, StepAck;
    if ev.AckByte? && ev.e < |s.eps| { AckKeepsArming(s, ev.e, ev.good); }
    if s.pc.Handing? { HandKeepsArming(s); }
  }

  ghost predicate ArmingUnchanged(s: State, t: State) {
    && |t.frames| == |s.frames| && t.origins == s.origins && t.served == s.served
    && forall id :: 0 <= id < |s.frames| ==> t.frames[id].activated == s.frames[id].activated
  }

  lemma HandKeepsArming(s: State)
    requires s.pc.Handing?
    ensures ArmingUnchanged(s, StepHand(s))
  {
  }

  lemma AckKeepsArming(s: State, e: nat, good: bool)
    requires e < |s.eps|
    ensures ArmingUnchanged(s, StepAck(s, e, good))
  {
  }

  // ---- every reachable state ----

  ghost predicate Inv(s: State) {
    WakeUp(s) && Conserved(s) && Settled(s) && Drivers(s) && Numbered(s) && Armed(s)
  }

  lemma InvInitially(names: seq<(string, bool)>, busId: byte, forwarding: bool)
    ensures Inv(Initial(names, busId, forwarding))
  {
  }

  lemma InvStep(s: State, ev: Event)
    requires Inv(s)
    ensures Inv(Step(s, ev))
  {
    hide WakeUp, Conserved, Settled, Drivers, Numbered, Armed, Step;
    WakeUpStep(s, ev);
    ConservedStep(s, ev);
    SettledStep(s, ev);
    DriversStep(s, ev);
    NumberedStep(s, ev);
    ArmedStep(s, ev);
  }

  /** Whatever the clients, the drivers and the bus thread do, in whatever order. */
  lemma {:induction false} InvAlways(names: seq<(string, bool)>, busId: byte, forwarding: bool, evs: seq<Event>)
    ensures Inv(Run(Initial(names, busId, forwarding), evs))
  {
    hide Inv, Step;
    InvInitially(names, busId, forwarding);
    if evs != [] {
      InvAlways(names, busId, forwarding, evs[..|evs| - 1]);
      InvStep(Run(Initial(names, busId, forwarding), evs[..|evs| - 1]), evs[|evs| - 1]);
    }
  }

  // ---- what the invariant means ----

  ghost predicate Both(w1: Want, w2: Want, w: Want) { forall o :: Wanted(o, w1) && Wanted(o, w2) <==> Wanted(o, w) }

  lemma BothAre(name: string)
    ensures Both(For(name), Locals, Locals) && Both(For(name), Foreigns, Others(name))
    ensures Both(Foreigns, Others(name), Others(name))
  {
  }

  /** Selecting twice is selecting once by both criteria. */
  lemma {:induction false} PickTwice(origins: seq<Origin>, ids: seq<nat>, w1: Want, w2: Want, w: Want)
    requires Both(w1, w2, w)
    ensures Pick(origins, Pick(origins, ids, w1), w2) == Pick(origins, ids, w)
  {
    hide Both, Wanted;
    if ids != [] {
      var n := |ids| - 1;
      PickTwice(origins, ids[..n], w1, w2, w);
      PickTwiceMore(origins, Pick(origins, ids[..n], w1), ids[n], w1, w2, w);
    }
  }

  lemma PickTwiceMore(origins: seq<Origin>, once: seq<nat>, id: nat, w1: Want, w2: Want, w: Want)
    requires Both(w1, w2, w)
    ensures Pick(origins, once + (if id < |origins| && Wanted(origins[id], w1) then [id] else []), w2)
         == Pick(origins, once, w2) + (if id < |origins| && Wanted(origins[id], w) then [id] else [])
  {
    hide Pick, Wanted;
    PickOne(origins, once, id, w2);
    assert once + [] == once;
    assert Pick(origins, once, w2) + [] == Pick(origins, once, w2);
  }

  lemma {:induction false} PickJoined(origins: seq<Origin>, a: seq<nat>, b: seq<nat>, w: Want)
    ensures Pick(origins, a + b, w) == Pick(origins, a, w) + Pick(origins, b, w)
  {
    if b == [] {
      assert a + b == a;
    } else {
      var n := |b| - 1;
      PickJoined(origins, a, b[..n], w);
      PickJoinedMore(origins, a, b[..n], b[n], w);
      assert b == b[..n] + [b[n]];
    }
  }

  lemma PickJoinedMore(origins: seq<Origin>, a: seq<nat>, b: seq<nat>, id: nat, w: Want)
    requires Pick(origins, a + b, w) == Pick(origins, a, w) + Pick(origins, b, w)
    ensures Pick(origins, a + (b + [id]), w) == Pick(origins, a, w) + Pick(origins, b + [id], w)
  {
    hide Pick, Wanted;
    assert a + (b + [id]) == (a + b) + [id];
    PickOne(origins, a + b, id, w);
    PickOne(origins, b, id, w);
  }

  /** The frame in hand, if endpoint e has not had its turn. */
  function InHand(s: State, e: nat): seq<nat> { if s.pc.Handing? && s.pc.next <= e then [s.pc.id] else [] }

  /** In every reachable state, what endpoint e has been given is a merge of all local frames but
      the one in hand and those still queued, in queueing order, and of all frames received from
      other endpoints but the one in hand and those still queued, in reception order. Nothing is
      lost, repeated or echoed. */
  lemma Merge(s: State, e: nat)
    requires Inv(s) && e < |s.eps|
    ensures Pick(s.origins, s.eps[e].given, Locals) + Pick(s.origins, InHand(s, e), Locals) + s.sendQ
         == Pick(s.origins, Upto(|s.frames|), Locals)
    ensures Pick(s.origins, s.eps[e].given, Foreigns) + Pick(s.origins, InHand(s, e) + s.fwdQ, Others(s.eps[e].name))
         == Pick(s.origins, Upto(|s.frames|), Others(s.eps[e].name))
    ensures forall id :: id in s.eps[e].given ==> id < |s.frames| && s.origins[id] != From(s.eps[e].name)
    ensures NoDup(s.eps[e].given)
  {
    MergeFacts(s, e);
    hide Inv, Pick, Handed, InHand, Upto;
    MergeLocals(s.origins, Handed(s, e), InHand(s, e), s.sendQ, Upto(|s.frames|), s.eps[e].name);
    MergeForeigns(s.origins, Handed(s, e), InHand(s, e), s.fwdQ, Upto(|s.frames|), s.eps[e].name);
  }

  lemma MergeLocals(origins: seq<Origin>, h: seq<nat>, hand: seq<nat>, q: seq<nat>, all: seq<nat>, name: string)
    requires Pick(origins, h + hand, Locals) + q == Pick(origins, all, Locals)
    ensures Pick(origins, Pick(origins, h, For(name)), Locals) + Pick(origins, hand, Locals) + q == Pick(origins, all, Locals)
  {
    BothAre(name);
    hide Pick, Both;
    PickTwice(origins, h, For(name), Locals, Locals);
    PickJoined(origins, h, hand, Locals);
  }

  lemma MergeForeigns(origins: seq<Origin>, h: seq<nat>, hand: seq<nat>, q: seq<nat>, all: seq<nat>, name: string)
    requires Pick(origins, h + hand, Foreigns) + q == Pick(origins, all, Foreigns)
    ensures Pick(origins, Pick(origins, h, For(name)), Foreigns) + Pick(origins, hand + q, Others(name))
         == Pick(origins, all, Others(name))
  {
    BothAre(name);
    hide Pick, Both;
    var o := Others(name);
    PickTwice(origins, h, For(name), Foreigns, o);
    PickTwice(origins, h + hand, Foreigns, o, o);
    PickTwice(origins, all, Foreigns, o, o);
    PickJoined(origins, h, hand + q, o);
    PickJoined(origins, h + hand, q, o);
    PickJoined(origins, Pick(origins, h + hand, Foreigns), q, o);
    assert h + (hand + q) == (h + hand) + q;
  }

  lemma MergeFacts(s: State, e: nat)
    requires Inv(s) && e < |s.eps|
    ensures s.eps[e].given == Pick(s.origins, Handed(s, e), For(s.eps[e].name))
    ensures Handed(s, e) + InHand(s, e) == s.served
    ensures Pick(s.origins, s.served, Locals) + s.sendQ == Pick(s.origins, Upto(|s.frames|), Locals)
    ensures Pick(s.origins, s.served, Foreigns) + s.fwdQ == Pick(s.origins, Upto(|s.frames|), Foreigns)
    ensures forall id :: id in s.eps[e].given ==> id < |s.frames| && s.origins[id] != From(s.eps[e].name)
    ensures NoDup(s.eps[e].given)
  {
    hide Settled, WakeUp, Drivers, Numbered, Armed, Apart, Pick;
    HandedKnown(s, e);
    PickMembers(s.origins, Handed(s, e), For(s.eps[e].name));
  }

  lemma HandedKnown(s: State, e: nat)
    requires Conserved(s)
    ensures Known(Handed(s, e), |s.frames|) && NoDup(Handed(s, e)) && |s.origins| == |s.frames|
  {
    hide Pick, Apart;
  }

  /** When the bus thread is asleep with no event pending and no client owes one, nothing is
      queued: every endpoint has been given every local frame and every foreign one. */
  lemma NothingLeftBehind(s: State, e: nat)
    requires Inv(s) && s.pc == Waiting && !s.event && s.owed == 0 && e < |s.eps|
    ensures s.sendQ == [] && s.fwdQ == []
    ensures Pick(s.origins, s.eps[e].given, Locals) == Pick(s.origins, Upto(|s.frames|), Locals)
    ensures Pick(s.origins, s.eps[e].given, Foreigns) == Pick(s.origins, Upto(|s.frames|), Others(s.eps[e].name))
  {
    Asleep(s);
    Merge(s, e);
    hide Inv;
    var none: seq<nat> := [];
    assert Pick(s.origins, none, Locals) == [] && Pick(s.origins, none + s.fwdQ, Others(s.eps[e].name)) == [];
    assert Pick(s.origins, s.eps[e].given, Locals) + none + none == Pick(s.origins, s.eps[e].given, Locals);
    assert Pick(s.origins, s.eps[e].given, Foreigns) + none == Pick(s.origins, s.eps[e].given, Foreigns);
  }

  lemma Asleep(s: State)
    requires WakeUp(s) && s.pc == Waiting && !s.event && s.owed == 0
    ensures s.sendQ == [] && s.fwdQ == []
  {
  }

  function Holding(eps: seq<Endpoint>, id: nat): nat {
    if eps == [] then 0
    else Holding(eps[..|eps| - 1], id) + if id in eps[|eps| - 1].pending then 1 else 0
  }

  /** Endpoints that have been given the frame. */
  function Givens(eps: seq<Endpoint>, id: nat): nat {
    if eps == [] then 0
    else Givens(eps[..|eps| - 1], id) + if id in eps[|eps| - 1].given then 1 else 0
  }

  lemma {:induction false} HeldOrSettled(eps: seq<Endpoint>, id: nat)
    requires forall e :: 0 <= e < |eps| ==> Fifo(eps[e]) && NoDup(eps[e].given)
    ensures Holding(eps, id) + Settlements(eps, id) == Givens(eps, id)
  {
    hide Fifo, NoDup, Hits;
    if eps != [] {
      HeldOrSettled(eps[..|eps| - 1], id);
      HeldOrSettledBy(eps[|eps| - 1], id);
    }
  }

  /** An endpoint that was given a frame holds it or has settled it, once. */
  lemma HeldOrSettledBy(p: Endpoint, id: nat)
    requires Fifo(p) && NoDup(p.given)
    ensures (if id in p.pending then 1 else 0) + Hits(p.given, p.acks, id, true) + Hits(p.given, p.acks, id, false)
         == if id in p.given then 1 else 0
  {
    HitsOnce(p.given, p.acks, id);
    hide Hits;
    assert p.given == p.given[..|p.acks|] + p.pending;
    assert forall i :: 0 <= i < |p.pending| ==> p.pending[i] == p.given[|p.acks| + i];
  }

  /** Endpoints whose turn with the frame is still to come. */
  function ToCome(s: State, id: nat): nat {
    if s.pc.Handing? && s.pc.id == id && s.pc.next <= |s.eps| then |s.eps| - s.pc.next else 0
  }

  lemma {:induction false} GivensAre(eps: seq<Endpoint>, id: nat, k: nat)
    requires k <= |eps| && forall e :: 0 <= e < |eps| ==> (id in eps[e].given <==> e < k)
    ensures Givens(eps, id) == k
  {
    if eps != [] {
      var n := |eps| - 1;
      GivensAre(eps[..n], id, if k <= n then k else n);
    }
  }

  /** In every reachable state, for every local frame dequeued: the endpoints still to be given
      it, those holding it, the successes and the failures add up to the number of endpoints; and
      its promise has been given its one value exactly if there are endpoints and none of them is
      still to be given it or holds it. */
  lemma Completion(s: State, id: nat)
    requires Inv(s) && id in s.served && s.origins[id].Local?
    ensures var f := s.frames[id];
            && ToCome(s, id) + Holding(s.eps, id) + f.ok + f.failed == |s.eps|
            && (f.promise != [] <==> s.eps != [] && ToCome(s, id) == 0 && Holding(s.eps, id) == 0)
            && (f.promise != [] ==> f.promise == [Result(f)])
  {
    CompletionFacts(s, id);
    hide Inv, Acks, Holding, Givens;
    HeldOrSettled(s.eps, id);
    GivensAre(s.eps, id, |s.eps| - ToCome(s, id));
  }

  lemma CompletionFacts(s: State, id: nat)
    requires Inv(s) && id in s.served && s.origins[id].Local?
    ensures id < |s.frames| && s.frames[id].activated && PromiseKept(s.frames[id], |s.eps|)
    ensures s.frames[id].ok == Acks(s.eps, id, true) && s.frames[id].failed == Acks(s.eps, id, false)
    ensures ToCome(s, id) <= |s.eps|
    ensures forall e :: 0 <= e < |s.eps| ==>
              && Fifo(s.eps[e]) && NoDup(s.eps[e].given)
              && (id in s.eps[e].given <==> e < |s.eps| - ToCome(s, id))
  {
    hide Conserved, Armed, WakeUp, Drivers, Numbered, Acks;
    ArmedAre(s, id);
    forall e | 0 <= e < |s.eps|
      ensures NoDup(s.eps[e].given) && (id in s.eps[e].given <==> e < |s.eps| - ToCome(s, id))
    {
      GivenInTurn(s, id, e);
    }
  }

  lemma {:induction false} NoFailures(given: seq<nat>, acks: seq<bool>, id: nat)
    requires AllGood(acks)
    ensures Hits(given, acks, id, false) == 0
  {
    if acks != [] { NoFailures(given, acks[..|acks| - 1], id); }
  }

  lemma {:induction false} NoneFailed(eps: seq<Endpoint>, id: nat)
    requires forall e :: 0 <= e < |eps| ==> AllGood(eps[e].acks)
    ensures Acks(eps, id, false) == 0
  {
    hide AllGood, Hits;
    if eps != [] {
      NoneFailed(eps[..|eps| - 1], id);
      NoFailures(eps[|eps| - 1].given, eps[|eps| - 1].acks, id);
    }
  }

  /** A frame fails only on serial endpoints: without one, its promise reports success on all. */
  lemma OnlySerialFails(s: State, id: nat)
    requires Inv(s) && id in s.served && id < |s.frames| && id < |s.origins| && s.origins[id].Local?
    requires forall e :: 0 <= e < |s.eps| ==> !s.eps[e].slcan
    ensures var f := s.frames[id];
            f.failed == 0 && (f.promise != [] ==> f.promise == [SendResult(f.frame.seqnum, f.frame.source, |s.eps|, 0)])
  {
    hide Inv, Acks, AllGood, Holding, ToCome;
    Completion(s, id);
    DriversGood(s);
    FailedIs(s, id);
    NoneFailed(s.eps, id);
  }

  lemma FailedIs(s: State, id: nat)
    requires Inv(s) && id < |s.frames|
    ensures s.frames[id].failed == Acks(s.eps, id, false)
  {
    hide WakeUp, Conserved, Drivers, Numbered, Armed, Acks;
  }

  lemma DriversGood(s: State)
    requires Inv(s)
    ensures forall e :: 0 <= e < |s.eps| && !s.eps[e].slcan ==> AllGood(s.eps[e].acks)
  {
    hide WakeUp, Conserved, Settled, Numbered, Armed;
  }

  /** What the blocking send_frame returns: nothing while it waits. */
  function SendFrame(s: State, id: nat): seq<byte>
    requires id < |s.frames|
  {
    if s.frames[id].promise == [] then [] else [s.frames[id].promise[0].seqnum]
  }

  /** It returns once every endpoint has had the frame and settled it, if there is an endpoint,
      and then with the number that the frame took. */
  lemma SendFrameReturns(s: State, k: nat)
    requires Inv(s) && k < |s.served| && TakesNumber(s.frames, s.origins, s.served[k])
    ensures var id := s.served[k];
            && id < |s.frames|
            && SendFrame(s, id) == if s.eps != [] && ToCome(s, id) == 0 && Holding(s.eps, id) == 0
                                   then [Stamped(s.frames, s.origins, s.served[..k]) % 32] else []
  {
    hide WakeUp, Conserved, Settled, Drivers, Armed, Stamped, Acks, Holding;
    Completion(s, s.served[k]);
  }

  lemma {:induction false} SameEndpoints(s: State, evs: seq<Event>)
    ensures |Run(s, evs).eps| == |s.eps|
  {
    hide Step;
    if evs != [] {
      SameEndpoints(s, evs[..|evs| - 1]);
      StepKeepsEndpoints(Run(s, evs[..|evs| - 1]), evs[|evs| - 1]);
    }
  }

  lemma StepKeepsEndpoints(s: State, ev: Event)
    ensures |Step(s, ev).eps| == |s.eps|
  {
    hide Acked, StampFrame, NextSeqnum;
  }

  /** On a bus without endpoints send_frame never returns, whatever happens. */
  lemma NobodyToAcknowledge(busId: byte, forwarding: bool, evs: seq<Event>, id: nat)
    ensures var s := Run(Initial([], busId, forwarding), evs); id < |s.frames| ==> SendFrame(s, id) == []
  {
    hide Run, Inv;
    var s := Run(Initial([], busId, forwarding), evs);
    SameEndpoints(Initial([], busId, forwarding), evs);
    InvAlways([], busId, forwarding, evs);
    if id < |s.frames| { NoPromise(s, id); }
  }

  lemma ArmedAre(s: State, id: nat)
    requires Armed(s) && Conserved(s) && id in s.served
    ensures id < |s.frames| && s.frames[id].activated == s.origins[id].Local?
  {
  }

  lemma GivenInTurn(s: State, id: nat, e: nat)
    requires Conserved(s) && id in s.served && s.origins[id].Local? && e < |s.eps|
    ensures NoDup(s.eps[e].given) && (id in s.eps[e].given <==> e < |s.eps| - ToCome(s, id))
  {
    hide Pick, Apart;
    HandedKnown(s, e);
    PickMembers(s.origins, Handed(s, e), For(s.eps[e].name));
    var i :| 0 <= i < |s.served| && s.served[i] == id;
    var h := Handed(s, e);
    if i < |h| { assert h[i] == id; }
  }

  /** The i-th acknowledgement a serial driver passes on settles the i-th frame its endpoint was
      given, with success or failure as the byte says; a surplus one changes nothing. */
  lemma AckAttribution(s: State, e: nat, good: bool)
    requires Inv(s) && s.pc == Receiving && e < |s.eps| && s.eps[e].slcan
    ensures var t, p, i := Step(s, AckByte(e, good)), s.eps[e], |s.eps[e].acks|;
            && p.outstanding == |p.pending| == |p.given| - |p.acks|
            && if p.outstanding == 0 then t == s
               else
                 && |t.eps| == |s.eps| && t.eps[e].acks == p.acks + [good] && t.eps[e].given == p.given
                 && p.given[i] < |s.frames| && t.frames == s.frames[p.given[i] := Acked(s.frames[p.given[i]], good)]
  {
    hide Acked, Inv, Step;
    OldestPending(s, e);
    AckByteIs(s, e, good);
  }

  lemma AckByteIs(s: State, e: nat, good: bool)
    requires s.pc == Receiving && e < |s.eps|
    ensures Step(s, AckByte(e, good)) == StepAck(s, e, good)
  {
  }

  lemma OldestPending(s: State, e: nat)
    requires Inv(s) && e < |s.eps| && s.eps[e].slcan
    ensures var p := s.eps[e];
            && p.outstanding == |p.pending| == |p.given| - |p.acks|
            && (p.pending != [] ==> p.pending[0] == p.given[|p.acks|] && p.pending[0] < |s.frames|)
  {
    hide WakeUp, Numbered, Armed, Conserved, Acks;
    ConservedKnown(s);
    assert Fifo(s.eps[e]);
  }

  /** A forwarded frame, or a local one still queued, never has its promise set; with no
      endpoints at all no promise is ever set. */
  lemma NoPromise(s: State, id: nat)
    requires Inv(s) && id < |s.frames|
    ensures s.origins[id].From? || id !in s.served || s.eps == [] ==> s.frames[id].promise == []
    ensures |s.frames[id].promise| <= 1
  {
  }

  ghost predicate Grows(f: BusFrame, g: BusFrame) {
    && f.ok <= g.ok && f.failed <= g.failed && g.ok + g.failed <= f.ok + f.failed + 1
  }

  ghost predicate OneMoreAck(s: State, t: State, id: nat) {
    |t.eps| == |s.eps| && id < |s.frames| == |t.frames|
    && t.frames[id].activated == s.frames[id].activated
    && Grows(s.frames[id], t.frames[id]) && t.frames[id].frame == s.frames[id].frame
  }

  lemma HandGrows(s: State, id: nat)
    requires s.pc.Handing? && id < |s.frames|
    ensures OneMoreAck(s, StepHand(s), id)
  {
  }

  lemma AckGrows(s: State, e: nat, good: bool, id: nat)
    requires e < |s.eps| && id < |s.frames|
    ensures OneMoreAck(s, StepAck(s, e, good), id)
  {
  }

  lemma CountersGrow(s: State, ev: Event, id: nat)
    requires Inv(s) && id < |s.frames|
    ensures id < |Step(s, ev).frames| && |Step(s, ev).eps| == |s.eps|
    ensures Grows(s.frames[id], Step(s, ev).frames[id])
    ensures id in s.served ==> Step(s, ev).frames[id].frame == s.frames[id].frame
    ensures s.frames[id].activated ==> Step(s, ev).frames[id].activated
  {
    hide StepHand, StepAck, StampFrame, NextSeqnum, Pick, NoDup, Deliveries;
    hide WakeUp, Settled, Drivers, Numbered, Armed;
    if ev.AckByte? && ev.e < |s.eps| { AckGrows(s, ev.e, ev.good, id); }
    if s.pc.Handing? { HandGrows(s, id); }
    if ev == RunSend && s.pc.CheckSend? && s.sendQ != [] {
      assert s.sendQ[0] !in s.served;
      StampKeeps(s.frames[s.sendQ[0]].(activated := true, activeBuses := |s.eps|), s.nextSeqnum, s.busId);
    }
  }

  lemma StampKeeps(f: BusFrame, next: byte, busId: byte)
    ensures StampFrame(f, next, busId) == f.(frame := StampFrame(f, next, busId).frame)
  {
  }

  /** Over all steps, the contents of a frame change only when the bus thread dequeues it, and
      then only in its source and, for the types that take one, its sequence number; a raw
      frame is sent as it was queued. */
  lemma OnlyStamped(s: State, ev: Event, id: nat)
    requires |s.origins| == |s.frames| && id < |s.frames|
    ensures id < |Step(s, ev).frames| && Step(s, ev).frames[id].raw == s.frames[id].raw
    ensures Step(s, ev).frames[id].frame ==
            var f := s.frames[id].frame;
            if ev == RunSend && s.pc.CheckSend? && s.sendQ != [] && s.sendQ[0] == id && !s.frames[id].raw
            then f.(source := s.busId, seqnum := if Sequenced(f.kind) then s.nextSeqnum else f.seqnum)
            else f
  {
    if ev == RunSend && s.pc.CheckSend? && s.sendQ != [] {
      hide StepForward, StepHand, StepAck, StepRecv;
    } else {
      FramesQuiet(s, ev, id);
    }
  }

  lemma FramesQuiet(s: State, ev: Event, id: nat)
    requires id < |s.frames| && !(ev == RunSend && s.pc.CheckSend? && s.sendQ != [])
    ensures id < |Step(s, ev).frames| && SameNumbers(s.frames[id], Step(s, ev).frames[id])
  {
    if s.pc.Handing? { HandKeepsNumbers(s); }
    if ev.AckByte? && ev.e < |s.eps| { AckKeepsNumbers(s, ev.e, ev.good); }
    hide StampFrame, NextSeqnum, StepHand, StepAck, Acked;
  }

  predicate Serving(s: State, ev: Event) {
    ev == RunSend && s.pc.CheckSend? && s.sendQ != [] && s.sendQ[0] < |s.frames|
  }

  /** The frames a step dequeues. */
  function Dequeues(s: State, ev: Event): seq<nat> {
    if Serving(s, ev) then [s.sendQ[0]]
    else if ev == RunForward && s.pc == CheckForward && s.forwarding && s.fwdQ != [] then [s.fwdQ[0]] else []
  }

  ghost predicate MovesOn(s: State, ev: Event, t: State) {
    s.origins <= t.origins && t.busId == s.busId && t.served == s.served + Dequeues(s, ev)
  }

  lemma AckMovesNothing(s: State, e: nat, good: bool)
    requires e < |s.eps|
    ensures var t := StepAck(s, e, good); t.origins == s.origins && t.served == s.served && t.busId == s.busId
  {
    hide Acked;
  }

  lemma RecvMovesNothing(s: State, e: nat, f: Frame)
    requires e < |s.eps|
    ensures var t := StepRecv(s, e, f); s.origins <= t.origins && t.served == s.served && t.busId == s.busId
  {
    hide Fresh;
  }

  lemma HandMovesNothing(s: State)
    requires s.pc.Handing?
    ensures var t := StepHand(s); t.origins == s.origins && t.served == s.served && t.busId == s.busId
  {
    hide Acked, Goes;
  }

  lemma ServedAfter(s: State, ev: Event)
    requires s.sendQ != [] ==> s.sendQ[0] < |s.frames|
    ensures MovesOn(s, ev, Step(s, ev))
  {
    hide StepAck, StepRecv, StepHand, StampFrame, NextSeqnum, Fresh;
    match ev
    case HandOne => if s.pc.Handing? { HandMovesNothing(s); }
    case AckByte(e, good) => if e < |s.eps| { AckMovesNothing(s, e, good); }
    case RecvFrame(e, f) => if e < |s.eps| { RecvMovesNothing(s, e, f); }
    case _ =>
  }

  /** A promise is set in the very step that brings the last missing acknowledgement, even
      if that step is still inside the hand-out loop, and never changes afterwards. */
  lemma PromiseSetOnce(s: State, ev: Event, id: nat)
    requires Inv(s) && id < |s.frames|
    ensures id < |Step(s, ev).frames|
    ensures var f, g := s.frames[id], Step(s, ev).frames[id];
            && (f.promise != [] ==> g.promise == f.promise)
            && (f.promise == [] && g.promise != [] ==>
                  f.ok + f.failed == |s.eps| - 1 && g.ok + g.failed == |s.eps| && g.promise == [Result(g)])
  {
    hide Inv, Step;
    var t := Step(s, ev);
    InvStep(s, ev);
    CountersGrow(s, ev, id);
    NotOverSettled(t, id);
    if s.frames[id].promise != [] { PromiseNeedsArming(s, id); }
    if !s.frames[id].activated && t.frames[id].activated { JustArmed(s, ev, id); }
    PromiseIs(s, id);
    PromiseIs(t, id);
  }

  lemma PromiseIs(s: State, id: nat)
    requires Inv(s) && id < |s.frames|
    ensures PromiseKept(s.frames[id], |s.eps|)
  {
  }

  lemma NotOverSettled(t: State, id: nat)
    requires Inv(t) && id < |t.frames|
    ensures t.frames[id].ok + t.frames[id].failed <= |t.eps|
  {
    ConservedKnown(t);
    hide Conserved, WakeUp, Drivers, Numbered, Armed, Acks;
    assert forall e :: 0 <= e < |t.eps| ==> Fifo(t.eps[e]);
    SettlementsBound(t.eps, id);
  }

  lemma PromiseNeedsArming(s: State, id: nat)
    requires Inv(s) && id < |s.frames| && s.frames[id].promise != []
    ensures s.frames[id].activated && id in s.served
  {
  }

  /** A frame being armed has been acknowledged by nobody, before or in the same step. */
  lemma JustArmed(s: State, ev: Event, id: nat)
    requires Inv(s) && id < |s.frames| && id < |Step(s, ev).frames|
    requires !s.frames[id].activated && Step(s, ev).frames[id].activated
    ensures Step(s, ev).frames[id].ok + Step(s, ev).frames[id].failed == 0
  {
    if !(ev == RunSend && s.pc.CheckSend? && s.sendQ != [] && s.sendQ[0] == id) {
      ArmsOnlyHead(s, ev, id);
      assert false;
    }
    hide Acks, Pick, NoDup, Apart, NextSeqnum, WakeUp, Drivers, Numbered, Armed;
    forall e | 0 <= e < |s.eps| ensures id !in s.eps[e].given { NotGivenYet(s, e); }
    AcksOfUnknown(s.eps, id, true);
    AcksOfUnknown(s.eps, id, false);
  }

  lemma ArmsOnlyHead(s: State, ev: Event, id: nat)
    requires |s.origins| == |s.frames| && id < |s.frames|
    requires !(ev == RunSend && s.pc.CheckSend? && s.sendQ != [] && s.sendQ[0] == id)
    ensures id < |Step(s, ev).frames| && Step(s, ev).frames[id].activated == s.frames[id].activated
  {
    hide NextSeqnum, StepHand, StepAck;
    if ev.AckByte? && ev.e < |s.eps| { AckKeepsArming(s, ev.e, ev.good); }
    if s.pc.Handing? { HandKeepsArming(s); }
  }

  // ---- the bus thread comes back ----

  /** Steps the bus thread takes by itself. */
  predicate OwnStep(ev: Event) { ev in {RunForward, RunSend, HandOne, RecvDone} }

  predicate OwnSteps(evs: seq<Event>) { forall i :: 0 <= i < |evs| ==> OwnStep(evs[i]) }

  function NextOwn(pc: Pc): Event {
    match pc
    case CheckSend(_) => RunSend
    case Handing(_, _, _) => HandOne
    case Receiving => RecvDone
    case _ => RunForward
  }

  /** What is left of the round. */
  function Left(s: State): nat {
    match s.pc
    case Waiting => 0
    case Receiving => 1
    case CheckSend(busy) => if busy then 3 else 1
    case CheckForward => 2
    case Handing(_, next, _) => if next <= |s.eps| then |s.eps| - next + 4 else 4
  }

  lemma OwnProgress(s: State)
    requires s.pc != Waiting && (s.sendQ != [] ==> s.sendQ[0] < |s.frames|)
    ensures var t := Step(s, NextOwn(s.pc));
            && (|t.sendQ| + |t.fwdQ| < |s.sendQ| + |s.fwdQ| || (|t.sendQ| + |t.fwdQ| == |s.sendQ| + |s.fwdQ| && Left(t) < Left(s)))
            && (Draining(s.pc) && !Draining(t.pc) ==> t.pc == Waiting && t.sendQ == [])
            && t.event == s.event
  {
    hide StampFrame, NextSeqnum, StepHand, StepAck, StepRecv;
    if s.pc.Handing? { HandProgress(s); }
  }

  lemma HandProgress(s: State)
    requires s.pc.Handing?
    ensures var t := StepHand(s);
            && t.sendQ == s.sendQ && t.fwdQ == s.fwdQ && t.event == s.event && |t.eps| == |s.eps|
            && t.pc == if s.pc.next < |s.eps| then s.pc.(next := s.pc.next + 1)
                       else if s.pc.forward then CheckSend(true) else CheckForward
  {
    hide Acked, Goes;
  }

  /** From any reachable state, left to itself, it is back waiting after finitely many steps; if it
      was draining, the send queue is empty then. */
  lemma {:induction false} BackToWaiting(s: State) returns (evs: seq<Event>)
    requires Inv(s)
    ensures var t := Run(s, evs);
            OwnSteps(evs) && Inv(t) && t.pc == Waiting && t.event == s.event && (Draining(s.pc) ==> t.sendQ == [])
    decreases |s.sendQ| + |s.fwdQ|, Left(s)
  {
    hide Inv, Step, Left;
    evs := [];
    if s.pc != Waiting {
      var ev := NextOwn(s.pc);
      SendHeadKnown(s);
      OwnProgress(s);
      InvStep(s, ev);
      var more := BackToWaiting(Step(s, ev));
      OneMore(s, [], ev);
      RunJoined(s, [ev], more);
      evs := [ev] + more;
      assert [] + [ev] == [ev];
      WaitingIsQuiet(Step(s, ev), more);
    }
  }

  /** A bus thread that waits takes no step of its own. */
  lemma {:induction false} WaitingIsQuiet(s: State, evs: seq<Event>)
    requires OwnSteps(evs)
    ensures s.pc == Waiting ==> Run(s, evs) == s
  {
    if evs != [] { WaitingIsQuiet(s, evs[..|evs| - 1]); }
  }

  lemma SendHeadKnown(s: State)
    requires Inv(s)
    ensures s.sendQ != [] ==> s.sendQ[0] < |s.frames|
  {
    hide WakeUp, Settled, Drivers, Numbered, Armed, Pick, NoDup, Apart;
  }

  /** A pending event is served: from a waiting bus thread with one pending, the steps that take it
      and drain lead back to waiting with everything queued handed out and no event pending. */
  lemma EventIsServed(s: State) returns (evs: seq<Event>)
    requires Inv(s) && s.pc == Waiting && s.event
    ensures var t := Run(s, [TakeAsync] + evs);
            OwnSteps(evs) && Inv(t) && t.pc == Waiting && !t.event && t.sendQ == t.fwdQ == []
  {
    hide Inv;
    InvStep(s, TakeAsync);
    OneMore(s, [], TakeAsync);
    assert [] + [TakeAsync] == [TakeAsync];
    evs := BackToWaiting(Step(s, TakeAsync));
    RunJoined(s, [TakeAsync], evs);
    AwakeOrEmpty(Run(s, [TakeAsync] + evs));
  }

  lemma AwakeOrEmpty(s: State)
    requires Inv(s) && s.pc == Waiting
    ensures s.fwdQ != [] ==> s.event
  {
  }

  // ---- one frame, from the client to its promise ----

  /** A client's request is pushed and announced, and the bus thread wakes up and looks at it. */
  lemma OneFrameQueued(f: Frame, names: seq<(string, bool)>, busId: byte) returns (evs: seq<Event>)
    ensures var s0 := Initial(names, busId, false);
            Run(s0, evs) == s0.(frames := [Fresh(f, false)], origins := [Local], sendQ := [0], pc := CheckSend(false))
  {
    hide Fresh;
    var s0 := Initial(names, busId, false);
    evs := [];
    var s := s0;
    evs, s := More(s0, evs, s, Push(f, false));
    assert s.frames == [Fresh(f, false)] && s.origins == [Local] && s.sendQ == [0];
    evs, s := More(s0, evs, s, Trigger);
    evs, s := More(s0, evs, s, TakeAsync);
    evs, s := More(s0, evs, s, RunForward);
  }

  /** It is dequeued and stamped. */
  lemma OneFrameStamped(f: Frame, names: seq<(string, bool)>, busId: byte) returns (evs: seq<Event>)
    requires Sequenced(f.kind)
    ensures var s0 := Initial(names, busId, false);
            Run(s0, evs) == s0.(frames := [Fresh(f.(source := busId, seqnum := 0), false).(activated := true, activeBuses := |names|)],
                                origins := [Local], nextSeqnum := 1, pc := Handing(0, 0, false), served := [0])
  {
    evs := OneFrameQueued(f, names, busId);
    var s0 := Initial(names, busId, false);
    var s := Run(s0, evs);
    hide Run, Sequenced, StepAck, StepRecv, StepHand;
    evs, s := More(s0, evs, s, RunSend);
    assert s.served == [0] && s.sendQ == [];
  }

  /** With one serial endpoint it is then handed out, the bus thread goes back to sleep, and the
      promise waits for the endpoint. */
  lemma OneFrameSent(f: Frame, busId: byte) returns (evs: seq<Event>)
    requires Sequenced(f.kind)
    ensures var s := Run(Initial([("can0", true)], busId, false), evs);
            && s.pc == Waiting && !s.event && s.sendQ == [] && s.served == [0] && s.nextSeqnum == 1
            && s.frames == [Fresh(f.(source := busId, seqnum := 0), false).(activated := true, activeBuses := 1)]
            && s.eps == [Endpoint("can0", true, 1, [0], [0], [])] && s.origins == [Local]
  {
    var s0 := Initial([("can0", true)], busId, false);
    assert s0.eps == [Endpoint("can0", true, 0, [], [], [])];
    evs := OneFrameStamped(f, [("can0", true)], busId);
    var s := Run(s0, evs);
    GivenToSerial(s);
    hide Run, Step;
    evs, s := More(s0, evs, s, HandOne);
    evs, s := More(s0, evs, s, HandOne);
    evs, s := More(s0, evs, s, RunForward);
    evs, s := More(s0, evs, s, RunSend);
  }

  lemma GivenToSerial(s: State)
    requires s.eps == [Endpoint("can0", true, 0, [], [], [])] && s.pc == Handing(0, 0, false)
    requires s.sendQ == [] && s.fwdQ == [] && !s.forwarding
    ensures Step(Step(Step(Step(s, HandOne), HandOne), RunForward), RunSend)
         == s.(eps := [Endpoint("can0", true, 1, [0], [0], [])], pc := Waiting)
  {
    hide StepAck, StepRecv, StampFrame;
    var given, p := Step(s, HandOne), s.eps[0];
    assert p.pending + [0] == [0] && p.given + [0] == [0];
    assert given.eps == [Endpoint("can0", true, 1, [0], [0], [])];
  }

  /** The endpoint's acknowledgement, good or bad, then completes it. */
  lemma OneFrameAcknowledged(f: Frame, busId: byte, good: bool) returns (evs: seq<Event>)
    requires Sequenced(f.kind)
    ensures var s := Run(Initial([("can0", true)], busId, false), evs);
            && s.served == [0] && |s.frames| == 1 && Holding(s.eps, 0) == 0
            && s.frames[0].promise == [SendResult(0, busId, if good then 1 else 0, if good then 0 else 1)]
  {
    hide Run, Initial, Step, Acked, StepAck;
    var s0 := Initial([("can0", true)], busId, false);
    evs := OneFrameSent(f, busId);
    var s := Run(s0, evs);
    AckOne(s.(pc := Receiving), s.frames[0], good);
    SocketsWhenIdle(s);
    evs, s := More(s0, evs, s, TakeSockets);
    AckByteIs(s, 0, good);
    evs, s := More(s0, evs, s, AckByte(0, good));
  }

  /** With no endpoint, the same request is dequeued, nobody is given it, and its sender waits. */
  lemma OneFrameToNobody(f: Frame, busId: byte) returns (evs: seq<Event>)
    requires Sequenced(f.kind)
    ensures var s := Run(Initial([], busId, false), evs);
            && s.pc == Waiting && !s.event && s.sendQ == [] && s.served == [0] && s.origins == [Local]
            && |s.frames| == 1 && s.frames[0].activated && SendFrame(s, 0) == []
  {
    var s0 := Initial([], busId, false);
    evs := OneFrameStamped(f, [], busId);
    var s := Run(s0, evs);
    hide Run, Sequenced, StepAck, StepRecv, StampFrame;
    evs, s := More(s0, evs, s, HandOne);
    evs, s := More(s0, evs, s, RunForward);
    evs, s := More(s0, evs, s, RunSend);
  }

  lemma SocketsWhenIdle(s: State)
    requires s.pc == Waiting
    ensures Step(s, TakeSockets) == s.(pc := Receiving)
  {
  }

  lemma AckOne(s: State, g: BusFrame, good: bool)
    requires s.eps == [Endpoint("can0", true, 1, [0], [0], [])] && s.frames == [g]
    requires g.activated && g.activeBuses == 1 && g.ok == g.failed == 0 && g.promise == []
    ensures var t := StepAck(s, 0, good);
            && t.served == s.served && |t.frames| == 1 && Holding(t.eps, 0) == 0
            && t.frames[0].promise
               == [SendResult(g.frame.seqnum, g.frame.source, if good then 1 else 0, if good then 0 else 1)]
  {
    assert [0][1..] == [] && [] + [good] == [good];
    var t := StepAck(s, 0, good);
    assert t.eps == [Endpoint("can0", true, 0, [], [0], [good])];
    assert t.frames == [Acked(g, good)];
    assert Holding(t.eps, 0) == Holding(t.eps[..0], 0);
  }

  lemma More(s0: State, evs: seq<Event>, s: State, ev: Event) returns (evs2: seq<Event>, t: State)
    requires s == Run(s0, evs)
    ensures evs2 == evs + [ev] && t == Step(s, ev) && t == Run(s0, evs2)
  {
    hide Step;
    evs2, t := evs + [ev], Step(s, ev);
    OneMore(s0, evs, ev);
  }
}
