/** The bus as the program has it: frame, endpoint and bus objects that share references.
    Every method is one or more steps of the machine in module Bus. */
module BusObjects {
  import opened Common
  import opened Frames
  import Machine = Bus

  class BusFrame {
    ghost const id: nat        // place among all frames ever queued
    const origin: Machine.Origin
    const raw: bool
    var frame: Frame
    var activatePromise: bool
    var numberOfActiveBus: nat
    var sendCounter: nat
    var sendFailCounter: nat
    var sendPromise: seq<Machine.SendResult>

    function Value(): Machine.BusFrame reads this {
      Machine.BusFrame(frame, raw, activatePromise, numberOfActiveBus, sendCounter, sendFailCounter, sendPromise)
    }

    constructor (ghost id: nat, origin: Machine.Origin, frame: Frame, raw: bool)
      ensures this.id == id && this.origin == origin && Value() == Machine.Fresh(frame, raw)
    {
      this.id, this.origin, this.frame, this.raw := id, origin, frame, raw;
      activatePromise, numberOfActiveBus, sendCounter, sendFailCounter, sendPromise := false, 0, 0, 0, [];
    }

    method ActivateSendFinishPromise(activeBuses: nat)
      modifies this
      ensures Value() == old(Value()).(activated := true, activeBuses := activeBuses)
    {
      activatePromise := true;
      numberOfActiveBus := activeBuses;
    }

    predicate IsSentFinish() reads this { sendCounter + sendFailCounter >= numberOfActiveBus }

    method IncSendCounter()
      modifies this
      ensures Value() == Machine.Acked(old(Value()), true)
    {
      sendCounter := sendCounter + 1;
      if activatePromise && IsSentFinish() { SetPromise(); }
    }

    method IncSendFailCounter()
      modifies this
      ensures Value() == Machine.Acked(old(Value()), false)
    {
      sendFailCounter := sendFailCounter + 1;
      if activatePromise && IsSentFinish() { SetPromise(); }
    }

    method SetPromise()
      modifies this`sendPromise
      ensures sendPromise == old(sendPromise) + [Machine.Result(old(Value()))]
    {
      sendPromise := sendPromise + [Machine.SendResult(frame.seqnum, frame.source, sendCounter, sendFailCounter)];
    }
  }

  ghost function Ids(fs: seq<BusFrame>): (r: seq<nat>)
    ensures |r| == |fs| && forall i :: 0 <= i < |r| ==> r[i] == fs[i].id
  {
    seq(|fs|, i requires 0 <= i < |fs| => fs[i].id)
  }

  class BusEndpoint {
    const index: nat
    const name: string
    const slcan: bool
    var pendingSendCount: nat          // kept by the serial driver
    var pendingFrames: seq<BusFrame>
    ghost var given: seq<nat>
    ghost var acks: seq<bool>

    ghost function Value(): Machine.Endpoint reads this {
      Machine.Endpoint(name, slcan, pendingSendCount, Ids(pendingFrames), given, acks)
    }

    constructor (index: nat, name: string, slcan: bool)
      ensures this.index == index && this.name == name && this.slcan == slcan
      ensures Value() == Machine.Endpoint(name, slcan, 0, [], [], [])
    {
      this.index, this.name, this.slcan := index, name, slcan;
      pendingSendCount, pendingFrames, given, acks := 0, [], [], [];
    }

    /** The callback the endpoint installs in its driver. */
    method AckCallback(success: bool)
      modifies this`pendingFrames, this`acks
      modifies if pendingFrames != [] then {pendingFrames[0]} else {}
      ensures old(pendingFrames) == [] ==> pendingFrames == [] && acks == old(acks)
      ensures old(pendingFrames) != [] ==>
                && pendingFrames == old(pendingFrames)[1..] && acks == old(acks) + [success]
                && old(pendingFrames[0]).Value() == Machine.Acked(old(pendingFrames[0].Value()), success)
    {
      if pendingFrames != [] {
        var frame := pendingFrames[0];
        pendingFrames := pendingFrames[1..];
        acks := acks + [success];
        if success { frame.IncSendCounter(); } else { frame.IncSendFailCounter(); }
      }
    }

    /** A serial driver counts the send; the others acknowledge before they return. */
    method SendFrame(busframe: BusFrame)
      requires !slcan ==> pendingFrames == []
      modifies this`pendingFrames, this`given, this`acks, this`pendingSendCount, busframe
      ensures given == old(given) + [busframe.id]
      ensures slcan ==>
                && pendingFrames == old(pendingFrames) + [busframe] && acks == old(acks)
                && pendingSendCount == old(pendingSendCount) + 1 && busframe.Value() == old(busframe.Value())
      ensures !slcan ==>
                && pendingFrames == [] && acks == old(acks) + [true]
                && pendingSendCount == old(pendingSendCount)
                && busframe.Value() == Machine.Acked(old(busframe.Value()), true)
    {
      pendingFrames := pendingFrames + [busframe];
      given := given + [busframe.id];
      if slcan {
        pendingSendCount := pendingSendCount + 1;
      } else {
        assert pendingFrames == [busframe];
        AckCallback(true);
      }
    }
  }

  ghost function FrameValues(fs: seq<BusFrame>): (r: seq<Machine.BusFrame>)
    reads fs
    ensures |r| == |fs| && forall i :: 0 <= i < |r| ==> r[i] == fs[i].Value()
  {
    seq(|fs|, i requires 0 <= i < |fs| reads fs => fs[i].Value())
  }

  function Origins(fs: seq<BusFrame>): (r: seq<Machine.Origin>)
    ensures |r| == |fs| && forall i :: 0 <= i < |r| ==> r[i] == fs[i].origin
  {
    seq(|fs|, i requires 0 <= i < |fs| => fs[i].origin)
  }

  ghost function EndpointValues(es: seq<BusEndpoint>): (r: seq<Machine.Endpoint>)
    reads es
    ensures |r| == |es| && forall i :: 0 <= i < |r| ==> r[i] == es[i].Value()
  {
    seq(|es|, i requires 0 <= i < |es| reads es => es[i].Value())
  }

  /** Every reference in q is the one listed under its number. */
  ghost predicate Listed(q: seq<BusFrame>, all: seq<BusFrame>) {
    forall i :: 0 <= i < |q| ==> q[i].id < |all| && all[q[i].id] == q[i]
  }

  lemma ListedGrows(q: seq<BusFrame>, all: seq<BusFrame>, f: BusFrame)
    requires Listed(q, all) && f.id == |all|
    ensures Listed(q, all + [f]) && Listed(q + [f], all + [f])
  {
  }

  lemma ListedPlus(q: seq<BusFrame>, all: seq<BusFrame>, f: BusFrame)
    requires Listed(q, all) && f.id < |all| && all[f.id] == f
    ensures Listed(q + [f], all) && Listed([], all)
  {
  }

  lemma ListedHead(q: seq<BusFrame>, all: seq<BusFrame>)
    requires Listed(q, all) && q != []
    ensures Listed([q[0]], all) && Listed(q[1..], all)
    ensures q[0].id < |all| && all[q[0].id] == q[0]
  {
  }

  lemma ListedOne(f: BusFrame, all: seq<BusFrame>)
    requires Listed([f], all)
    ensures f.id < |all| && all[f.id] == f
  {
    assert [f][0] == f;
  }

  /** While a frame is being handed out, a driver that acknowledges at once owes nothing. */
  lemma HandingReady(s: Machine.State, k: nat)
    requires Machine.Inv(s) && s.pc.Handing? && k < |s.eps|
    ensures !s.eps[k].slcan ==> s.eps[k].pending == []
    ensures s.pc.id < |s.origins| && s.origins[s.pc.id].From? == s.pc.forward
  {
    hide Machine.Settled, Machine.WakeUp, Machine.Numbered, Machine.Armed, Machine.Queues, Machine.Pick;
  }

  function Prepared(s: Machine.State, id: nat): Machine.State
    requires id < |s.frames|
  {
    var f := s.frames[id].(activated := true, activeBuses := |s.eps|);
    s.(frames := s.frames[id := Machine.StampFrame(f, s.nextSeqnum, s.busId)],
       nextSeqnum := Machine.NextSeqnum(f, s.nextSeqnum))
  }

  lemma SendStep(s: Machine.State)
    requires s.pc.CheckSend? && s.sendQ != [] && s.sendQ[0] < |s.frames|
    ensures Machine.Step(s, Machine.RunSend)
         == Prepared(s, s.sendQ[0]).(sendQ := s.sendQ[1..], served := s.served + [s.sendQ[0]],
                                     pc := Machine.Handing(s.sendQ[0], 0, false))
  {
  }

  lemma LastTurn(s: Machine.State)
    requires s.pc.Handing? && s.pc.next == |s.eps|
    ensures Machine.Step(s, Machine.HandOne)
         == s.(pc := if s.pc.forward then Machine.CheckSend(true) else Machine.CheckForward)
  {
  }

  lemma ForwardNothing(s: Machine.State)
    requires s.pc == Machine.CheckForward && s.fwdQ == []
    ensures Machine.Step(s, Machine.RunForward) == s.(pc := Machine.CheckSend(false))
  {
  }

  lemma SendNothing(s: Machine.State)
    requires s.pc.CheckSend? && s.sendQ == []
    ensures Machine.Step(s, Machine.RunSend)
         == s.(pc := if s.pc.busy then Machine.CheckForward else Machine.Waiting)
  {
  }

  lemma SeqnumInRange(s: Machine.State)
    requires Machine.Inv(s)
    ensures s.nextSeqnum <= SEQNUM_MAX_VALUE
  {
    hide Machine.Settled, Machine.WakeUp, Machine.Armed, Machine.Conserved;
  }

  lemma RecvStep(s: Machine.State, e: nat, f: Frame)
    requires s.pc == Machine.Receiving && e < |s.eps|
    ensures Machine.Step(s, Machine.RecvFrame(e, f)) == Machine.StepRecv(s, e, f)
  {
  }

  lemma TurnStep(s: Machine.State, k: nat)
    requires s.pc.Handing? && s.pc.next == k < |s.eps| && s.pc.id < |s.origins|
    ensures Machine.Step(s, Machine.HandOne)
         == (if s.pc.forward && !Machine.Goes(s.origins[s.pc.id], s.eps[k].name) then s
             else Machine.SendTo(s, k, s.pc.id)).(pc := Machine.Handing(s.pc.id, k + 1, s.pc.forward))
  {
    hide Machine.SendTo;
  }

  /** n turns of the loop over the endpoints. */
  ghost function Turns(n: nat): seq<Machine.Event> { seq(n, _ => Machine.HandOne) }

  class Bus {
    var sendQueue: seq<BusFrame>
    var forwardQueue: seq<BusFrame>
    var nextSeqnum: byte
    const busId: byte
    const forwarding: bool
    const endpoints: seq<BusEndpoint>
    var event: bool                 // the asynchronous event is pending
    ghost var all: seq<BusFrame>    // every frame ever queued
    ghost var owed: nat
    ghost var pc: Machine.Pc
    ghost var served: seq<nat>

    ghost predicate Valid() reads this`sendQueue, this`forwardQueue, this`all, endpoints {
      && (forall i :: 0 <= i < |all| ==> all[i].id == i)
      && (forall e :: 0 <= e < |endpoints| ==> endpoints[e].index == e)
      && Listed(sendQueue, all) && Listed(forwardQueue, all)
      && (forall e :: 0 <= e < |endpoints| ==> Listed(endpoints[e].pendingFrames, all))
    }

    ghost function State(): Machine.State reads this, all, endpoints {
      Machine.State(FrameValues(all), Origins(all), Ids(sendQueue), Ids(forwardQueue), nextSeqnum, busId,
                    forwarding, EndpointValues(endpoints), event, owed, pc, served)
    }

    constructor (busId: byte, forwarding: bool, endpoints: seq<BusEndpoint>)
      requires forall e :: 0 <= e < |endpoints| ==>
                 && endpoints[e].index == e && endpoints[e].pendingFrames == [] && endpoints[e].given == []
                 && endpoints[e].acks == [] && endpoints[e].pendingSendCount == 0
      ensures Valid() && this.endpoints == endpoints
      ensures State() == Machine.Initial(seq(|endpoints|, i requires 0 <= i < |endpoints| =>
                                               (endpoints[i].name, endpoints[i].slcan)), busId, forwarding)
    {
      this.busId, this.forwarding, this.endpoints := busId, forwarding, endpoints;
      sendQueue, forwardQueue, nextSeqnum, event, all, owed, pc, served := [], [], 0, false, [], 0, Machine.Waiting, [];
    }

    /** Gives a new frame its number. */
    ghost method Admit(f: BusFrame)
      requires Valid() && f.id == |all|
      modifies this`all
      ensures Valid() && all == old(all) + [f]
      ensures State() == var s := old(State()); s.(frames := s.frames + [f.Value()], origins := s.origins + [f.origin])
    {
      hide FrameValues, EndpointValues, Ids, Origins, Listed;
      ListedGrows(sendQueue, all, f);
      ListedGrows(forwardQueue, all, f);
      forall e | 0 <= e < |endpoints| ensures Listed(endpoints[e].pendingFrames, all + [f]) {
        ListedGrows(endpoints[e].pendingFrames, all, f);
      }
      all := all + [f];
      assert FrameValues(all) == old(FrameValues(all)) + [f.Value()];
      assert Origins(all) == old(Origins(all)) + [f.origin];
    }

    /** The locked part of send_frame_noblock. */
    method Enqueue(frame: Frame, raw: bool) returns (busframe: BusFrame, queueEmpty: bool)
      requires Valid()
      modifies this`sendQueue, this`all, this`owed
      ensures Valid() && fresh(busframe) && all == old(all) + [busframe] && queueEmpty == (old(sendQueue) == [])
      ensures sendQueue == old(sendQueue) + [busframe]
      ensures State() == Machine.Step(old(State()), Machine.Push(frame, raw))
    {
      hide Machine.StepForward, Machine.StepSend, Machine.StepHand, Machine.StepAck, Machine.StepRecv;
      hide FrameValues, EndpointValues, Ids, Origins, Listed;
      busframe := new BusFrame(|all|, Machine.Local, frame, raw);
      assert FrameValues(all) == old(FrameValues(all));
      assert EndpointValues(endpoints) == old(EndpointValues(endpoints));
      queueEmpty := sendQueue == [];
      Admit(busframe);
      ListedPlus(sendQueue, all, busframe);
      label admitted:
      sendQueue := sendQueue + [busframe];
      if queueEmpty { owed := owed + 1; }
      assert FrameValues(all) == old@admitted(FrameValues(all));
      assert EndpointValues(endpoints) == old@admitted(EndpointValues(endpoints));
      assert Ids(sendQueue) == old(Ids(sendQueue)) + [|old(all)|];
    }

    /** Raises the event outside the lock, if the queue was empty. */
    method SendFrameNoblock(frame: Frame, raw: bool) returns (busframe: BusFrame)
      requires Valid()
      modifies this`sendQueue, this`all, this`owed, this`event
      ensures Valid() && fresh(busframe) && all == old(all) + [busframe]
      ensures sendQueue == old(sendQueue) + [busframe]
      ensures State() == var s := Machine.Step(old(State()), Machine.Push(frame, raw));
                         if old(sendQueue) == [] then Machine.Step(s, Machine.Trigger) else s
    {
      hide Machine.StepForward, Machine.StepSend, Machine.StepHand, Machine.StepAck, Machine.StepRecv;
      hide FrameValues, EndpointValues, Ids, Origins;
      var queueEmpty;
      busframe, queueEmpty := Enqueue(frame, raw);
      label pushed:
      if queueEmpty {
        event := true;
        owed := owed - 1;
        assert FrameValues(all) == old@pushed(FrameValues(all));
        assert EndpointValues(endpoints) == old@pushed(EndpointValues(endpoints));
      }
    }

    /** One turn of either loop: endpoint k is given the frame. */
    method GiveTo(k: nat, f: BusFrame)
      requires Valid() && k < |endpoints| && Listed([f], all)
      requires !endpoints[k].slcan ==> endpoints[k].pendingFrames == []
      modifies endpoints[k], f
      ensures Valid()
      ensures State() == Machine.SendTo(old(State()), k, f.id)
    {
      hide Machine.Acked, FrameValues, EndpointValues, Ids, Origins, Listed;
      ListedOne(f, all);
      ListedPlus(endpoints[k].pendingFrames, all, f);
      ghost var p := endpoints[k].Value();
      endpoints[k].SendFrame(f);
      assert forall i :: 0 <= i < |endpoints| && i != k ==> endpoints[i].Value() == old(endpoints[i].Value());
      assert EndpointValues(endpoints) == old(EndpointValues(endpoints))[k := endpoints[k].Value()];
      assert FrameValues(all) == old(FrameValues(all))[f.id := f.Value()];
      if endpoints[k].slcan {
        assert FrameValues(all) == old(FrameValues(all));
        assert endpoints[k].Value().pending == p.pending + [f.id];
      } else {
        assert p.pending == [] && (p.pending + [f.id])[1..] == [] && endpoints[k].Value().pending == [];
      }
    }

    /** One turn of a loop over the endpoints: skipped when a forwarded frame would go back
        where it came from. */
    method Turn(k: nat, f: BusFrame, forward: bool)
      requires Valid() && Machine.Inv(State()) && Listed([f], all)
      requires k < |endpoints| && pc == Machine.Handing(f.id, k, forward)
      modifies endpoints[k], f, this`pc
      ensures Valid() && pc == Machine.Handing(f.id, k + 1, forward)
      ensures State() == Machine.Step(old(State()), Machine.HandOne) && Machine.Inv(State())
    {
      hide Machine.Inv, Machine.Step, Machine.SendTo, FrameValues, EndpointValues, Ids, Origins, Listed, Valid;
      ghost var s := State();
      HandingReady(s, k);
      TurnStep(s, k);
      Machine.InvStep(s, Machine.HandOne);
      assert s.eps[k] == endpoints[k].Value();
      assert [f][0] == f;
      assert all[f.id] == f by { ListedOne(f, all); }
      assert s.origins[f.id] == f.origin;
      if !forward || endpoints[k].name != f.origin.name {
        GiveTo(k, f);
      }
      label given:
      pc := Machine.Handing(f.id, k + 1, forward);
      assert FrameValues(all) == old@given(FrameValues(all));
      assert EndpointValues(endpoints) == old@given(EndpointValues(endpoints));
    }

    /** Source and sequence number, for frames that are not raw. */
    method Stamp(f: BusFrame)
      requires nextSeqnum <= SEQNUM_MAX_VALUE
      modifies f`frame, this`nextSeqnum
      ensures f.Value() == Machine.StampFrame(old(f.Value()), old(nextSeqnum), busId)
      ensures nextSeqnum == Machine.NextSeqnum(old(f.Value()), old(nextSeqnum))
    {
      if !f.raw {
        f.frame := f.frame.(source := busId);
        if Machine.Sequenced(f.frame.kind) {
          f.frame := f.frame.(seqnum := nextSeqnum);
          nextSeqnum := nextSeqnum + 1;
        }
        if nextSeqnum > SEQNUM_MAX_VALUE { nextSeqnum := 0; }
      }
    }

    /** The frame is armed to report its sending, and stamped. */
    method Prepare(f: BusFrame)
      requires Valid() && f.id < |all| && all[f.id] == f && nextSeqnum <= SEQNUM_MAX_VALUE
      modifies f, this`nextSeqnum
      ensures Valid()
      ensures State() == Prepared(old(State()), f.id)
    {
      hide Machine.StampFrame, Machine.NextSeqnum, FrameValues, EndpointValues, Ids, Origins, Listed;
      f.ActivateSendFinishPromise(|endpoints|);
      Stamp(f);
      assert FrameValues(all) == old(FrameValues(all))[f.id := f.Value()];
      assert EndpointValues(endpoints) == old(EndpointValues(endpoints));
    }

    /** recv_thread_send up to its loop. */
    method TakeSend() returns (f: BusFrame)
      requires Valid() && pc.CheckSend? && sendQueue != [] && nextSeqnum <= SEQNUM_MAX_VALUE
      modifies this`sendQueue, this`nextSeqnum, this`pc, this`served, sendQueue[0]
      ensures Valid() && Listed([f], all) && f == old(sendQueue[0]) && pc == Machine.Handing(f.id, 0, false)
      ensures State() == Machine.Step(old(State()), Machine.RunSend) && |sendQueue| < |old(sendQueue)|
    {
      hide Machine.Step, Prepared, FrameValues, EndpointValues, Ids, Origins, Listed;
      f := sendQueue[0];
      ListedHead(sendQueue, all);
      SendStep(State());
      assert Ids(sendQueue)[0] == f.id && Ids(sendQueue)[1..] == Ids(sendQueue[1..]);
      Prepare(f);
      label prepared:
      sendQueue := sendQueue[1..];
      served := served + [f.id];
      pc := Machine.Handing(f.id, 0, false);
      assert FrameValues(all) == old@prepared(FrameValues(all));
      assert EndpointValues(endpoints) == old@prepared(EndpointValues(endpoints));
    }

    /** recv_thread_forward up to its loop. */
    method TakeForward() returns (f: BusFrame)
      requires Valid() && pc == Machine.CheckForward && forwarding && forwardQueue != []
      modifies this`forwardQueue, this`pc, this`served
      ensures Valid() && Listed([f], all) && f == old(forwardQueue[0]) && pc == Machine.Handing(f.id, 0, true)
      ensures State() == Machine.Step(old(State()), Machine.RunForward) && |forwardQueue| < |old(forwardQueue)|
    {
      hide FrameValues, EndpointValues, Ids, Origins, Listed;
      f := forwardQueue[0];
      ListedHead(forwardQueue, all);
      assert Ids(forwardQueue)[0] == f.id && Ids(forwardQueue)[1..] == Ids(forwardQueue[1..]);
      forwardQueue := forwardQueue[1..];
      served := served + [f.id];
      pc := Machine.Handing(f.id, 0, true);
      assert FrameValues(all) == old(FrameValues(all));
      assert EndpointValues(endpoints) == old(EndpointValues(endpoints));
    }

    /** The loop over the endpoints. */
    method HandOut(f: BusFrame, forward: bool)
      requires Valid() && Machine.Inv(State()) && Listed([f], all) && pc == Machine.Handing(f.id, 0, forward)
      modifies endpoints, f, this`pc
      ensures Valid() && Machine.Inv(State())
      ensures pc == if forward then Machine.CheckSend(true) else Machine.CheckForward
      ensures State() == Machine.Run(old(State()), Turns(|endpoints| + 1))
    {
      hide Machine.Inv, Machine.Step, FrameValues, EndpointValues, Ids, Origins, Listed, Valid;
      assert Turns(0) == [];
      for k := 0 to |endpoints|
        invariant Valid() && Machine.Inv(State()) && pc == Machine.Handing(f.id, k, forward)
        invariant State() == Machine.Run(old(State()), Turns(k))
      {
        Turn(k, f, forward);
        Machine.OneMore(old(State()), Turns(k), Machine.HandOne);
        assert Turns(k + 1) == Turns(k) + [Machine.HandOne];
      }
      Machine.OneMore(old(State()), Turns(|endpoints|), Machine.HandOne);
      assert Turns(|endpoints| + 1) == Turns(|endpoints|) + [Machine.HandOne];
      Machine.InvStep(State(), Machine.HandOne);
      LastTurn(State());
      label over:
      pc := if forward then Machine.CheckSend(true) else Machine.CheckForward;
      assert FrameValues(all) == old@over(FrameValues(all));
      assert EndpointValues(endpoints) == old@over(EndpointValues(endpoints));
    }

    method RecvThreadForward() returns (ret: bool)
      requires Valid() && Machine.Inv(State()) && pc == Machine.CheckForward && forwarding
      modifies this`forwardQueue, this`pc, this`served, endpoints, all
      ensures Valid() && Machine.Inv(State()) && ret == (old(forwardQueue) != []) && pc == Machine.CheckSend(ret)
      ensures State() == Machine.Run(old(State()), [Machine.RunForward] + Turns(if ret then |endpoints| + 1 else 0))
      ensures if ret then |forwardQueue| < |old(forwardQueue)| else forwardQueue == []
    {
      hide Machine.Inv, Machine.StepForward, Machine.StepHand, Machine.StepSend, Machine.StepAck, Machine.StepRecv;
      hide FrameValues, EndpointValues, Ids, Origins, Listed, Valid;
      ghost var s := State();
      Machine.InvStep(s, Machine.RunForward);
      Machine.OneMore(s, [], Machine.RunForward);
      if forwardQueue == [] {
        pc := Machine.CheckSend(false);
        assert FrameValues(all) == old(FrameValues(all));
        assert EndpointValues(endpoints) == old(EndpointValues(endpoints));
        ForwardNothing(s);
        return false;
      }
      var f := TakeForward();
      ListedOne(f, all);
      HandOut(f, true);
      Machine.RunJoined(s, [Machine.RunForward], Turns(|endpoints| + 1));
      return true;
    }

    method RecvThreadSend() returns (ret: bool)
      requires Valid() && Machine.Inv(State()) && pc.CheckSend?
      modifies this`sendQueue, this`nextSeqnum, this`pc, this`served, endpoints, all
      ensures Valid() && Machine.Inv(State()) && ret == (old(sendQueue) != [])
      ensures pc == if ret || old(pc.busy) then Machine.CheckForward else Machine.Waiting
      ensures State() == Machine.Run(old(State()), [Machine.RunSend] + Turns(if ret then |endpoints| + 1 else 0))
      ensures if ret then |sendQueue| < |old(sendQueue)| else sendQueue == []
    {
      hide Machine.Inv, Machine.StepForward, Machine.StepHand, Machine.StepSend, Machine.StepAck, Machine.StepRecv;
      hide FrameValues, EndpointValues, Ids, Origins, Listed, Valid;
      ghost var s := State();
      Machine.InvStep(s, Machine.RunSend);
      Machine.OneMore(s, [], Machine.RunSend);
      if sendQueue == [] {
        pc := if pc.busy then Machine.CheckForward else Machine.Waiting;
        assert FrameValues(all) == old(FrameValues(all));
        assert EndpointValues(endpoints) == old(EndpointValues(endpoints));
        SendNothing(s);
        return false;
      }
      SeqnumInRange(s);
      HeadListed();
      var f := TakeSend();
      ListedOne(f, all);
      HandOut(f, false);
      Machine.RunJoined(s, [Machine.RunSend], Turns(|endpoints| + 1));
      return true;
    }

    lemma HeadListed()
      requires Valid() && sendQueue != []
      ensures sendQueue[0] in all
    {
    }

    /** Without forwarding the forward queue is not looked at. */
    ghost method SkipForward()
      requires Valid() && Machine.Inv(State()) && pc == Machine.CheckForward && !forwarding
      modifies this`pc
      ensures Valid() && Machine.Inv(State()) && pc == Machine.CheckSend(false)
      ensures State() == Machine.Run(old(State()), [Machine.RunForward])
    {
      hide Machine.Inv, FrameValues, EndpointValues, Ids, Origins, Listed, Valid;
      Machine.OneMore(State(), [], Machine.RunForward);
      Machine.InvStep(State(), Machine.RunForward);
      pc := Machine.CheckSend(false);
      assert FrameValues(all) == old(FrameValues(all));
      assert EndpointValues(endpoints) == old(EndpointValues(endpoints));
    }

    /** Other threads queue frames, one after another. */
    method OthersSend(requests: seq<(Frame, bool)>) returns (ghost evs: seq<Machine.Event>)
      requires Valid() && Machine.Inv(State())
      modifies this`sendQueue, this`all, this`owed, this`event
      ensures Valid() && Machine.Inv(State()) && State() == Machine.Run(old(State()), evs)
      ensures |sendQueue| == |old(sendQueue)| + |requests| && (requests == [] ==> event == old(event))
      ensures forall f :: f in all ==> f in old(all) || fresh(f)
    {
      hide Machine.Inv, Machine.Step, FrameValues, EndpointValues, Ids, Origins, Listed, Valid;
      evs := [];
      for i := 0 to |requests|
        invariant Valid() && Machine.Inv(State()) && State() == Machine.Run(old(State()), evs)
        invariant |sendQueue| == |old(sendQueue)| + i && (i == 0 ==> event == old(event))
        invariant forall f :: f in all ==> f in old(all) || fresh(f)
      {
        var more := OneSends(requests[i].0, requests[i].1);
        Machine.RunJoined(old(State()), evs, more);
        evs := evs + more;
      }
    }

    method OneSends(frame: Frame, raw: bool) returns (ghost evs: seq<Machine.Event>)
      requires Valid() && Machine.Inv(State())
      modifies this`sendQueue, this`all, this`owed, this`event
      ensures Valid() && Machine.Inv(State()) && State() == Machine.Run(old(State()), evs)
      ensures |sendQueue| == |old(sendQueue)| + 1
      ensures forall f :: f in all ==> f in old(all) || fresh(f)
    {
      hide Machine.Inv, Machine.Step, FrameValues, EndpointValues, Ids, Origins, Listed, Valid;
      ghost var s, first := State(), Machine.Push(frame, raw);
      Machine.InvStep(s, first);
      Machine.OneMore(s, [], first);
      evs := [first];
      if sendQueue == [] {
        Machine.InvStep(Machine.Step(s, first), Machine.Trigger);
        Machine.OneMore(s, [first], Machine.Trigger);
        evs := [first, Machine.Trigger];
        assert [first] + [Machine.Trigger] == evs;
      }
      assert [] + [first] == [first];
      var f := SendFrameNoblock(frame, raw);
    }

    /** One round of the drain; other threads queue `others` between its two halves. */
    method DrainRound(others: seq<(Frame, bool)>) returns (ret: bool, ghost evs: seq<Machine.Event>)
      requires Valid() && Machine.Inv(State()) && pc == Machine.CheckForward
      modifies this`sendQueue, this`forwardQueue, this`nextSeqnum, this`pc, this`served, this`all, this`owed, this`event
      modifies endpoints, all
      ensures Valid() && Machine.Inv(State()) && pc == if ret then Machine.CheckForward else Machine.Waiting
      ensures State() == Machine.Run(old(State()), evs) && (others == [] ==> event == old(event))
      ensures ret == (old(sendQueue) != [] || others != [] || (forwarding && old(forwardQueue) != []))
      ensures if ret then |sendQueue| + |forwardQueue| < old(|sendQueue| + |forwardQueue|) + |others|
              else sendQueue == [] && (forwarding ==> forwardQueue == [])
      ensures forall f :: f in all ==> f in old(all) || fresh(f)
    {
      hide Machine.Inv, Machine.Step, Machine.Run, FrameValues, EndpointValues, Ids, Origins, Listed, Valid;
      ghost var s, n := State(), |endpoints| + 1;
      ret := false;
      if forwarding {
        var forwarded := RecvThreadForward();
        ret := ret || forwarded;
        evs := [Machine.RunForward] + Turns(if ret then n else 0);
      } else {
        SkipForward();
        evs := [Machine.RunForward];
      }
      assert State() == Machine.Run(s, evs);
      var pushes := OthersSend(others);
      Machine.RunJoined(s, evs, pushes);
      evs := evs + pushes;
      assert forall i :: 0 <= i < |all| ==> all[i] in all;
      var sent := RecvThreadSend();
      ret := ret || sent;
      Machine.RunJoined(s, evs, [Machine.RunSend] + Turns(if sent then n else 0));
      evs := evs + ([Machine.RunSend] + Turns(if sent then n else 0));
    }

    /** The bus thread's drain: both queues, until neither has anything. In its i-th round other
        threads queue `others[i]`. */
    method Drain(others: seq<seq<(Frame, bool)>>) returns (ghost evs: seq<Machine.Event>)
      requires Valid() && Machine.Inv(State()) && pc == Machine.CheckForward
      modifies this`sendQueue, this`forwardQueue, this`nextSeqnum, this`pc, this`served, this`all, this`owed, this`event
      modifies endpoints, all
      ensures Valid() && Machine.Inv(State()) && pc == Machine.Waiting
      ensures State() == Machine.Run(old(State()), evs)
      ensures sendQueue == [] && (forwarding ==> forwardQueue == [])
      ensures (forall i :: 0 <= i < |others| ==> others[i] == []) ==> event == old(event)
    {
      hide Machine.Inv, Machine.Step, FrameValues, EndpointValues, Ids, Origins, Listed, Valid;
      evs := [];
      var i := 0;
      ghost var quiet := forall k :: 0 <= k < |others| ==> others[k] == [];
      while true
        invariant Valid() && Machine.Inv(State()) && pc == Machine.CheckForward
        invariant State() == Machine.Run(old(State()), evs)
        invariant quiet ==> event == old(event)
        invariant forall f :: f in all ==> f in old(all) || fresh(f)
        decreases if i < |others| then |others| - i else 0, |sendQueue| + |forwardQueue|
      {
        var queued := if i < |others| then others[i] else [];
        assert quiet ==> queued == [];
        assert forall i :: 0 <= i < |all| ==> all[i] in all;
        var ret, more := DrainRound(queued);
        Machine.RunJoined(old(State()), evs, more);
        evs := evs + more;
        i := i + 1;
        if !ret { break; }
      }
    }

    /** What the bus thread does about a pending event: afterwards both queues are empty. */
    method OnAsyncEvent(others: seq<seq<(Frame, bool)>>) returns (ghost evs: seq<Machine.Event>)
      requires Valid() && Machine.Inv(State()) && pc == Machine.Waiting && event
      modifies this`sendQueue, this`forwardQueue, this`nextSeqnum, this`pc, this`served, this`all, this`owed, this`event
      modifies endpoints, all
      ensures Valid() && Machine.Inv(State()) && pc == Machine.Waiting
      ensures State() == Machine.Run(old(State()), [Machine.TakeAsync] + evs)
      ensures sendQueue == [] && (forwarding ==> forwardQueue == [])
      ensures (forall i :: 0 <= i < |others| ==> others[i] == []) ==> !event
    {
      hide Machine.Inv, Machine.StepForward, Machine.StepHand, Machine.StepSend, Machine.StepAck, Machine.StepRecv;
      hide FrameValues, EndpointValues, Ids, Origins, Listed, Valid;
      ghost var s := State();
      Machine.OneMore(s, [], Machine.TakeAsync);
      Machine.InvStep(s, Machine.TakeAsync);
      event := false;
      pc := Machine.CheckForward;
      assert FrameValues(all) == old(FrameValues(all));
      assert EndpointValues(endpoints) == old(EndpointValues(endpoints));
      assert State() == Machine.Run(s, [Machine.TakeAsync]);
      evs := Drain(others);
      Machine.RunJoined(s, [Machine.TakeAsync], evs);
    }

    /** One iteration of the receive loop with forwarding enabled or not. */
    method RecvFrame(e: nat, frame: Frame)
      requires Valid() && pc == Machine.Receiving && e < |endpoints|
      modifies this`forwardQueue, this`all, this`event
      ensures Valid() && State() == Machine.Step(old(State()), Machine.RecvFrame(e, frame))
    {
      hide Machine.Step, FrameValues, EndpointValues, Ids, Origins, Listed;
      RecvStep(State(), e, frame);
      if forwarding {
        var origin := endpoints[e].name;
        var busframe := new BusFrame(|all|, Machine.From(origin), frame.(origin := origin), false);
        assert FrameValues(all) == old(FrameValues(all));
        assert EndpointValues(endpoints) == old(EndpointValues(endpoints));
        var queueEmpty := forwardQueue == [];
        Admit(busframe);
        ListedPlus(forwardQueue, all, busframe);
        label admitted:
        forwardQueue := forwardQueue + [busframe];
        if queueEmpty { event := true; }
        assert FrameValues(all) == old@admitted(FrameValues(all));
        assert EndpointValues(endpoints) == old@admitted(EndpointValues(endpoints));
        assert Ids(forwardQueue) == old(Ids(forwardQueue)) + [|old(all)|];
      }
    }

    /** The callback installed in the driver of endpoint e, seen from the bus. */
    method Acknowledge(e: nat, success: bool)
      requires Valid() && e < |endpoints|
      modifies endpoints[e]
      modifies if endpoints[e].pendingFrames != [] then {endpoints[e].pendingFrames[0]} else {}
      ensures Valid() && State() == Machine.Callback(old(State()), e, success)
    {
      hide Machine.Acked, FrameValues, EndpointValues, Ids, Origins, Listed;
      var p := endpoints[e];
      p.AckCallback(success);
      if old(p.pendingFrames) != [] {
        ListedHead(old(p.pendingFrames), all);
        assert Ids(p.pendingFrames) == old(Ids(p.pendingFrames))[1..];
        ghost var f := old(p.pendingFrames[0]);
        assert FrameValues(all) == old(FrameValues(all))[f.id := f.Value()];
        assert EndpointValues(endpoints) == old(EndpointValues(endpoints))[e := p.Value()];
      } else {
        assert FrameValues(all) == old(FrameValues(all));
        assert EndpointValues(endpoints) == old(EndpointValues(endpoints));
      }
    }

    /** The serial driver of endpoint e reads an acknowledgement byte. */
    method AckByte(e: nat, success: bool)
      requires Valid() && pc == Machine.Receiving && e < |endpoints|
      modifies endpoints[e]
      modifies if endpoints[e].pendingFrames != [] then {endpoints[e].pendingFrames[0]} else {}
      ensures Valid() && State() == Machine.Step(old(State()), Machine.AckByte(e, success))
    {
      hide Machine.Step, Machine.Callback, FrameValues, EndpointValues, Ids, Origins, Listed;
      Machine.AckByteIs(State(), e, success);
      var p := endpoints[e];
      if p.slcan && p.pendingSendCount > 0 {
        p.pendingSendCount := p.pendingSendCount - 1;
        assert FrameValues(all) == old(FrameValues(all));
        assert EndpointValues(endpoints) == old(EndpointValues(endpoints))[e := p.Value()];
        Acknowledge(e, success);
      }
    }
  }
}
