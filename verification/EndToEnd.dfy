/** Register requests over the bus engine itself: the clients of module Requests, whose requests
    are queued, stamped, handed out and acknowledged by the machine of module Bus. */
module EndToEnd {
  import opened Common
  import opened Frames
  import Bus
  import Correlation
  import R = Requests

  /** `request[i]` is the frame by which the request of promise i was queued. */
  datatype System = System(bus: Bus.State, net: R.Net, request: seq<Option<nat>>)

  function Start(names: seq<(string, bool)>, forwarding: bool, nodeId: byte, busId: byte): System {
    System(Bus.Initial(names, busId, forwarding), R.Idle(nodeId, busId), [])
  }

  datatype Move =
    | Engine(ev: Bus.Event)             // any step of the bus, requests of others included
    | Ask(reg: byte)                    // a client registers a promise
    | Request(i: nat, f: Frame)         // and queues its request
    | Learn(i: nat)                     // send_frame has returned: the promise gets that number
    | Reply(k: nat, f: Frame)           // the node answers the k-th sequenced frame
    | Other(f: Frame)
    | GiveUp(i: nat)

  /** The promise whose request was queued as frame id. */
  function Asker(request: seq<Option<nat>>, id: nat): (r: Option<nat>)
    ensures r.Some? ==> r.value < |request| && request[r.value] == Some(id)
    ensures r.None? ==> Some(id) !in request
  {
    if request == [] then None
    else if request[|request| - 1] == Some(id) then Some(|request| - 1)
    else Asker(request[..|request| - 1], id)
  }

  /** What the code demands before each move. */
  predicate Enabled(s: System, m: Move) {
    match m
    case Engine(_) => true
    case Ask(_) => true
    case Request(i, f) => i < |s.request| && s.request[i] == None && Bus.Sequenced(f.kind)
    case Learn(i) =>
      && i < |s.request| && s.request[i].Some? && s.request[i].value < |s.bus.frames|
      && Bus.SendFrame(s.bus, s.request[i].value) != []
    case Reply(k, f) => R.Enabled(s.net, R.Reply(k, f))
    case Other(f) => R.Enabled(s.net, R.Other(f))
    case GiveUp(i) => R.Enabled(s.net, R.GiveUp(i))
  }

  /** The move as module Requests sees it, if it does. */
  function Seen(s: System, m: Move): seq<R.Action> {
    match m
    case Engine(ev) => if Bus.Serving(s.bus, ev) then [R.Serve(s.bus.frames[s.bus.sendQ[0]], Asker(s.request, s.bus.sendQ[0]))] else []
    case Ask(reg) => [R.Ask(reg)]
    case Request(_, _) => []
    case Learn(i) => [R.Learn(i)]
    case Reply(k, f) => [R.Reply(k, f)]
    case Other(f) => [R.Other(f)]
    case GiveUp(i) => [R.GiveUp(i)]
  }

  /** An action that were not enabled would leave the net as it is; `Refines` shows there is none. */
  function Follow(n: R.Net, acts: seq<R.Action>): R.Net {
    if acts != [] && R.Enabled(n, acts[0]) then R.Act(n, acts[0]) else n
  }

  function Do(s: System, m: Move): System
    requires Enabled(s, m)
  {
    match m
    case Engine(ev) => s.(bus := Bus.Step(s.bus, ev), net := Follow(s.net, Seen(s, m)))
    case Ask(_) => s.(net := Follow(s.net, Seen(s, m)), request := s.request + [None])
    case Request(i, f) => s.(bus := Bus.Step(s.bus, Bus.Push(f, false)), request := s.request[i := Some(|s.bus.frames|)])
    case Learn(i) =>
      var number := Bus.SendFrame(s.bus, s.request[i].value)[0];
      s.(net := s.net.(node := Correlation.Step(s.net.node, Correlation.SetSeqnum(i, number))))
    case _ => s.(net := Follow(s.net, Seen(s, m)))
  }

  // ---- the invariant that ties the two together ----

  /** The request of promise i is queued as a frame that takes a number; the promise owns a place
      among the numbers exactly once that frame has been dequeued, and it is the frame's number. */
  ghost predicate Tied(s: System, i: nat)
    requires i < |s.request| && i < |s.net.owner|
  {
    match s.request[i]
    case None => s.net.owner[i] == None
    case Some(id) =>
      && id < |s.bus.frames| && Bus.TakesNumber(s.bus.frames, s.bus.origins, id)
      && (if id in s.bus.served
          then s.net.owner[i].Some? && s.net.owner[i].value < |s.net.taken|
               && s.net.taken[s.net.owner[i].value] == s.bus.frames[id].frame.seqnum
          else s.net.owner[i] == None)
  }

  ghost predicate Inv(s: System) {
    && Bus.Inv(s.bus) && s.net.busId == s.bus.busId && s.net.next == s.bus.nextSeqnum
    && |s.request| == |s.net.owner| == |s.net.node.promises|
    && (forall i :: 0 <= i < |s.request| ==> Tied(s, i))
    && (forall i, j :: 0 <= i < j < |s.request| && s.request[i].Some? ==> s.request[i] != s.request[j])
  }

  /** What a bus event does to what the tie speaks of. */
  lemma EngineKeeps(s: Bus.State, ev: Bus.Event, id: nat)
    requires Bus.Inv(s) && id < |s.frames| && Bus.TakesNumber(s.frames, s.origins, id)
    ensures var t := Bus.Step(s, ev);
            && id < |t.frames| && Bus.TakesNumber(t.frames, t.origins, id)
            && (id in t.served <==> id in s.served || (Bus.Serving(s, ev) && s.sendQ[0] == id))
            && t.frames[id].frame.seqnum
               == if Bus.Serving(s, ev) && s.sendQ[0] == id then s.nextSeqnum else s.frames[id].frame.seqnum
  {
    Heads(s);
    Bus.ServedAfter(s, ev);
    hide Bus.Inv, Bus.Step;
    Bus.OnlyStamped(s, ev, id);
  }

  lemma Heads(s: Bus.State)
    requires Bus.Inv(s)
    ensures |s.origins| == |s.frames|
    ensures s.sendQ != [] ==> s.sendQ[0] < |s.frames| && s.origins[s.sendQ[0]].Local? && s.sendQ[0] !in s.served
    ensures s.fwdQ != [] ==> s.fwdQ[0] < |s.frames| && s.origins[s.fwdQ[0]].From?
  {
    hide Bus.WakeUp, Bus.Settled, Bus.Drivers, Bus.Numbered, Bus.Armed, Bus.Pick, Bus.NoDup;
    Bus.HeadOrigin(s);
  }

  /** The move is at most one action of the net, and that action is enabled. */
  ghost predicate Refined(s: System, m: Move)
    requires Enabled(s, m)
  {
    var seen := Seen(s, m);
    if seen == [] then Do(s, m).net == s.net
    else |seen| == 1 && R.Enabled(s.net, seen[0]) && Do(s, m).net == R.Act(s.net, seen[0])
  }

  lemma ServeWithAsker(n: R.Net, f: Bus.BusFrame, asker: Option<nat>)
    requires R.Enabled(n, R.Serve(f, asker))
    ensures var m := R.Act(n, R.Serve(f, None));
            R.Act(n, R.Serve(f, asker)) == if asker.Some? then m.(owner := n.owner[asker.value := Some(|n.taken|)]) else m
    ensures R.Act(n, R.Serve(f, None)) == n.(next := R.Act(n, R.Serve(f, None)).next, taken := R.Act(n, R.Serve(f, None)).taken)
  {
    hide Bus.StampFrame, Bus.NextSeqnum;
  }

  lemma ServeEnabled(s: System, id: nat)
    requires Inv(s) && id < |s.bus.frames| && id !in s.bus.served
    ensures R.Enabled(s.net, R.Serve(s.bus.frames[id], Asker(s.request, id)))
    ensures Asker(s.request, id).Some? ==> Bus.Stamps(s.bus.frames[id])
    ensures forall i :: 0 <= i < |s.request| && s.request[i] == Some(id) ==> Asker(s.request, id) == Some(i)
  {
    hide Bus.Inv, Bus.Stamps;
    var asker := Asker(s.request, id);
    if asker.Some? { assert Tied(s, asker.value); }
  }

  /** The number taken is the one the engine stamps. */
  lemma NumberTaken(s: System, ev: Bus.Event)
    requires Inv(s) && Bus.Serving(s.bus, ev)
    ensures var f := s.bus.frames[s.bus.sendQ[0]];
            var m, t := R.Act(s.net, R.Serve(f, None)), Bus.Step(s.bus, ev);
            && m.next == t.nextSeqnum && t.busId == s.bus.busId
            && (Bus.Stamps(f) ==> m.taken == s.net.taken + [s.bus.nextSeqnum])
            && s.net.taken <= m.taken
  {
    hide Bus.Inv, Bus.Step, R.Act, Bus.Stamps;
    Heads(s.bus);
    R.FollowsSend(s.bus, s.net);
    TakesIfStamps(s.bus, s.bus.sendQ[0]);
    if Bus.Stamps(s.bus.frames[s.bus.sendQ[0]]) { EngineKeeps(s.bus, ev, s.bus.sendQ[0]); }
  }

  lemma TakesIfStamps(s: Bus.State, id: nat)
    requires id < |s.frames| == |s.origins| && s.origins[id].Local?
    ensures Bus.Stamps(s.frames[id]) <==> Bus.TakesNumber(s.frames, s.origins, id)
  {
  }

  lemma ServeRefined(s: System, ev: Bus.Event)
    requires Inv(s) && Bus.Serving(s.bus, ev)
    ensures Inv(Do(s, Engine(ev))) && Refined(s, Engine(ev))
  {
    hide Bus.Inv, Bus.Step, R.Act, Bus.Stamps, Bus.TakesNumber, R.Enabled, Asker;
    var id := s.bus.sendQ[0];
    var f, asker, t := s.bus.frames[id], Asker(s.request, id), Do(s, Engine(ev));
    Heads(s.bus);
    ServeEnabled(s, id);
    ServeWithAsker(s.net, f, asker);
    NumberTaken(s, ev);
    Bus.InvStep(s.bus, ev);
    forall i | 0 <= i < |t.request| ensures Tied(t, i) {
      assert Tied(s, i);
      if s.request[i].Some? { EngineKeeps(s.bus, ev, s.request[i].value); }
    }
  }

  lemma QuietRefined(s: System, ev: Bus.Event)
    requires Inv(s) && !Bus.Serving(s.bus, ev)
    ensures Inv(Do(s, Engine(ev))) && Refined(s, Engine(ev))
  {
    hide Bus.Inv, Bus.Step, Bus.TakesNumber, R.Act, R.Enabled;
    var t := Do(s, Engine(ev));
    Heads(s.bus);
    R.QuietStep(s.bus, ev);
    Bus.InvStep(s.bus, ev);
    forall i | 0 <= i < |t.request| ensures Tied(t, i) {
      assert Tied(s, i);
      if s.request[i].Some? { EngineKeeps(s.bus, ev, s.request[i].value); }
    }
  }

  lemma RequestRefined(s: System, i: nat, f: Frame)
    requires Inv(s) && Enabled(s, Request(i, f))
    ensures Inv(Do(s, Request(i, f))) && Refined(s, Request(i, f))
  {
    hide Bus.Inv, Bus.Step, Bus.TakesNumber, R.Act, R.Enabled, Bus.Sequenced;
    var t, ev := Do(s, Request(i, f)), Bus.Push(f, false);
    Pushed(s.bus, f);
    R.QuietStep(s.bus, ev);
    Bus.InvStep(s.bus, ev);
    forall k | 0 <= k < |t.request| ensures Tied(t, k) {
      assert Tied(s, k);
      if s.request[k].Some? { EngineKeeps(s.bus, ev, s.request[k].value); }
    }
    forall k | 0 <= k < |s.request| ensures s.request[k] != Some(|s.bus.frames|) { assert Tied(s, k); }
  }

  lemma Pushed(s: Bus.State, f: Frame)
    requires Bus.Inv(s) && Bus.Sequenced(f.kind)
    ensures var t, n := Bus.Step(s, Bus.Push(f, false)), |s.frames|;
            n < |t.frames| && Bus.TakesNumber(t.frames, t.origins, n) && n !in t.served && t.busId == s.busId
  {
    hide Bus.WakeUp, Bus.Settled, Bus.Drivers, Bus.Numbered, Bus.Armed, Bus.Pick, Bus.NoDup, Bus.Apart;
  }

  lemma LearnRefined(s: System, i: nat)
    requires Inv(s) && Enabled(s, Learn(i))
    ensures Inv(Do(s, Learn(i))) && Refined(s, Learn(i))
  {
    hide Bus.Inv, Bus.TakesNumber, Correlation.Step;
    var t := Do(s, Learn(i));
    assert Tied(s, i);
    NumberReturned(s.bus, s.request[i].value);
    SameCount(s.net.node, i, Bus.SendFrame(s.bus, s.request[i].value)[0]);
    forall k | 0 <= k < |t.request| ensures Tied(t, k) { assert Tied(s, k); }
  }

  lemma NumberReturned(s: Bus.State, id: nat)
    requires Bus.Inv(s) && id < |s.frames| && Bus.SendFrame(s, id) != []
    ensures id in s.served && Bus.SendFrame(s, id) == [s.frames[id].frame.seqnum]
  {
    hide Bus.Inv;
    Bus.PromiseNeedsArming(s, id);
    Bus.PromiseIs(s, id);
  }

  lemma SameCount(n: Correlation.Node, i: nat, number: byte)
    ensures |Correlation.Step(n, Correlation.SetSeqnum(i, number)).promises| == |n.promises|
  {
  }

  lemma NetRefined(s: System, m: Move)
    requires Inv(s) && Enabled(s, m) && (m.Ask? || m.Reply? || m.Other? || m.GiveUp?)
    ensures Inv(Do(s, m)) && Refined(s, m)
  {
    hide Bus.Inv, Bus.TakesNumber;
    var t := Do(s, m);
    forall i | 0 <= i < |t.request| ensures Tied(t, i) {
      if i < |s.request| { assert Tied(s, i); }
    }
  }

  lemma StepRefined(s: System, m: Move)
    requires Inv(s) && Enabled(s, m)
    ensures Inv(Do(s, m)) && Refined(s, m)
  {
    hide Inv, Refined;
    match m
    case Engine(ev) => if Bus.Serving(s.bus, ev) { ServeRefined(s, ev); } else { QuietRefined(s, ev); }
    case Request(i, f) => RequestRefined(s, i, f);
    case Learn(i) => LearnRefined(s, i);
    case _ => NetRefined(s, m);
  }

  // ---- runs ----

  /** As in module Requests: replies are at most `late` numbers late, and no promise stays in the
      set for more than `life` numbers. */
  ghost predicate Timely(s: System, m: Move, late: nat, life: nat) {
    forall k :: 0 <= k < |Seen(s, m)| ==> R.Timely(s.net, Seen(s, m)[k], late, life)
  }

  ghost predicate Leads(s: System, moves: seq<Move>, t: System, late: nat, life: nat)
    decreases |moves|
  {
    if moves == [] then t == s
    else Enabled(s, moves[0]) && Timely(s, moves[0], late, life) && Leads(Do(s, moves[0]), moves[1..], t, late, life)
  }

  /** Every run over the bus engine is a run of the net of module Requests. */
  lemma {:induction false} RunRefined(s: System, moves: seq<Move>, t: System, late: nat, life: nat)
    returns (acts: seq<R.Action>)
    requires Inv(s) && Leads(s, moves, t, late, life)
    ensures Inv(t) && R.Leads(s.net, acts, t.net, late, life)
    decreases |moves|
  {
    hide Inv, Enabled, Do, Seen, R.Act, R.Enabled, R.Timely;
    acts := [];
    if moves != [] {
      StepRefined(s, moves[0]);
      var rest := RunRefined(Do(s, moves[0]), moves[1..], t, late, life);
      acts := Seen(s, moves[0]) + rest;
      if Seen(s, moves[0]) != [] {
        assert acts[0] == Seen(s, moves[0])[0] && acts[1..] == rest;
      } else {
        assert acts == rest;
      }
    }
  }

  lemma StartInv(names: seq<(string, bool)>, forwarding: bool, nodeId: byte, busId: byte)
    ensures Inv(Start(names, forwarding, nodeId, busId))
  {
    Bus.InvInitially(names, busId, forwarding);
    hide Bus.Inv;
  }

  /** Clients, bus thread, drivers and an honest node, in any interleaving, from start-up: with
      late replies and promise lifetimes together spanning at most 32 numbers, every register
      future holds the first reply to its own request that its comparator accepts. */
  lemma OwnRepliesOverTheBus(names: seq<(string, bool)>, forwarding: bool, nodeId: byte, busId: byte,
                             moves: seq<Move>, t: System, late: nat, life: nat)
    requires late + life <= 32 && Leads(Start(names, forwarding, nodeId, busId), moves, t, late, life)
    ensures R.OwnReplies(t.net) && Inv(t)
  {
    hide Leads, R.Leads, Inv, R.OwnReplies;
    StartInv(names, forwarding, nodeId, busId);
    var acts := RunRefined(Start(names, forwarding, nodeId, busId), moves, t, late, life);
    R.OwnRepliesAlways(nodeId, busId, acts, t.net, late, life);
  }
}
