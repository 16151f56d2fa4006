/** What is in the frames: over whole runs, every frame the bus holds or hands out carries what a
    client pushed or an endpoint heard, but for the source and number stamped on the bus's own
    and the name of the endpoint on those forwarded (src/h9d/bus.cc:16-106, 144-167, 243-258). */
module Contents {
  import opened Common
  import opened Frames
  import Bus

  /** A frame as it came in. */
  datatype Came = Came(origin: Bus.Origin, frame: Frame, raw: bool)

  /** What comes in with one step. Frames heard while forwarding is off are not kept. */
  function Coming(s: Bus.State, ev: Bus.Event): seq<Came> {
    match ev
    case Push(f, raw) => [Came(Bus.Local, f, raw)]
    case RecvFrame(e, f) =>
      if s.forwarding && s.pc == Bus.Receiving && e < |s.eps| then [Came(Bus.From(s.eps[e].name), f, false)] else []
    case _ => []
  }

  function History(s: Bus.State, evs: seq<Bus.Event>): seq<Came> {
    if evs == [] then []
    else
      var n := |evs| - 1;
      History(s, evs[..n]) + Coming(Bus.Run(s, evs[..n]), evs[n])
  }

  /** The contents of a frame that came in as c, once dequeued or before. */
  ghost predicate Carries(f: Frame, c: Came, dequeued: bool, busId: byte) {
    match c.origin
    case From(name) => f == c.frame.(origin := name)
    case Local =>
      if !dequeued || c.raw then f == c.frame
      else f == c.frame.(source := busId, seqnum := if Bus.Sequenced(c.frame.kind) then f.seqnum else c.frame.seqnum)
  }

  ghost predicate Kept(s: Bus.State, came: seq<Came>, id: nat)
    requires id < |came| && id < |s.frames| && id < |s.origins|
  {
    && s.origins[id] == came[id].origin && s.frames[id].raw == came[id].raw
    && Carries(s.frames[id].frame, came[id], id in s.served, s.busId)
  }

  ghost predicate AllKept(s: Bus.State, came: seq<Came>) {
    |came| == |s.frames| == |s.origins| && forall id :: 0 <= id < |came| ==> Kept(s, came, id)
  }

  lemma NewFrames(s: Bus.State, ev: Bus.Event)
    requires |s.frames| == |s.origins|
    ensures var t, incoming := Bus.Step(s, ev), Coming(s, ev);
            && |t.frames| == |t.origins| == |s.frames| + |incoming|
            && (incoming != [] ==>
                  var f := t.frames[|s.frames|];
                  && t.origins == s.origins + [incoming[0].origin] && f.raw == incoming[0].raw && t.served == s.served
                  && f.frame == if incoming[0].origin.Local? then incoming[0].frame
                                else incoming[0].frame.(origin := incoming[0].origin.name))
  {
    hide Bus.StepHand, Bus.StepAck, Bus.StampFrame, Bus.NextSeqnum;
    if ev.HandOne? && s.pc.Handing? { SameSize(s); }
    if ev.AckByte? && s.pc == Bus.Receiving && ev.e < |s.eps| { AckSameSize(s, ev.e, ev.good); }
  }

  lemma SameSize(s: Bus.State)
    requires s.pc.Handing?
    ensures |Bus.StepHand(s).frames| == |s.frames| && Bus.StepHand(s).origins == s.origins
  {
    hide Bus.Acked, Bus.Goes;
  }

  lemma AckSameSize(s: Bus.State, e: nat, good: bool)
    requires e < |s.eps|
    ensures |Bus.StepAck(s, e, good).frames| == |s.frames| && Bus.StepAck(s, e, good).origins == s.origins
  {
    hide Bus.Acked;
  }

  lemma KeptStep(s: Bus.State, came: seq<Came>, ev: Bus.Event)
    requires Bus.Inv(s) && AllKept(s, came)
    ensures AllKept(Bus.Step(s, ev), came + Coming(s, ev))
  {
    var t, all := Bus.Step(s, ev), came + Coming(s, ev);
    Heads(s);
    NewFrames(s, ev);
    Bus.ServedAfter(s, ev);
    hide Bus.Inv, Bus.Step, Coming, Carries;
    forall id | 0 <= id < |all| ensures Kept(t, all, id) {
      if id < |came| { OldKept(s, came, ev, all, id); } else { NewKept(s, ev, came, all); }
    }
  }

  lemma Heads(s: Bus.State)
    requires Bus.Inv(s)
    ensures |s.origins| == |s.frames| && |s.frames| !in s.served
    ensures s.sendQ != [] ==> s.sendQ[0] < |s.frames| && s.origins[s.sendQ[0]].Local? && s.sendQ[0] !in s.served
    ensures s.fwdQ != [] ==> s.fwdQ[0] < |s.frames| && s.origins[s.fwdQ[0]].From?
  {
    hide Bus.WakeUp, Bus.Settled, Bus.Drivers, Bus.Numbered, Bus.Armed, Bus.Pick, Bus.NoDup;
    Bus.HeadOrigin(s);
  }

  lemma OldKept(s: Bus.State, came: seq<Came>, ev: Bus.Event, all: seq<Came>, id: nat)
    requires Bus.Inv(s) && AllKept(s, came) && id < |came| && came <= all
    requires var t := Bus.Step(s, ev); id < |t.frames| && id < |t.origins| && Bus.MovesOn(s, ev, t)
    ensures Kept(Bus.Step(s, ev), all, id)
  {
    Heads(s);
    hide Bus.Inv, Bus.Step;
    Bus.OnlyStamped(s, ev, id);
    assert Kept(s, came, id) && all[id] == came[id];
  }

  lemma NewKept(s: Bus.State, ev: Bus.Event, came: seq<Came>, all: seq<Came>)
    requires Bus.Inv(s) && |came| == |s.frames| && all == came + Coming(s, ev) && Coming(s, ev) != []
    ensures var t := Bus.Step(s, ev);
            |came| < |t.frames| && |came| < |t.origins| && |came| < |all| && Kept(t, all, |came|)
  {
    Heads(s);
    NewFrames(s, ev);
    hide Bus.Inv, Bus.Step;
  }

  /** In every run from start-up every frame is kept as it came in. */
  lemma {:induction false} KeptAlways(names: seq<(string, bool)>, busId: byte, forwarding: bool, evs: seq<Bus.Event>)
    ensures var s0 := Bus.Initial(names, busId, forwarding); AllKept(Bus.Run(s0, evs), History(s0, evs))
  {
    hide Bus.Step, Kept, Coming;
    var s0 := Bus.Initial(names, busId, forwarding);
    if evs != [] {
      var n := |evs| - 1;
      KeptAlways(names, busId, forwarding, evs[..n]);
      Bus.InvAlways(names, busId, forwarding, evs[..n]);
      KeptStep(Bus.Run(s0, evs[..n]), History(s0, evs[..n]), evs[n]);
    }
  }

  // ---- what an endpoint is given ----

  function FramesAt(s: Bus.State, ids: seq<nat>): seq<Frame> {
    if ids == [] then []
    else
      var id := ids[|ids| - 1];
      FramesAt(s, ids[..|ids| - 1]) + if id < |s.frames| then [s.frames[id].frame] else []
  }

  lemma FramesAtOne(s: Bus.State, ids: seq<nat>, id: nat)
    requires id < |s.frames|
    ensures FramesAt(s, ids + [id]) == FramesAt(s, ids) + [s.frames[id].frame]
  {
    assert (ids + [id])[..|ids|] == ids;
  }

  lemma {:induction false} FramesAtJoined(s: Bus.State, a: seq<nat>, b: seq<nat>)
    ensures FramesAt(s, a + b) == FramesAt(s, a) + FramesAt(s, b)
  {
    if b == [] {
      assert a + b == a;
    } else {
      var n := |b| - 1;
      FramesAtJoined(s, a, b[..n]);
      assert (a + b)[..|a| + n] == a + b[..n];
      assert (a + b)[|a| + n] == b[n];
      var last := if b[n] < |s.frames| then [s.frames[b[n]].frame] else [];
      assert FramesAt(s, a) + FramesAt(s, b[..n]) + last == FramesAt(s, a) + (FramesAt(s, b[..n]) + last);
    }
  }

  /** The frames heard on other endpoints than that of this name, in order, with the name of the
      endpoint set and nothing else changed. */
  function HeardElsewhere(came: seq<Came>, name: string): seq<Frame> {
    if came == [] then []
    else
      var c := came[|came| - 1];
      HeardElsewhere(came[..|came| - 1], name) +
      match c.origin
      case From(other) => if other == name then [] else [c.frame.(origin := other)]
      case Local => []
  }

  lemma {:induction false} ForeignAre(s: Bus.State, came: seq<Came>, name: string, n: nat)
    requires AllKept(s, came) && n <= |came|
    ensures FramesAt(s, Bus.Pick(s.origins, Bus.Upto(n), Bus.Others(name))) == HeardElsewhere(came[..n], name)
  {
    hide AllKept, Carries;
    if n == 0 {
      assert Bus.Upto(0) == [] && came[..0] == [];
    } else {
      ForeignAre(s, came, name, n - 1);
      IsKept(s, came, n - 1);
      assert Bus.Upto(n) == Bus.Upto(n - 1) + [n - 1];
      Bus.PickOne(s.origins, Bus.Upto(n - 1), n - 1, Bus.Others(name));
      assert came[..n][..n - 1] == came[..n - 1];
      OneMoreForeign(s, came, name, n - 1);
    }
  }

  lemma IsKept(s: Bus.State, came: seq<Came>, id: nat)
    requires AllKept(s, came) && id < |came|
    ensures id < |s.frames| && id < |s.origins| && Kept(s, came, id)
  {
  }

  lemma OneMoreForeign(s: Bus.State, came: seq<Came>, name: string, id: nat)
    requires id < |came| && id < |s.frames| && id < |s.origins| && Kept(s, came, id)
    ensures var picked := Bus.Pick(s.origins, Bus.Upto(id), Bus.Others(name));
            FramesAt(s, picked + if Bus.Wanted(s.origins[id], Bus.Others(name)) then [id] else [])
            == FramesAt(s, picked) + match came[id].origin
                                     case From(other) => if other == name then [] else [came[id].frame.(origin := other)]
                                     case Local => []
  {
    hide Bus.Pick, Bus.Upto;
    var picked := Bus.Pick(s.origins, Bus.Upto(id), Bus.Others(name));
    FramesAtOne(s, picked, id);
    assert picked + [] == picked && FramesAt(s, picked) + [] == FramesAt(s, picked);
  }

  /** In every run: the foreign frames endpoint e has been given, followed by the one in hand if
      its turn is still to come and those queued, are exactly the frames heard on the other
      endpoints, in the order heard, unchanged but for the name of the endpoint. */
  lemma GivenAsHeard(names: seq<(string, bool)>, busId: byte, forwarding: bool, evs: seq<Bus.Event>, e: nat)
    requires e < |names|
    ensures var s0 := Bus.Initial(names, busId, forwarding);
            var s := Bus.Run(s0, evs);
            && e < |s.eps|
            && var waiting := Bus.Pick(s.origins, Bus.InHand(s, e) + s.fwdQ, Bus.Others(s.eps[e].name));
               FramesAt(s, Bus.Pick(s.origins, s.eps[e].given, Bus.Foreigns)) + FramesAt(s, waiting)
               == HeardElsewhere(History(s0, evs), s.eps[e].name)
  {
    hide Bus.Run, Bus.Inv, Bus.InHand, Bus.Pick, Bus.Upto, AllKept, HeardElsewhere, History, FramesAt;
    var s0 := Bus.Initial(names, busId, forwarding);
    var s, came := Bus.Run(s0, evs), History(s0, evs);
    Bus.SameEndpoints(s0, evs);
    Bus.InvAlways(names, busId, forwarding, evs);
    KeptAlways(names, busId, forwarding, evs);
    Bus.Merge(s, e);
    KeptSizes(s, came);
    var name := s.eps[e].name;
    ForeignAre(s, came, name, |came|);
    assert came[..|came|] == came;
    FramesAtJoined(s, Bus.Pick(s.origins, s.eps[e].given, Bus.Foreigns),
                   Bus.Pick(s.origins, Bus.InHand(s, e) + s.fwdQ, Bus.Others(name)));
  }

  lemma KeptSizes(s: Bus.State, came: seq<Came>)
    requires AllKept(s, came)
    ensures |came| == |s.frames| == |s.origins|
  {
  }

  /** In every run: the k-th frame dequeued, if a client pushed it, goes out as pushed when it is
      raw; otherwise with the bus's own number as source and, for the types that take one, the
      number of such frames dequeued before it, mod 32. */
  lemma SentAsPushed(names: seq<(string, bool)>, busId: byte, forwarding: bool, evs: seq<Bus.Event>, k: nat)
    ensures var s0 := Bus.Initial(names, busId, forwarding);
            var s, came := Bus.Run(s0, evs), History(s0, evs);
            && |came| == |s.frames| && s.busId == busId
            && (k < |s.served| ==>
                  && s.served[k] < |came|
                  && var c := came[s.served[k]];
                     (c.origin.Local? ==>
                        s.frames[s.served[k]].frame ==
                        if c.raw then c.frame
                        else c.frame.(source := busId,
                                      seqnum := if Bus.Sequenced(c.frame.kind)
                                                then Bus.Stamped(s.frames, s.origins, s.served[..k]) % 32
                                                else c.frame.seqnum)))
  {
    hide Bus.Run, Bus.Inv, AllKept, History, Bus.Stamped, Bus.Sequenced;
    var s0 := Bus.Initial(names, busId, forwarding);
    var s, came := Bus.Run(s0, evs), History(s0, evs);
    Bus.InvAlways(names, busId, forwarding, evs);
    KeptAlways(names, busId, forwarding, evs);
    KeptSizes(s, came);
    SameBus(s0, evs);
    if k < |s.served| {
      NumberedFacts(s, k);
      IsKept(s, came, s.served[k]);
    }
  }

  lemma NumberedFacts(s: Bus.State, k: nat)
    requires Bus.Inv(s) && k < |s.served|
    ensures s.served[k] < |s.frames|
    ensures Bus.TakesNumber(s.frames, s.origins, s.served[k]) ==>
              s.frames[s.served[k]].frame.seqnum == Bus.Stamped(s.frames, s.origins, s.served[..k]) % 32
  {
    hide Bus.WakeUp, Bus.Conserved, Bus.Settled, Bus.Drivers, Bus.Armed, Bus.Stamped;
  }

  lemma {:induction false} SameBus(s: Bus.State, evs: seq<Bus.Event>)
    ensures Bus.Run(s, evs).busId == s.busId
  {
    hide Bus.Step;
    if evs != [] {
      SameBus(s, evs[..|evs| - 1]);
      BusIdKept(Bus.Run(s, evs[..|evs| - 1]), evs[|evs| - 1]);
    }
  }

  lemma BusIdKept(s: Bus.State, ev: Bus.Event)
    ensures Bus.Step(s, ev).busId == s.busId
  {
    hide Bus.Acked, Bus.StampFrame, Bus.NextSeqnum, Bus.Goes, Bus.Fresh;
  }
}
