/** The serial driver under the bus: what the driver makes of the bytes it reads is what the bus
    engine is told (src/bus_driver/slcan_driver.cc:126-196, src/h9d/bus_endpoint.cc:16-60). */
module Serial {
  import opened Common
  import opened Frames
  import Bus
  import Slcan

  /** The events by which the bus learns of one message. */
  function Told(d: Slcan.Driver, m: string, e: nat, blank: Frame): seq<Bus.Event>
    requires m != ""
  {
    if d.aborted then []
    else if Slcan.IsEnd(m[0]) then [Bus.AckByte(e, m[0] == Slcan.CR)]
    else if m[0] == 'T' && Slcan.ParseMsg(m, blank).Parsed? then [Bus.RecvFrame(e, Slcan.ParseMsg(m, blank).frame)]
    else []
  }

  function ToldAll(d: Slcan.Driver, ms: seq<string>, e: nat, name: string, blank: Frame): seq<Bus.Event>
    requires forall i :: 0 <= i < |ms| ==> ms[i] != ""
    decreases |ms|
  {
    if ms == [] then []
    else Told(d, ms[0], e, blank) + ToldAll(Slcan.Handle(d, ms[0], name, blank), ms[1..], e, name, blank)
  }

  /** The bus thread is receiving, and the driver's counter is the one the engine keeps. */
  ghost predicate Linked(s: Bus.State, e: nat, d: Slcan.Driver, name: string) {
    && Bus.Inv(s) && s.pc == Bus.Receiving && e < |s.eps|
    && s.eps[e].slcan && s.eps[e].name == name && s.eps[e].outstanding == d.pending
  }

  /** Between the two pairs of states the driver has called back exactly as the engine has seen. */
  ghost predicate SameAcks(s: Bus.State, d: Slcan.Driver, t: Bus.State, c: Slcan.Driver, e: nat, acks: seq<bool>) {
    e < |s.eps| && e < |t.eps| && c.acks == d.acks + acks && t.eps[e].acks == s.eps[e].acks + acks
  }

  lemma OneMessage(s: Bus.State, e: nat, d: Slcan.Driver, m: string, name: string, blank: Frame)
    returns (acks: seq<bool>)
    requires Linked(s, e, d, name) && m != ""
    ensures var t, c := Bus.Run(s, Told(d, m, e, blank)), Slcan.Handle(d, m, name, blank);
            Linked(t, e, c, name) && SameAcks(s, d, t, c, e, acks)
  {
    hide Slcan.ParseMsg, Bus.Inv, Bus.Step;
    acks := [];
    assert d.acks + [] == d.acks && s.eps[e].acks + [] == s.eps[e].acks;
    if !d.aborted && Slcan.IsEnd(m[0]) {
      Bus.OneMore(s, [], Bus.AckByte(e, m[0] == Slcan.CR));
      acks := AckNews(s, e, d, name, m[0] == Slcan.CR);
    } else if !d.aborted && m[0] == 'T' && Slcan.ParseMsg(m, blank).Parsed? {
      var f := Slcan.ParseMsg(m, blank).frame;
      Bus.OneMore(s, [], Bus.RecvFrame(e, f));
      FrameNews(s, e, d, name, f);
    }
  }

  lemma AckNews(s: Bus.State, e: nat, d: Slcan.Driver, name: string, good: bool) returns (acks: seq<bool>)
    requires Linked(s, e, d, name)
    ensures var t := Bus.Step(s, Bus.AckByte(e, good));
            var c := if d.pending > 0 then d.(pending := d.pending - 1, acks := d.acks + [good]) else d;
            Linked(t, e, c, name) && SameAcks(s, d, t, c, e, acks)
  {
    hide Bus.Inv, Bus.Step;
    Bus.InvStep(s, Bus.AckByte(e, good));
    AckFacts(s, e, good);
    acks := if d.pending > 0 then [good] else [];
    assert d.acks + [] == d.acks && s.eps[e].acks + [] == s.eps[e].acks;
  }

  lemma AckFacts(s: Bus.State, e: nat, good: bool)
    requires Bus.Inv(s) && s.pc == Bus.Receiving && e < |s.eps| && s.eps[e].slcan
    ensures var t, p := Bus.Step(s, Bus.AckByte(e, good)), s.eps[e];
            && t.pc == s.pc && |t.eps| == |s.eps|
            && t.eps[e].slcan && t.eps[e].name == p.name
            && t.eps[e].outstanding == (if p.outstanding > 0 then p.outstanding - 1 else 0)
            && t.eps[e].acks == (if p.outstanding > 0 then p.acks + [good] else p.acks)
  {
    hide Bus.Inv, Bus.Step, Bus.Acked;
    Bus.AckAttribution(s, e, good);
    Bus.AckByteIs(s, e, good);
  }

  lemma FrameNews(s: Bus.State, e: nat, d: Slcan.Driver, name: string, f: Frame)
    requires Linked(s, e, d, name)
    ensures var t := Bus.Step(s, Bus.RecvFrame(e, f));
            Linked(t, e, d.(queue := d.queue + [f.(origin := name)]), name) && t.eps == s.eps
  {
    hide Bus.Inv, Bus.Step;
    Bus.InvStep(s, Bus.RecvFrame(e, f));
    RecvIs(s, e, f);
  }

  lemma RecvIs(s: Bus.State, e: nat, f: Frame)
    requires s.pc == Bus.Receiving && e < |s.eps|
    ensures Bus.Step(s, Bus.RecvFrame(e, f)) == Bus.StepRecv(s, e, f)
  {
  }

  lemma {:induction false} AllMessages(s: Bus.State, e: nat, d: Slcan.Driver, ms: seq<string>, name: string, blank: Frame)
    returns (acks: seq<bool>)
    requires Linked(s, e, d, name) && forall i :: 0 <= i < |ms| ==> ms[i] != ""
    ensures var t, c := Bus.Run(s, ToldAll(d, ms, e, name, blank)), Slcan.HandleAll(d, ms, name, blank);
            Linked(t, e, c, name) && SameAcks(s, d, t, c, e, acks)
    decreases |ms|
  {
    hide Told, Slcan.Handle, Bus.Inv, Bus.Step;
    acks := [];
    if ms == [] {
      assert d.acks + [] == d.acks && s.eps[e].acks + [] == s.eps[e].acks;
    } else {
      var first := OneMessage(s, e, d, ms[0], name, blank);
      var t, c := Bus.Run(s, Told(d, ms[0], e, blank)), Slcan.Handle(d, ms[0], name, blank);
      var rest := AllMessages(t, e, c, ms[1..], name, blank);
      Bus.RunJoined(s, Told(d, ms[0], e, blank), ToldAll(c, ms[1..], e, name, blank));
      acks := first + rest;
      assert d.acks + (first + rest) == d.acks + first + rest;
      assert s.eps[e].acks + (first + rest) == s.eps[e].acks + first + rest;
    }
  }

  /** The frames among the events, as the engine will queue them. */
  function FramesOf(evs: seq<Bus.Event>, name: string): seq<Frame> {
    if evs == [] then []
    else (if evs[0].RecvFrame? then [evs[0].f.(origin := name)] else []) + FramesOf(evs[1..], name)
  }

  lemma Associative<T>(a: seq<T>, b: seq<T>, c: seq<T>)
    ensures a + (b + c) == a + b + c
  {
  }

  lemma {:induction false} FramesJoined(a: seq<Bus.Event>, b: seq<Bus.Event>, name: string)
    ensures FramesOf(a + b, name) == FramesOf(a, name) + FramesOf(b, name)
  {
    if a == [] {
      assert a + b == b;
    } else {
      FramesJoined(a[1..], b, name);
      assert (a + b)[0] == a[0] && (a + b)[1..] == a[1..] + b;
      var head := if a[0].RecvFrame? then [a[0].f.(origin := name)] else [];
      Associative(head, FramesOf(a[1..], name), FramesOf(b, name));
    }
  }

  lemma FrameTold(d: Slcan.Driver, m: string, e: nat, name: string, blank: Frame)
    requires m != ""
    ensures Slcan.Handle(d, m, name, blank).queue == d.queue + FramesOf(Told(d, m, e, blank), name)
  {
    hide Slcan.ParseMsg;
    assert d.queue + [] == d.queue;
    assert |Told(d, m, e, blank)| == 1 ==> Told(d, m, e, blank)[1..] == [];
  }

  lemma {:induction false} FramesTold(d: Slcan.Driver, ms: seq<string>, e: nat, name: string, blank: Frame)
    requires forall i :: 0 <= i < |ms| ==> ms[i] != ""
    ensures Slcan.HandleAll(d, ms, name, blank).queue == d.queue + FramesOf(ToldAll(d, ms, e, name, blank), name)
    decreases |ms|
  {
    hide Told, Slcan.Handle;
    if ms == [] {
      assert d.queue + [] == d.queue;
    } else {
      var told, c := Told(d, ms[0], e, blank), Slcan.Handle(d, ms[0], name, blank);
      var rest := ToldAll(c, ms[1..], e, name, blank);
      FrameTold(d, ms[0], e, name, blank);
      FramesTold(c, ms[1..], e, name, blank);
      FramesJoined(told, rest, name);
      assert d.queue + FramesOf(told, name) + FramesOf(rest, name) == d.queue + (FramesOf(told, name) + FramesOf(rest, name));
    }
  }

  /** Steps the bus takes while it is receiving from endpoint e. */
  predicate FromEndpoint(ev: Bus.Event, e: nat) { (ev.AckByte? || ev.RecvFrame?) && ev.e == e }

  predicate AllFrom(evs: seq<Bus.Event>, e: nat) { forall i :: 0 <= i < |evs| ==> FromEndpoint(evs[i], e) }

  lemma {:induction false} ToldFrom(d: Slcan.Driver, ms: seq<string>, e: nat, name: string, blank: Frame)
    requires forall i :: 0 <= i < |ms| ==> ms[i] != ""
    ensures AllFrom(ToldAll(d, ms, e, name, blank), e)
    decreases |ms|
  {
    hide Slcan.Handle, Slcan.ParseMsg;
    if ms != [] { ToldFrom(Slcan.Handle(d, ms[0], name, blank), ms[1..], e, name, blank); }
  }

  /** The contents of the frames queued from the n-th on. */
  function QueuedFrom(t: Bus.State, n: nat): (r: seq<Frame>)
    ensures n <= |t.frames| ==> |r| == |t.frames| - n
  {
    if n <= |t.frames| then seq(|t.frames| - n, i requires 0 <= i < |t.frames| - n => t.frames[n + i].frame) else []
  }

  ghost predicate Hearing(s: Bus.State, e: nat, name: string, forwarding: bool) {
    && s.pc == Bus.Receiving && s.forwarding == forwarding && |s.frames| == |s.origins|
    && e < |s.eps| && s.eps[e].name == name
  }

  lemma HearingStep(s: Bus.State, e: nat, name: string, forwarding: bool, ev: Bus.Event, n: nat)
    requires Hearing(s, e, name, forwarding) && FromEndpoint(ev, e) && n <= |s.frames|
    ensures var t := Bus.Step(s, ev);
            && Hearing(t, e, name, forwarding) && |s.frames| <= |t.frames|
            && QueuedFrom(t, n) == QueuedFrom(s, n) + if forwarding then FramesOf([ev], name) else []
  {
    hide Bus.Acked;
    var t := Bus.Step(s, ev);
    assert [ev][1..] == [];
    forall id | 0 <= id < |s.frames| ensures t.frames[id].frame == s.frames[id].frame { Bus.OnlyStamped(s, ev, id); }
  }

  /** What is queued while receiving: with forwarding the frames told, and without it none. */
  lemma {:induction false} HeardIsQueued(s: Bus.State, e: nat, name: string, forwarding: bool, evs: seq<Bus.Event>)
    requires Hearing(s, e, name, forwarding) && AllFrom(evs, e)
    ensures var t := Bus.Run(s, evs);
            && Hearing(t, e, name, forwarding) && |s.frames| <= |t.frames|
            && QueuedFrom(t, |s.frames|) == if forwarding then FramesOf(evs, name) else []
  {
    hide Bus.Step, FramesOf, FromEndpoint, QueuedFrom;
    if evs == [] {
      NoFrames(name);
      NoneQueued(s);
    } else {
      var n := |evs| - 1;
      HeardIsQueued(s, e, name, forwarding, evs[..n]);
      HearingStep(Bus.Run(s, evs[..n]), e, name, forwarding, evs[n], |s.frames|);
      FramesJoined(evs[..n], [evs[n]], name);
      assert evs == evs[..n] + [evs[n]];
    }
  }

  lemma NoneQueued(s: Bus.State)
    ensures QueuedFrom(s, |s.frames|) == []
  {
  }

  lemma NoFrames(name: string)
    ensures FramesOf([], name) == []
  {
  }

  /** Text read by the driver of endpoint e, in whatever state of the bus: the bus is told one
      event for each message of the stream, in order, after which its count of outstanding sends
      is the driver's, it has seen exactly the driver's acknowledgements, and the frames it has
      queued, if it forwards at all, are those the driver decoded, field by field. */
  lemma DriverDrivesBus(s: Bus.State, e: nat, d: Slcan.Driver, text: string, name: string, blank: Frame)
    returns (acks: seq<bool>)
    requires Linked(s, e, d, name) && Slcan.NoEnd(d.buf) && !d.aborted
    ensures var ms := Slcan.Split(d.buf, text).0;
            && (forall i :: 0 <= i < |ms| ==> ms[i] != "")
            && var evs := ToldAll(d, ms, e, name, blank);
               var t, c := Bus.Run(s, evs), Slcan.FeedAll(d, text, name, blank);
               && Linked(t, e, c, name) && SameAcks(s, d, t, c, e, acks)
               && |d.queue| <= |c.queue| && c.queue[..|d.queue|] == d.queue
               && |s.frames| <= |t.frames|
               && QueuedFrom(t, |s.frames|) == if s.forwarding then c.queue[|d.queue|..] else []
  {
    hide Bus.Run, Slcan.HandleAll, Slcan.FeedAll, ToldAll, FramesOf, AllFrom, QueuedFrom;
    LinkedHears(s, e, d, name);
    hide Bus.Inv;
    Slcan.StreamIsSplitOnce(d, text, name, blank);
    var ms := Slcan.Split(d.buf, text).0;
    acks := AllMessages(s, e, d, ms, name, blank);
    FramesTold(d, ms, e, name, blank);
    ToldFrom(d, ms, e, name, blank);
    HeardIsQueued(s, e, name, s.forwarding, ToldAll(d, ms, e, name, blank));
  }

  lemma LinkedHears(s: Bus.State, e: nat, d: Slcan.Driver, name: string)
    requires Linked(s, e, d, name)
    ensures Hearing(s, e, name, s.forwarding)
  {
    hide Bus.WakeUp, Bus.Settled, Bus.Drivers, Bus.Numbered, Bus.Armed, Bus.Pick, Bus.NoDup;
  }
}
