/** Requests end to end: the register requests of RawNode (src/h9d/raw_node.cc:183-372) on
    top of the sequence numbers the bus thread hands out, against a node that echoes them. */
module Requests {
  import opened Common
  import opened Frames
  import Bus
  import opened Correlation

  /** What get_reg, set_reg and bit_operation wait for. */
  function RegComparator(nodeId: byte, reg: byte): Comparator {
    Comparator(Some(nodeId), None, None, None,
               FieldSet(Some(REG_VALUE), None, None, Some(reg)), FieldSet(Some(COMMAND_ERROR), None, None, None))
  }

  /** The frames it lets through: the value of that register (type 9), or an error (type 8), from that
      node; and once the number is known, those with that number. */
  lemma AcceptedReplies(nodeId: byte, reg: byte, seqnum: byte, f: Frame)
    ensures Matches(RegComparator(nodeId, reg), f)
       <==> f.source == nodeId && ((f.kind == 9 && f.dlc >= 1 && f.data[0] == reg) || f.kind == 8)
    ensures Matches(RegComparator(nodeId, reg).(seqnum := Some(seqnum)), f)
       <==> Matches(RegComparator(nodeId, reg), f) && f.seqnum == seqnum
  {
  }

  /** `next` is the bus's next sequence number and `taken` lists the numbers taken so far.
      Promise i was made when `made[i]` numbers had been taken; `owner[i]` is the place of its
      request in `taken`. Frame t was received when `arrived[t]` numbers had been taken, and
      `answers[t]` is the request it replies to. */
  datatype Net = Net(node: Node, nodeId: byte, busId: byte, next: byte, taken: seq<byte>,
                     owner: seq<Option<nat>>, made: seq<nat>, answers: seq<Option<nat>>, arrived: seq<nat>)

  function Idle(nodeId: byte, busId: byte): Net { Net(Node([], []), nodeId, busId, 0, [], [], [], [], []) }

  datatype Action =
    | Ask(reg: byte)                               // a client registers a promise
    | Serve(frame: Bus.BusFrame, asker: Option<nat>)  // the bus thread sends a frame, perhaps a promise's request
    | Learn(id: nat)                               // send_frame returned: the promise gets its number
    | Reply(k: nat, f: Frame)                      // the node answers the k-th sequenced frame
    | Other(f: Frame)                              // anything else received
    | GiveUp(id: nat)                              // timeout, or the value has been fetched

  predicate ReplyLike(nodeId: byte, f: Frame) { f.source == nodeId && f.kind in [REG_VALUE, COMMAND_ERROR] }

  /** Every frame that looks like a reply is one, and echoes the request's number. */
  predicate Enabled(n: Net, a: Action) {
    match a
    case Ask(_) => true
    case Serve(f, id) => id.Some? ==> id.value < |n.owner| && n.owner[id.value] == None && Bus.Stamps(f)
    case Learn(id) => id < |n.owner| && n.owner[id].Some? && n.owner[id].value < |n.taken|
    case Reply(k, f) => k < |n.taken| && f.source == n.nodeId && f.seqnum == n.taken[k]
    case Other(f) => !ReplyLike(n.nodeId, f)
    case GiveUp(id) => id < |n.node.promises| && n.node.promises[id].hasSeqnum
  }

  function Act(n: Net, a: Action): Net
    requires Enabled(n, a)
  {
    match a
    case Ask(reg) =>
      n.(node := Step(n.node, Create(RegComparator(n.nodeId, reg))), owner := n.owner + [None], made := n.made + [|n.taken|])
    case Serve(f, id) =>
      n.(next := Bus.NextSeqnum(f, n.next),
         taken := if Bus.Stamps(f) then n.taken + [Bus.StampFrame(f, n.next, n.busId).frame.seqnum] else n.taken,
         owner := if id.Some? then n.owner[id.value := Some(|n.taken|)] else n.owner)
    case Learn(id) => n.(node := Step(n.node, SetSeqnum(id, n.taken[n.owner[id].value])))
    case Reply(k, f) => Hear(n, f, Some(k))
    case Other(f) => Hear(n, f, None)
    case GiveUp(id) => n.(node := Step(n.node, Destroy(id)))
  }

  function Hear(n: Net, f: Frame, answer: Option<nat>): Net {
    n.(node := Step(n.node, Recv(f)), answers := n.answers + [answer], arrived := n.arrived + [|n.taken|])
  }

  /** Replies come while at most `late` numbers have been taken since their request (itself
      counted), and a promise stays in the set for at most `life` numbers. */
  ghost predicate Timely(n: Net, a: Action, late: nat, life: nat) {
    match a
    case Reply(k, _) => |n.taken| <= k + late
    case Serve(f, _) =>
      Bus.Stamps(f) ==>
        forall i :: 0 <= i < |n.node.promises| && i < |n.made| && n.node.promises[i].inSet ==> |n.taken| < n.made[i] + life
    case _ => true
  }

  /** From n, the actions lead to t, all of them enabled and timely. */
  ghost predicate Leads(n: Net, acts: seq<Action>, t: Net, late: nat, life: nat)
    decreases |acts|
  {
    if acts == [] then t == n
    else Enabled(n, acts[0]) && Timely(n, acts[0], late, life) && Leads(Act(n, acts[0]), acts[1..], t, late, life)
  }

  // ---- the invariant ----

  ghost predicate Sized(n: Net) {
    && |n.owner| == |n.made| == |n.node.promises|
    && |n.answers| == |n.arrived| == |n.node.received|
  }

  /** The k-th number taken is k mod 32. */
  ghost predicate Counting(n: Net) {
    n.next == |n.taken| % 32 && forall k :: 0 <= k < |n.taken| ==> n.taken[k] == k % 32
  }

  ghost predicate Owned(n: Net, i: nat, life: nat)
    requires i < |n.owner| && i < |n.made| && i < |n.node.promises|
  {
    var p := n.node.promises[i];
    && p.created.main.first.Some? && p.created == RegComparator(n.nodeId, p.created.main.first.value)
    && (p.inSet ==> |n.taken| <= n.made[i] + life) && n.made[i] <= |n.taken|
    && (n.owner[i].Some? ==> n.made[i] <= n.owner[i].value < n.made[i] + life && n.owner[i].value < |n.taken|)
    && (p.hasSeqnum ==> n.owner[i].Some? && p.comparator.seqnum == Some(n.owner[i].value % 32))
    && (!p.hasSeqnum ==> p.inSet)
  }

  /** What promise i has been offered came while it was in the set. */
  ghost predicate Offers(n: Net, i: nat, life: nat)
    requires i < |n.made| && i < |n.node.promises|
  {
    var p := n.node.promises[i];
    forall t :: p.birth <= t < End(p, |n.node.received|) && t < |n.arrived| ==>
      n.made[i] <= n.arrived[t] <= n.made[i] + life
  }

  ghost predicate Heard(n: Net, t: nat, late: nat)
    requires t < |n.answers| && t < |n.arrived| && t < |n.node.received|
  {
    match n.answers[t]
    case Some(k) => k < n.arrived[t] <= k + late && n.node.received[t].seqnum == k % 32
    case None => !ReplyLike(n.nodeId, n.node.received[t])
  }

  ghost predicate Inv(n: Net, late: nat, life: nat) {
    && Sized(n) && Counting(n) && Refined(n.node)
    && (forall i :: 0 <= i < |n.made| ==> Owned(n, i, life) && Offers(n, i, life))
    && (forall t :: 0 <= t < |n.answers| ==> Heard(n, t, late))
  }

  lemma InvServe(n: Net, f: Bus.BusFrame, id: Option<nat>, late: nat, life: nat)
    requires Inv(n, late, life) && Enabled(n, Serve(f, id)) && Timely(n, Serve(f, id), late, life)
    ensures Inv(Act(n, Serve(f, id)), late, life)
  {
    hide Refined;
    var t := Act(n, Serve(f, id));
    assert Counting(t) by { DivModUnique(|n.taken|, 32, |n.taken| / 32, n.next); CountOn(|n.taken|); }
    forall i | 0 <= i < |t.made| ensures Owned(t, i, life) && Offers(t, i, life) {
      assert Owned(n, i, life) && Offers(n, i, life);
    }
    forall k | 0 <= k < |t.answers| ensures Heard(t, k, late) { assert Heard(n, k, late); }
  }

  lemma CountOn(k: nat)
    ensures (k + 1) % 32 == if k % 32 >= 31 then 0 else k % 32 + 1
  {
  }

  lemma EndBound(s: Node, i: nat)
    requires Refined(s) && i < |s.promises|
    ensures End(s.promises[i], |s.received|) <= |s.received|
  {
    assert Refines(s.promises[i], s.received);
    hide Matches, FirstMatch, Select;
  }

  lemma InvHear(n: Net, f: Frame, answer: Option<nat>, late: nat, life: nat)
    requires Inv(n, late, life)
    requires match answer
             case Some(k) => k < |n.taken| <= k + late && f.seqnum == k % 32
             case None => !ReplyLike(n.nodeId, f)
    ensures Inv(Hear(n, f, answer), late, life)
  {
    hide Refined, Matches;
    var t := Hear(n, f, answer);
    RefinedStep(n.node, Recv(f));
    forall i | 0 <= i < |t.made| ensures Owned(t, i, life) && Offers(t, i, life) {
      EndBound(n.node, i);
      assert Owned(n, i, life) && Offers(n, i, life);
    }
    forall k | 0 <= k < |t.answers| ensures Heard(t, k, late) {
      if k < |n.answers| { assert Heard(n, k, late); }
    }
  }

  lemma InvLearn(n: Net, id: nat, late: nat, life: nat)
    requires Inv(n, late, life) && Enabled(n, Learn(id))
    ensures Inv(Act(n, Learn(id)), late, life)
  {
    hide Refined, Replay;
    var t, q := Act(n, Learn(id)), n.taken[n.owner[id].value];
    RefinedStep(n.node, SetSeqnum(id, q));
    ReplayKeeps(Numbered(n.node.promises[id], q), |n.node.received|);
    forall i | 0 <= i < |t.made| ensures Owned(t, i, life) && Offers(t, i, life) {
      assert Owned(n, i, life) && Offers(n, i, life);
    }
    forall k | 0 <= k < |t.answers| ensures Heard(t, k, late) { assert Heard(n, k, late); }
  }

  lemma {:induction false} ReplayKeeps(p: Promise, received: nat)
    requires p.hasSeqnum
    ensures var r := Replay(p, received);
            && r == p.(storage := r.storage, values := r.values, inSet := r.inSet, left := r.left)
            && (r.inSet ==> p.inSet) && (p.inSet ==> End(r, received) == received)
    decreases |p.storage|
  {
    hide Matches;
    if p.storage != [] && !FullMatch(p, p.storage[0]) {
      ReplayKeeps(p.(storage := p.storage[1..]), received);
    }
  }

  lemma InvAsk(n: Net, reg: byte, late: nat, life: nat)
    requires Inv(n, late, life)
    ensures Inv(Act(n, Ask(reg)), late, life)
  {
    hide Refined;
    var t := Act(n, Ask(reg));
    RefinedStep(n.node, Create(RegComparator(n.nodeId, reg)));
    forall i | 0 <= i < |t.made| ensures Owned(t, i, life) && Offers(t, i, life) {
      if i < |n.made| { assert Owned(n, i, life) && Offers(n, i, life); }
    }
    forall k | 0 <= k < |t.answers| ensures Heard(t, k, late) { assert Heard(n, k, late); }
  }

  lemma InvGiveUp(n: Net, id: nat, late: nat, life: nat)
    requires Inv(n, late, life) && Enabled(n, GiveUp(id))
    ensures Inv(Act(n, GiveUp(id)), late, life)
  {
    hide Refined;
    var t := Act(n, GiveUp(id));
    RefinedStep(n.node, Destroy(id));
    forall i | 0 <= i < |t.made| ensures Owned(t, i, life) && Offers(t, i, life) {
      assert Owned(n, i, life) && Offers(n, i, life);
    }
    forall k | 0 <= k < |t.answers| ensures Heard(t, k, late) { assert Heard(n, k, late); }
  }

  lemma InvStep(n: Net, a: Action, late: nat, life: nat)
    requires Inv(n, late, life) && Enabled(n, a) && Timely(n, a, late, life)
    ensures Inv(Act(n, a), late, life)
  {
    match a
    case Ask(reg) => InvAsk(n, reg, late, life);
    case Serve(f, id) => InvServe(n, f, id, late, life);
    case Learn(id) => InvLearn(n, id, late, life);
    case Reply(k, f) => InvHear(n, f, Some(k), late, life);
    case Other(f) => InvHear(n, f, None, late, life);
    case GiveUp(id) => InvGiveUp(n, id, late, life);
  }

  lemma {:induction false} InvAlways(n: Net, acts: seq<Action>, t: Net, late: nat, life: nat)
    requires Inv(n, late, life) && Leads(n, acts, t, late, life)
    ensures Inv(t, late, life)
    decreases |acts|
  {
    hide Inv, Act, Enabled, Timely;
    if acts != [] {
      InvStep(n, acts[0], late, life);
      InvAlways(Act(n, acts[0]), acts[1..], t, late, life);
    }
  }

  /** `Serve` is what the bus thread does: the numbers taken here are the ones stamped by the
      machine of module Bus, and none of its other steps takes one. */
  lemma FollowsBus(s: Bus.State, ev: Bus.Event, n: Net)
    requires Bus.Inv(s) && n.next == s.nextSeqnum && n.busId == s.busId
    ensures var t := Bus.Step(s, ev);
            && t.busId == s.busId
            && if ev == Bus.RunSend && s.pc.CheckSend? && s.sendQ != [] then
                 && s.sendQ[0] < |s.frames| && s.sendQ[0] < |t.frames|
                 && var m := Act(n, Serve(s.frames[s.sendQ[0]], None));
                    && m.next == t.nextSeqnum
                    && m.taken == n.taken + if Bus.Stamps(s.frames[s.sendQ[0]])
                                            then [t.frames[s.sendQ[0]].frame.seqnum] else []
               else t.nextSeqnum == s.nextSeqnum
  {
    hide Bus.Inv, Bus.Step, Act;
    if ev == Bus.RunSend && s.pc.CheckSend? && s.sendQ != [] {
      BusKnows(s);
      FollowsSend(s, n);
    } else {
      QuietStep(s, ev);
    }
  }

  lemma FollowsSend(s: Bus.State, n: Net)
    requires s.pc.CheckSend? && s.sendQ != [] && s.sendQ[0] < |s.frames|
    requires n.next == s.nextSeqnum && n.busId == s.busId
    ensures var f, t := s.frames[s.sendQ[0]], Bus.Step(s, Bus.RunSend);
            var m := Act(n, Serve(f, None));
            && t.busId == s.busId && s.sendQ[0] < |t.frames| && m.next == t.nextSeqnum
            && m.taken == n.taken + if Bus.Stamps(f) then [t.frames[s.sendQ[0]].frame.seqnum] else []
  {
  }

  lemma QuietStep(s: Bus.State, ev: Bus.Event)
    requires !(ev == Bus.RunSend && s.pc.CheckSend? && s.sendQ != [])
    ensures Bus.Step(s, ev).busId == s.busId && Bus.Step(s, ev).nextSeqnum == s.nextSeqnum
  {
    hide Bus.Acked, Bus.StampFrame, Bus.NextSeqnum, Bus.Goes, Bus.Fresh;
  }

  lemma BusKnows(s: Bus.State)
    requires Bus.Inv(s)
    ensures Bus.Known(s.sendQ, |s.frames|)
  {
  }

  // ---- whose reply a future holds ----

  /** The future of promise i holds at most one frame, the first reply to its own request that the
      comparator accepts; a promise that knows its number and holds none has been offered none. */
  ghost predicate OwnReply(n: Net, i: nat)
    requires Sized(n) && i < |n.made|
  {
    var p := n.node.promises[i];
    && (p.values != [] ==>
          exists t :: p.birth <= t < |n.answers| && p.values == [n.node.received[t]] && Accepted(n, i, t)
                      && forall u :: p.birth <= u < t ==> !Accepted(n, i, u))
    && (p.hasSeqnum && p.values == [] ==>
          forall t :: p.birth <= t < End(p, |n.answers|) && t < |n.answers| ==> !Accepted(n, i, t))
  }

  predicate Accepted(n: Net, i: nat, t: nat)
    requires Sized(n) && i < |n.made| && t < |n.answers|
  {
    n.owner[i].Some? && n.answers[t] == n.owner[i] && Matches(n.node.promises[i].created, n.node.received[t])
  }

  ghost predicate OwnReplies(n: Net) {
    Sized(n) && forall i :: 0 <= i < |n.made| ==> OwnReply(n, i)
  }

  /** Two requests that share a number are at least 32 apart. */
  lemma SameNumber(j: nat, k: nat)
    requires j % 32 == k % 32 && -32 < j - k < 32
    ensures j == k
  {
  }

  /** Within the window, the frames that match promise i in full are the replies to its own request. */
  lemma OnlyOwn(n: Net, i: nat, t: nat, late: nat, life: nat)
    requires Inv(n, late, life) && late + life <= 32 && i < |n.made| && n.node.promises[i].hasSeqnum
    requires n.node.promises[i].birth <= t < End(n.node.promises[i], |n.node.received|) && t < |n.answers|
    ensures Matches(n.node.promises[i].comparator, n.node.received[t]) <==> Accepted(n, i, t)
  {
    var p, f := n.node.promises[i], n.node.received[t];
    assert Owned(n, i, life) && Offers(n, i, life) && Heard(n, t, late) && Refines(p, n.node.received);
    if n.answers[t].Some? {
      if f.seqnum == p.comparator.seqnum.value { SameNumber(n.answers[t].value, n.owner[i].value); }
    }
  }

  lemma ValuesAre(n: Net, i: nat, late: nat, life: nat)
    requires Inv(n, late, life) && i < |n.made|
    ensures Sized(n)
    ensures var p, received := n.node.promises[i], n.node.received;
            && p.birth <= End(p, |received|) <= |received|
            && p.values == if p.hasSeqnum then FirstMatch(p.comparator, Window(p, received)) else []
  {
    assert Refines(n.node.promises[i], n.node.received);
    hide Matches, FirstMatch;
  }

  lemma OwnReplyHolds(n: Net, i: nat, late: nat, life: nat)
    requires Inv(n, late, life) && late + life <= 32 && i < |n.made|
    ensures OwnReply(n, i)
  {
    hide Matches, Inv, FirstMatch, Accepted;
    ValuesAre(n, i, late, life);
    var p, received := n.node.promises[i], n.node.received;
    if p.values != [] {
      var fs := Window(p, received);
      FirstMatchIs(p.comparator, fs);
      var t :| 0 <= t < |fs| && Matches(p.comparator, fs[t]) && FirstMatch(p.comparator, fs) == [fs[t]]
               && forall u :: 0 <= u < t ==> !Matches(p.comparator, fs[u]);
      OnlyOwn(n, i, p.birth + t, late, life);
      assert fs[t] == received[p.birth + t];
      forall u | p.birth <= u < p.birth + t ensures !Accepted(n, i, u) {
        OnlyOwn(n, i, u, late, life);
        assert fs[u - p.birth] == received[u];
      }
    } else if p.hasSeqnum {
      var fs := Window(p, received);
      FirstMatchIs(p.comparator, fs);
      forall t | p.birth <= t < End(p, |received|) && t < |n.answers| ensures !Accepted(n, i, t) {
        OnlyOwn(n, i, t, late, life);
        assert fs[t - p.birth] == received[t];
      }
    }
  }

  /** Every interleaving of clients, bus thread and node, with late replies and promise
      lifetimes together spanning at most 32 numbers. */
  lemma OwnRepliesAlways(nodeId: byte, busId: byte, acts: seq<Action>, t: Net, late: nat, life: nat)
    requires late + life <= 32 && Leads(Idle(nodeId, busId), acts, t, late, life)
    ensures OwnReplies(t)
  {
    hide Leads, OwnReply;
    InvAlways(Idle(nodeId, busId), acts, t, late, life);
    forall i | 0 <= i < |t.made| ensures OwnReply(t, i) { OwnReplyHolds(t, i, late, life); }
  }

  // ---- the window is exact ----

  lemma {:induction false} LeadsJoined(n: Net, a: seq<Action>, m: Net, b: seq<Action>, t: Net, late: nat, life: nat)
    requires Leads(n, a, m, late, life) && Leads(m, b, t, late, life)
    ensures Leads(n, a + b, t, late, life)
    decreases |a|
  {
    hide Act, Enabled, Timely;
    if a == [] {
      assert a + b == b;
    } else {
      LeadsJoined(Act(n, a[0]), a[1..], m, b, t, late, life);
      assert (a + b)[1..] == a[1..] + b;
    }
  }

  function Request(kind: byte): Bus.BusFrame {
    Bus.Fresh(Frame("", kind, 0, 0, 0, 0, 0, 1, [0, 0, 0, 0, 0, 0, 0, 0]), false)
  }

  /** n after m more requests that are none of ours. */
  function Busy(n: Net, m: nat): Net {
    n.(next := (|n.taken| + m) % 32, taken := n.taken + seq(m, k => (|n.taken| + k) % 32))
  }

  /** No promise outlives its time while m more numbers are taken. */
  ghost predicate Room(n: Net, m: nat, life: nat) {
    forall i :: 0 <= i < |n.node.promises| && i < |n.made| && n.node.promises[i].inSet ==> |n.taken| + m <= n.made[i] + life
  }

  lemma ServeOne(n: Net)
    requires n.next == |n.taken| % 32
    ensures Enabled(n, Serve(Request(GET_REG), None))
    ensures Act(n, Serve(Request(GET_REG), None))
         == n.(next := (|n.taken| + 1) % 32, taken := n.taken + [|n.taken| % 32])
  {
    CountOn(|n.taken|);
  }

  lemma {:induction false} ServeMany(n: Net, m: nat, late: nat, life: nat)
    requires n.next == |n.taken| % 32 && Room(n, m, life)
    ensures Leads(n, seq(m, _ => Serve(Request(GET_REG), None)), Busy(n, m), late, life)
    decreases m
  {
    hide Act, Enabled;
    var acts := seq(m, _ => Serve(Request(GET_REG), None));
    if m == 0 {
      assert Busy(n, 0) == n;
    } else {
      ServeOne(n);
      var t := Act(n, acts[0]);
      ServeMany(t, m - 1, late, life);
      assert acts[1..] == seq(m - 1, _ => Serve(Request(GET_REG), None));
      assert Busy(t, m - 1).taken == Busy(n, m).taken;
    }
  }

  /** The reply to request 0 comes while `early` numbers have been taken, just after a promise
      was made; the promise's own request takes number 32, which is 0 again. */
  lemma Mismatch(nodeId: byte, early: nat, late: nat, life: nat) returns (acts: seq<Action>, t: Net)
    requires 1 <= early <= late && early <= 32 && early + life >= 33
    ensures Leads(Idle(nodeId, 0), acts, t, late, life) && !OwnReplies(t)
  {
    hide Leads, OwnReplies, Matches, Step;
    var f := Frame("", REG_VALUE, nodeId, 0, 0, 0, 0, 2, [0, 0, 0, 0, 0, 0, 0, 0]);
    var n1 := Busy(Idle(nodeId, 0), early);
    ServeMany(Idle(nodeId, 0), early, late, life);
    var n3, first := AskAndHear(n1, f, late, life);
    var n4 := Busy(n3, 32 - early);
    ServeMany(n3, 32 - early, late, life);
    var rest;
    t, rest := ServeAndLearn(n4, f, late, life);
    var a := seq(early, _ => Serve(Request(GET_REG), None));
    var b := seq(32 - early, _ => Serve(Request(GET_REG), None));
    NotOwn(t);
    LeadsJoined(n3, b, n4, rest, t, late, life);
    LeadsJoined(n1, first, n3, b + rest, t, late, life);
    acts := a + (first + (b + rest));
    LeadsJoined(Idle(nodeId, 0), a, n1, first + (b + rest), t, late, life);
  }

  lemma NotOwn(t: Net)
    requires t.owner == [Some(32)] && t.answers == [Some(0)] && |t.made| == |t.arrived| == 1
    requires |t.node.promises| == |t.node.received| == 1 && t.node.promises[0].values != []
    ensures !OwnReplies(t)
  {
    hide Matches;
    assert !OwnReply(t, 0);
  }

  lemma AskAndHear(n: Net, f: Frame, late: nat, life: nat) returns (t: Net, acts: seq<Action>)
    requires n.node == Node([], []) && n.made == [] && n.owner == [] && n.answers == [] && n.arrived == []
    requires 1 <= |n.taken| <= late && n.taken[0] == 0
    requires f.kind == REG_VALUE && f.source == n.nodeId && f.seqnum == 0 && f.dlc == 2 && f.data[0] == 0
    ensures Leads(n, acts, t, late, life)
    ensures t == n.(node := Node([NewPromise(RegComparator(n.nodeId, 0), 0).(storage := [f])], [f]),
                    owner := [None], made := [|n.taken|], answers := [Some(0)], arrived := [|n.taken|])
  {
    acts := [Ask(0), Reply(0, f)];
    var m := Act(n, Ask(0));
    t := Act(m, Reply(0, f));
    assert Leads(t, [], t, late, life);
    assert [Reply(0, f)][1..] == [] && acts[1..] == [Reply(0, f)];
    assert Leads(m, [Reply(0, f)], t, late, life);
    var p := NewPromise(RegComparator(n.nodeId, 0), 0);
    assert m.node == Node([p], []);
    assert OfferedAll([p], f, 0) == [Offered(p, f, 0)];
    assert p.storage + [f] == [f] && m.node.received + [f] == [f];
    assert t.node == Node([p.(storage := [f])], [f]);
  }

  lemma ServeAndLearn(n: Net, f: Frame, late: nat, life: nat) returns (t: Net, acts: seq<Action>)
    requires |n.taken| == 32 && n.next == 0 && n.owner == [None] && |n.made| == 1 && 32 < n.made[0] + life
    requires n.node == Node([NewPromise(RegComparator(n.nodeId, 0), 0).(storage := [f])], [f])
    requires f.kind == REG_VALUE && f.source == n.nodeId && f.seqnum == 0 && f.dlc == 2 && f.data[0] == 0
    ensures Leads(n, acts, t, late, life)
    ensures t.owner == [Some(32)] && t.made == n.made && t.answers == n.answers && t.arrived == n.arrived
    ensures |t.node.promises| == 1 && t.node.promises[0].values == [f] && t.node.received == [f]
  {
    acts := [Serve(Request(GET_REG), Some(0)), Learn(0)];
    var m := Act(n, acts[0]);
    t := Act(m, Learn(0));
    assert Leads(t, [], t, late, life);
    assert [Learn(0)][1..] == [] && acts[1..] == [Learn(0)];
    assert Leads(m, [Learn(0)], t, late, life);
  }

  /** Futures hold replies to their own requests, in every run, exactly when late replies and
      promise lifetimes together span at most 32 numbers. */
  lemma WindowIsExact(nodeId: byte, late: nat, life: nat)
    requires late >= 1 && life >= 1
    ensures (forall acts, t :: Leads(Idle(nodeId, 0), acts, t, late, life) ==> OwnReplies(t)) <==> late + life <= 32
  {
    hide Leads, OwnReplies;
    if late + life <= 32 {
      forall acts, t | Leads(Idle(nodeId, 0), acts, t, late, life) ensures OwnReplies(t) {
        OwnRepliesAlways(nodeId, 0, acts, t, late, life);
      }
    } else {
      var acts, t := Mismatch(nodeId, if life >= 32 then 1 else 33 - life, late, life);
    }
  }
}
