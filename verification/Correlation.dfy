/** Requests and their replies: the frame comparator, and the promise a requester registers
    before it knows its sequence number (src/h9d/raw_node.h, src/h9d/raw_node.cc,
    src/h9d/h9framecomparator.cc). */
module Correlation {
  import opened Common
  import opened Frames
  import Bus

  // ---- the comparator ----

  /** Each field is compared only if it has been set. */
  datatype FieldSet = FieldSet(kind: Option<byte>, destination: Option<byte>, data: Option<seq<byte>>, first: Option<byte>)

  datatype Comparator = Comparator(source: Option<byte>, group: Option<u16>, seqnum: Option<byte>,
                                   seqnumOverride: Option<byte>, main: FieldSet, alternate: FieldSet)

  const NOTHING := FieldSet(None, None, None, None)

  predicate Agrees<T(==)>(o: Option<T>, x: T) { o.Some? ==> o.value == x }

  predicate Fits(s: FieldSet, f: Frame) {
    && Agrees(s.kind, f.kind) && Agrees(s.destination, f.destination)
    && (s.data.Some? ==> |s.data.value| == f.dlc && s.data.value <= f.data)
    && (s.first.Some? ==> f.dlc >= 1 && s.first.value == f.data[0])
  }

  /** `eq`. */
  predicate FitsMain(c: Comparator, f: Frame) {
    Agrees(c.group, f.group) && Agrees(c.seqnum, f.seqnum) && Fits(c.main, f)
  }

  /** `eq_alternate_set`: never when the alternate set is empty. */
  predicate FitsAlternate(c: Comparator, f: Frame) {
    && c.alternate != NOTHING && Fits(c.alternate, f)
    && (if c.seqnumOverride.Some? then c.seqnumOverride.value == f.seqnum else Agrees(c.seqnum, f.seqnum))
  }

  predicate Matches(c: Comparator, f: Frame) {
    Agrees(c.source, f.source) && (FitsMain(c, f) || FitsAlternate(c, f))
  }

  /** With no alternate field set, a frame matches exactly if it has every value that was set;
      a data string must be all of its data, a first data byte needs one to be there. */
  lemma MainAlone(c: Comparator, f: Frame)
    requires c.alternate == FieldSet(None, None, None, None)
    ensures Matches(c, f) <==>
              && (c.source.Some? ==> f.source == c.source.value)
              && (c.group.Some? ==> f.group == c.group.value)
              && (c.seqnum.Some? ==> f.seqnum == c.seqnum.value)
              && (c.main.kind.Some? ==> f.kind == c.main.kind.value)
              && (c.main.destination.Some? ==> f.destination == c.main.destination.value)
              && (c.main.data.Some? ==> f.dlc <= 8 && f.data[..f.dlc] == c.main.data.value)
              && (c.main.first.Some? ==> f.dlc > 0 && f.data[0] == c.main.first.value)
  {
  }

  /** With an alternate field set, a frame from the right source may match by either set. The
      number is compared for both, or the one given for the alternate set instead. */
  lemma EitherSet(c: Comparator, f: Frame)
    requires c.alternate != FieldSet(None, None, None, None)
    ensures Matches(c, f) <==>
              || Matches(c.(alternate := NOTHING), f)
              || Matches(Comparator(c.source, None, if c.seqnumOverride.Some? then c.seqnumOverride else c.seqnum, None,
                                    c.alternate, NOTHING), f)
  {
  }

  /** A sequence number only narrows a comparator that had none. */
  lemma Narrows(c: Comparator, seqnum: byte, f: Frame)
    requires c.seqnum == None && Matches(c.(seqnum := Some(seqnum)), f)
    ensures Matches(c, f)
    ensures c.seqnumOverride == None ==> f.seqnum == seqnum
  {
  }

  // ---- the promise ----

  /** `values` lists what the future has been given, `inSet` says whether the node still
      offers it frames. The history: it was made with comparator `created`; frames offered
      are those received from number `birth` on, up to number `left` once it is out of the
      set; `destroyed` says that its owner gave it up. */
  datatype Promise = Promise(comparator: Comparator, hasSeqnum: bool, storage: seq<Frame>, values: seq<Frame>,
                             inSet: bool, created: Comparator, birth: nat, left: nat, destroyed: bool)

  predicate FullMatch(p: Promise, f: Frame) { p.hasSeqnum && Matches(p.comparator, f) }

  /** `on_frame`. */
  function OnFrame(p: Promise, f: Frame): Promise {
    if !Matches(p.comparator, f) then p
    else if p.hasSeqnum then p.(values := p.values + [f])
    else p.(storage := p.storage + [f])
  }

  function Offered(p: Promise, f: Frame, received: nat): Promise {
    if !p.inSet then p
    else if FullMatch(p, f) then OnFrame(p, f).(inSet := false, left := received + 1)
    else OnFrame(p, f)
  }

  /** The loop of `set_comparator_seqnum`. */
  function Replay(p: Promise, received: nat): Promise
    requires p.hasSeqnum
    decreases |p.storage|
  {
    if p.storage == [] then p
    else if FullMatch(p, p.storage[0]) then OnFrame(p, p.storage[0]).(inSet := false, left := received)
    else Replay(p.(storage := p.storage[1..]), received)
  }

  function Numbered(p: Promise, seqnum: byte): Promise {
    p.(comparator := p.comparator.(seqnum := Some(seqnum)), hasSeqnum := true)
  }

  function Removed(p: Promise, received: nat): Promise {
    p.(inSet := false, left := if p.inSet then received else p.left, destroyed := true)
  }

  // ---- all promises of a node ----

  datatype Node = Node(promises: seq<Promise>, received: seq<Frame>)

  datatype Event =
    | Create(comparator: Comparator)
    | Recv(frame: Frame)
    | SetSeqnum(id: nat, seqnum: byte)
    | Destroy(id: nat)

  function NewPromise(c: Comparator, received: nat): Promise { Promise(c, false, [], [], true, c, received, 0, false) }

  function OfferedAll(ps: seq<Promise>, f: Frame, received: nat): (r: seq<Promise>)
    ensures |r| == |ps| && forall i :: 0 <= i < |ps| ==> r[i] == Offered(ps[i], f, received)
  {
    seq(|ps|, i requires 0 <= i < |ps| => Offered(ps[i], f, received))
  }

  /** The number is set once, while the promise is in the set; anything else is ignored. */
  function Step(s: Node, ev: Event): Node {
    var n := |s.received|;
    match ev
    case Create(c) => s.(promises := s.promises + [NewPromise(c, n)])
    case Recv(f) => Node(OfferedAll(s.promises, f, n), s.received + [f])
    case SetSeqnum(id, q) =>
      if id < |s.promises| && s.promises[id].inSet && !s.promises[id].hasSeqnum
      then s.(promises := s.promises[id := Replay(Numbered(s.promises[id], q), n)]) else s
    case Destroy(id) =>
      if id < |s.promises| then s.(promises := s.promises[id := Removed(s.promises[id], n)]) else s
  }

  function Run(s: Node, evs: seq<Event>): Node {
    if evs == [] then s else Step(Run(s, evs[..|evs| - 1]), evs[|evs| - 1])
  }

  // ---- the simple specification: the first frame that matches in full ----

  function FirstMatch(c: Comparator, fs: seq<Frame>): seq<Frame> {
    if fs == [] then []
    else
      var r := FirstMatch(c, fs[..|fs| - 1]);
      if r == [] && Matches(c, fs[|fs| - 1]) then [fs[|fs| - 1]] else r
  }

  /** What `FirstMatch` means. */
  lemma {:induction false} FirstMatchIs(c: Comparator, fs: seq<Frame>)
    ensures |FirstMatch(c, fs)| <= 1
    ensures FirstMatch(c, fs) == [] <==> forall t :: 0 <= t < |fs| ==> !Matches(c, fs[t])
    ensures FirstMatch(c, fs) != [] ==>
              exists t :: 0 <= t < |fs| && Matches(c, fs[t]) && FirstMatch(c, fs) == [fs[t]]
                          && forall u :: 0 <= u < t ==> !Matches(c, fs[u])
  {
    hide Matches;
    if fs != [] {
      var n := |fs| - 1;
      FirstMatchIs(c, fs[..n]);
      if FirstMatch(c, fs[..n]) != [] {
        var t :| 0 <= t < n && Matches(c, fs[..n][t]) && FirstMatch(c, fs[..n]) == [fs[..n][t]]
                 && forall u :: 0 <= u < t ==> !Matches(c, fs[..n][u]);
        assert forall u :: 0 <= u < t ==> fs[u] == fs[..n][u];
        assert FirstMatch(c, fs) == [fs[t]];
      } else {
        assert forall u :: 0 <= u < n ==> fs[u] == fs[..n][u];
      }
    }
  }

  function Select(c: Comparator, fs: seq<Frame>): seq<Frame> {
    if fs == [] then []
    else Select(c, fs[..|fs| - 1]) + if Matches(c, fs[|fs| - 1]) then [fs[|fs| - 1]] else []
  }

  lemma Extend(c: Comparator, fs: seq<Frame>, f: Frame)
    ensures Select(c, fs + [f]) == Select(c, fs) + if Matches(c, f) then [f] else []
    ensures FirstMatch(c, fs + [f])
         == if FirstMatch(c, fs) == [] && Matches(c, f) then [f] else FirstMatch(c, fs)
  {
    assert (fs + [f])[..|fs|] == fs;
  }

  /** Frames kept on the weaker comparator lose nothing the stronger one would take first. */
  lemma {:induction false} FirstOfSelected(c: Comparator, seqnum: byte, fs: seq<Frame>)
    requires c.seqnum == None
    ensures FirstMatch(c.(seqnum := Some(seqnum)), Select(c, fs)) == FirstMatch(c.(seqnum := Some(seqnum)), fs)
  {
    hide Matches;
    if fs != [] {
      var n, d := |fs| - 1, c.(seqnum := Some(seqnum));
      assert Select(c, fs[..n]) + [] == Select(c, fs[..n]);
      FirstOfSelected(c, seqnum, fs[..n]);
      Extend(d, Select(c, fs[..n]), fs[n]);
      if Matches(d, fs[n]) { Narrows(c, seqnum, fs[n]); }
    }
  }

  lemma {:induction false} FirstMatchHead(c: Comparator, f: Frame, fs: seq<Frame>)
    ensures FirstMatch(c, [f] + fs) == if Matches(c, f) then [f] else FirstMatch(c, fs)
  {
    hide Matches;
    if fs == [] {
      Extend(c, [], f);
      assert [f] + fs == [] + [f];
    } else {
      var n := |fs| - 1;
      FirstMatchHead(c, f, fs[..n]);
      assert [f] + fs == ([f] + fs[..n]) + [fs[n]];
      Extend(c, [f] + fs[..n], fs[n]);
    }
  }

  /** The replay loop finds the first stored frame that matches in full. */
  lemma {:induction false} ReplayFindsFirst(p: Promise, received: nat)
    requires p.hasSeqnum && p.values == []
    ensures var r := Replay(p, received);
            && r.values == FirstMatch(p.comparator, p.storage)
            && r == p.(storage := r.storage, values := r.values, inSet := p.inSet && r.values == [],
                       left := if r.values == [] then p.left else received)
    decreases |p.storage|
  {
    hide Matches;
    if p.storage != [] {
      FirstMatchHead(p.comparator, p.storage[0], p.storage[1..]);
      assert p.storage == [p.storage[0]] + p.storage[1..];
      if !FullMatch(p, p.storage[0]) {
        ReplayFindsFirst(p.(storage := p.storage[1..]), received);
      }
    }
  }

  // ---- deferred matching refines the simple specification ----

  function End(p: Promise, received: nat): nat { if p.inSet then received else p.left }

  /** The frames received while the promise was in the set. */
  function Window(p: Promise, received: seq<Frame>): seq<Frame>
    requires p.birth <= End(p, |received|) <= |received|
  {
    received[p.birth..End(p, |received|)]
  }

  ghost predicate Refines(p: Promise, received: seq<Frame>) {
    && p.birth <= End(p, |received|) <= |received|
    && p.created.seqnum == None && p.comparator == p.created.(seqnum := p.comparator.seqnum)
    && (p.inSet <==> p.values == [] && !p.destroyed)
    && (if p.hasSeqnum
        then p.comparator.seqnum.Some? && p.values == FirstMatch(p.comparator, Window(p, received))
        else p.comparator.seqnum == None && p.values == [] && p.storage == Select(p.comparator, Window(p, received)))
  }

  ghost predicate Refined(s: Node) {
    forall i :: 0 <= i < |s.promises| ==> Refines(s.promises[i], s.received)
  }

  predicate Legal(ev: Event) { ev.Create? ==> ev.comparator.seqnum == None }

  lemma OfferedRefines(p: Promise, f: Frame, received: seq<Frame>)
    requires Refines(p, received)
    ensures Refines(Offered(p, f, |received|), received + [f])
  {
    hide Matches, Select, FirstMatch;
    var q := Offered(p, f, |received|);
    if p.inSet {
      assert Window(q, received + [f]) == Window(p, received) + [f];
      Extend(p.comparator, Window(p, received), f);
    } else {
      assert Window(q, received + [f]) == Window(p, received);
    }
  }

  lemma NumberedRefines(p: Promise, seqnum: byte, received: seq<Frame>)
    requires Refines(p, received) && p.inSet && !p.hasSeqnum
    ensures Refines(Replay(Numbered(p, seqnum), |received|), received)
  {
    hide Matches, Select, FirstMatch, Replay;
    ReplayFindsFirst(Numbered(p, seqnum), |received|);
    FirstOfSelected(p.comparator, seqnum, Window(p, received));
  }

  lemma RefinedStep(s: Node, ev: Event)
    requires Refined(s) && Legal(ev)
    ensures Refined(Step(s, ev))
  {
    hide Refines, Replay, Offered;
    var t := Step(s, ev);
    forall i | 0 <= i < |t.promises| ensures Refines(t.promises[i], t.received) {
      if i < |s.promises| {
        if ev.Recv? { OfferedRefines(s.promises[i], ev.frame, s.received); }
        if ev.SetSeqnum? && ev.id == i && s.promises[i].inSet && !s.promises[i].hasSeqnum {
          NumberedRefines(s.promises[i], ev.seqnum, s.received);
        }
        if ev.Destroy? && ev.id == i { RemovedRefines(s.promises[i], s.received); }
      } else {
        NewRefines(ev.comparator, s.received);
      }
    }
  }

  lemma RemovedRefines(p: Promise, received: seq<Frame>)
    requires Refines(p, received)
    ensures Refines(Removed(p, |received|), received)
  {
  }

  lemma NewRefines(c: Comparator, received: seq<Frame>)
    requires c.seqnum == None
    ensures Refines(NewPromise(c, |received|), received)
  {
  }

  lemma {:induction false} RefinedAlways(s: Node, evs: seq<Event>)
    requires Refined(s) && forall i :: 0 <= i < |evs| ==> Legal(evs[i])
    ensures Refined(Run(s, evs))
  {
    hide Step, Refined;
    if evs != [] {
      RefinedAlways(s, evs[..|evs| - 1]);
      RefinedStep(Run(s, evs[..|evs| - 1]), evs[|evs| - 1]);
    }
  }

  /** However receptions and the arrival of the number interleave, a promise whose number is
      known has been given exactly the first frame, in order of arrival while it was in the
      set, that matches its comparator and number; at most one frame; and it leaves the set
      only by being given one or by being destroyed. */
  lemma DeferredMatching(evs: seq<Event>, id: nat)
    requires forall i :: 0 <= i < |evs| ==> Legal(evs[i])
    ensures var s := Run(Node([], []), evs);
            id < |s.promises| ==>
              var p := s.promises[id];
              && p.birth <= End(p, |s.received|) <= |s.received|
              && p.comparator == p.created.(seqnum := p.comparator.seqnum)
              && p.comparator.seqnum.Some? == p.hasSeqnum
              && p.values == (if p.hasSeqnum then FirstMatch(p.comparator, Window(p, s.received)) else [])
              && |p.values| <= 1
              && (p.inSet <==> p.values == [] && !p.destroyed)
  {
    RefinedAlways(Node([], []), evs);
    var s := Run(Node([], []), evs);
    hide Run;
    if id < |s.promises| {
      var p := s.promises[id];
      assert Refines(p, s.received);
      FirstMatchIs(p.comparator, Window(p, s.received));
    }
  }
}
