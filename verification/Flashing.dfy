/** The whole upload: host and bootloader exchanging frames over a bus on which other frames
    travel too. The bootloader follows the state diagram of doc/bootloader.md. */
module Flashing {
  import opened Common
  import opened Frames
  import opened Uploader
  import IntelHex

  // ---- the bootloader ----

  datatype Page = Page(number: nat, bytes: seq<byte>)

  /** `page` is the page being filled, `fill` what it holds so far. */
  datatype Boot = Boot(active: bool, page: Option<nat>, fill: seq<byte>, written: seq<Page>)

  function Says(node: byte, kind: byte): Frame { Frame("", kind, node, 0, 0, 0, 0, 0, [0, 0, 0, 0, 0, 0, 0, 0]) }

  /** It looks only at frames addressed to its node, and only at the data bytes they carry. */
  function BootOn(j: Job, b: Boot, f: Frame): (Boot, seq<Frame>) {
    if !b.active || f.destination != j.node then (b, [])
    else if f.kind == PAGE_START && f.dlc == 2 then
      (b.(page := Some(f.data[0] as int * 256 + f.data[1]), fill := []), [Says(j.node, PAGE_FILL_NEXT)])
    else if f.kind == PAGE_FILL && b.page.Some? then
      var fill := b.fill + f.data[..Min(f.dlc, 8)];
      if |fill| < j.pageSize then (b.(fill := fill), [Says(j.node, PAGE_FILL_NEXT)])
      else (b.(page := None, fill := [], written := b.written + [Page(b.page.value, fill)]), [Says(j.node, PAGE_WRITED)])
    else if f.kind == QUIT_BOOTLOADER then (b.(active := false), [])
    else (b, [])
  }

  // ---- the two together ----

  datatype Net = Net(host: Host, boot: Boot, toHost: seq<Frame>, toNode: seq<Frame>, sent: seq<Frame>)

  datatype Event =
    | HostRecv            // the host receives the next frame
    | NodeRecv            // the bootloader receives the next frame
    | Noise(f: Frame)     // the host will also see this frame, which is none of the node's three replies

  predicate Reply(j: Job, f: Frame) {
    f.source == j.node && f.kind in [BOOTLOADER_TURNED_ON, PAGE_WRITED, PAGE_FILL_NEXT]
  }

  /** Started by NODE_UPGRADE, the bootloader announces itself; started without it, the program
      has sent PAGE_START for page 0 itself. */
  function Start(j: Job, announced: bool): Net {
    Net(Host(0, 0, 0, 0, false, false), Boot(true, None, [], []),
        if announced then [Says(j.node, BOOTLOADER_TURNED_ON)] else [],
        if announced then [] else [PageStart(j.node, 0)], [])
  }

  function Step(j: Job, n: Net, ev: Event): Net {
    match ev
    case HostRecv =>
      if n.toHost == [] then n
      else
        var (h, out) := HostOn(j, n.host, n.toHost[0]);
        n.(host := h, toHost := n.toHost[1..], toNode := n.toNode + out, sent := n.sent + out)
    case NodeRecv =>
      if n.toNode == [] then n
      else
        var (b, out) := BootOn(j, n.boot, n.toNode[0]);
        n.(boot := b, toNode := n.toNode[1..], toHost := n.toHost + out)
    case Noise(f) => if Reply(j, f) then n else n.(toHost := n.toHost + [f])
  }

  function Run(j: Job, n: Net, evs: seq<Event>): Net {
    if evs == [] then n else Step(j, Run(j, n, evs[..|evs| - 1]), evs[|evs| - 1])
  }

  /** Page size a multiple of 8 that divides the flash; an image that is not empty and fits. */
  ghost predicate Proper(j: Job) {
    && |j.image| == IntelHex.CAPACITY && 0 < j.size <= IntelHex.CAPACITY
    && j.pageSize > 0 && j.pageSize % 8 == 0 && IntelHex.CAPACITY % j.pageSize == 0
  }

  // ---- the invariant ----

  function Replies(j: Job, fs: seq<Frame>): seq<Frame> {
    if fs == [] then [] else (if Reply(j, fs[0]) then [fs[0]] else []) + Replies(j, fs[1..])
  }

  lemma {:induction false} RepliesMore(j: Job, fs: seq<Frame>, f: Frame)
    ensures Replies(j, fs + [f]) == Replies(j, fs) + if Reply(j, f) then [f] else []
  {
    if fs != [] {
      assert (fs + [f])[1..] == fs[1..] + [f];
      RepliesMore(j, fs[1..], f);
    } else {
      assert [f][1..] == [];
    }
  }

  /** Page i holds the i-th part of the image. */
  ghost predicate PageIs(j: Job, p: Page, i: nat) {
    && 0 <= i * j.pageSize && (i + 1) * j.pageSize <= |j.image|
    && p == Page(i, j.image[i * j.pageSize..(i + 1) * j.pageSize])
  }

  /** Where the page that is next to be written starts. */
  function BaseOf(j: Job, b: Boot): nat { |b.written| * j.pageSize }

  /** Which one message is under way, and how far everyone is. */
  datatype Phase = Announced | Starting | Asking | Filling | Wrote | Quitting | Over

  ghost predicate At(j: Job, n: Net, phase: Phase) {
    var h, b, k := n.host, n.boot, |n.boot.written|;
    var base, r := BaseOf(j, b), Replies(j, n.toHost);
    match phase
    case Announced =>
      && r == [Says(j.node, BOOTLOADER_TURNED_ON)] && n.toNode == []
      && k == 0 && b.active && b.page == None && b.fill == [] && h.fwIdx == 0 && h.page == 0 && !h.done
    case Starting =>
      && r == [] && n.toNode == [PageStart(j.node, h.page)] && base < j.size
      && b.active && b.page == None && b.fill == [] && h.fwIdx == base && h.page == k && !h.done
    case Asking =>
      && r == [Says(j.node, PAGE_FILL_NEXT)] && n.toNode == [] && base < j.size
      && Midway(j, n, b.fill) && h.fwIdx == base + |b.fill|
    case Filling =>
      && r == [] && base < j.size && base + |b.fill| + 8 <= |j.image|
      && n.toNode == [PageFill(j.node, j.image[base + |b.fill|..base + |b.fill| + 8])]
      && Midway(j, n, b.fill) && h.fwIdx == base + |b.fill| + 8
    case Wrote =>
      && r == [Says(j.node, PAGE_WRITED)] && n.toNode == [] && k > 0 && base - j.pageSize < j.size
      && b.active && b.page == None && b.fill == [] && h.fwIdx == base && h.page == k - 1 && !h.done
    case Quitting =>
      && r == [] && n.toNode == [Quit(j.node)] && k > 0 && base - j.pageSize < j.size <= base
      && h.fwIdx == base && h.done
    case Over =>
      && r == [] && n.toNode == [] && k > 0 && base - j.pageSize < j.size <= base
      && h.fwIdx == base && h.done && !b.active
  }

  ghost predicate Midway(j: Job, n: Net, fill: seq<byte>) {
    var base := BaseOf(j, n.boot);
    && n.boot.active && n.boot.page == Some(|n.boot.written|) && n.host.page == |n.boot.written| && !n.host.done
    && |fill| < j.pageSize && |fill| % 8 == 0 && base + |fill| <= |j.image| && fill == j.image[base..base + |fill|]
  }

  ghost predicate NoQuit(fs: seq<Frame>) { forall i :: 0 <= i < |fs| ==> fs[i].kind != QUIT_BOOTLOADER }

  /** QUIT_BOOTLOADER is sent last, once. */
  ghost predicate QuitLast(j: Job, n: Net) {
    if n.host.done then n.sent != [] && n.sent[|n.sent| - 1] == Quit(j.node) && NoQuit(n.sent[..|n.sent| - 1])
    else NoQuit(n.sent)
  }

  ghost predicate Inv(j: Job, n: Net, phase: Phase) {
    && At(j, n, phase) && !n.host.overrun && QuitLast(j, n)
    && (forall i :: 0 <= i < |n.boot.written| ==> PageIs(j, n.boot.written[i], i))
    && n.host.fwIdx <= IntelHex.CAPACITY
  }

  /** A page that starts inside the flash ends inside it, and pages are counted in 16 bits. */
  lemma PageFits(j: Job, k: nat)
    requires Proper(j) && k * j.pageSize < j.size
    ensures (k + 1) * j.pageSize <= IntelHex.CAPACITY && k < 0x1_0000
  {
    var p, n := j.pageSize, IntelHex.CAPACITY / j.pageSize;
    assert n * p == IntelHex.CAPACITY;
    LessIfScaled(k, n, p);
    Scaled(k + 1, n, p);
    assert 0x1_0000 * p >= 0x1_0000 * 8;
    LessIfScaled(k, 0x1_0000, p);
  }

  lemma Scaled(a: nat, b: nat, p: nat)
    requires a <= b
    ensures a * p <= b * p
  {
    assert (b - a) * p >= 0;
  }

  lemma LessIfScaled(a: nat, b: nat, p: nat)
    requires a * p < b * p
    ensures a < b
  {
    if a >= b {
      Scaled(b, a, p);
      assert false;
    }
  }

  /** The phase after an event: it changes only when the one message under way arrives. */
  function Next(j: Job, n: Net, phase: Phase, ev: Event): Phase {
    if ev.HostRecv? && n.toHost != [] && Reply(j, n.toHost[0]) then
      if phase.Asking? then Filling
      else if phase.Wrote? && n.host.fwIdx >= j.size then Quitting
      else Starting
    else if ev.NodeRecv? && n.toNode != [] then
      if phase.Quitting? then Over
      else if phase.Filling? && |n.boot.fill| + 8 >= j.pageSize then Wrote
      else Asking
    else phase
  }

  lemma HeadReply(j: Job, fs: seq<Frame>)
    requires fs != []
    ensures Replies(j, fs) == (if Reply(j, fs[0]) then [fs[0]] else []) + Replies(j, fs[1..])
  {
  }

  lemma OneReply(j: Job, fs: seq<Frame>, f: Frame)
    requires fs != [] && Replies(j, fs) == [f] && Reply(j, fs[0])
    ensures fs[0] == f && Replies(j, fs[1..]) == []
  {
    assert Replies(j, fs) == [fs[0]] + Replies(j, fs[1..]);
    assert Replies(j, fs)[0] == fs[0];
    assert |Replies(j, fs)| == 1 + |Replies(j, fs[1..])|;
  }

  lemma NoReply(j: Job, fs: seq<Frame>)
    requires fs != [] && Replies(j, fs) == []
    ensures !Reply(j, fs[0])
  {
  }

  /** Frames that are no replies pass the host without effect on the upload. */
  lemma Ignored(j: Job, h: Host, f: Frame)
    requires !Reply(j, f)
    ensures HostOn(j, h, f).1 == [] && HostOn(j, h, f).0 == h.(received := HostOn(j, h, f).0.received)
  {
  }

  lemma InvIfQuiet(j: Job, n: Net, t: Net, phase: Phase)
    requires Inv(j, n, phase) && Replies(j, t.toHost) == Replies(j, n.toHost) && t.toNode == n.toNode
    requires t.host == n.host.(received := t.host.received) && t.boot == n.boot && t.sent == n.sent
    ensures Inv(j, t, phase)
  {
    hide Replies, PageStart, PageFill, Quit, PageIs;
  }

  lemma InvNoise(j: Job, n: Net, phase: Phase, f: Frame)
    requires Inv(j, n, phase)
    ensures Inv(j, Step(j, n, Noise(f)), phase)
  {
    hide Inv, Replies, Reply;
    if !Reply(j, f) {
      RepliesMore(j, n.toHost, f);
      assert Replies(j, n.toHost) + [] == Replies(j, n.toHost);
      InvIfQuiet(j, n, Step(j, n, Noise(f)), phase);
    }
  }

  lemma InvHostIgnores(j: Job, n: Net, phase: Phase)
    requires Inv(j, n, phase) && n.toHost != [] && !Reply(j, n.toHost[0])
    ensures Inv(j, Step(j, n, HostRecv), phase)
  {
    hide Inv, Replies, Reply, HostOn;
    Ignored(j, n.host, n.toHost[0]);
    HeadReply(j, n.toHost);
    assert [] + Replies(j, n.toHost[1..]) == Replies(j, n.toHost[1..]);
    var t := Step(j, n, HostRecv);
    assert t.toNode == n.toNode + [] == n.toNode && t.sent == n.sent + [] == n.sent;
    InvIfQuiet(j, n, t, phase);
  }

  lemma QuitLastKept(j: Job, n: Net)
    requires QuitLast(j, n) && n.toHost != []
    ensures QuitLast(j, Step(j, n, HostRecv))
  {
    var out := HostOn(j, n.host, n.toHost[0]).1;
    assert out != [] ==> (n.sent + out)[..|n.sent|] == n.sent;
    assert n.sent + [] == n.sent;
  }

  lemma InvHostAnnounced(j: Job, n: Net)
    requires Proper(j) && Inv(j, n, Announced) && n.toHost != [] && Reply(j, n.toHost[0])
    ensures Inv(j, Step(j, n, HostRecv), Starting)
  {
    QuitLastKept(j, n);
    hide QuitLast, Replies, PageStart, PageIs;
    OneReply(j, n.toHost, Says(j.node, BOOTLOADER_TURNED_ON));
  }

  lemma PageInside(j: Job, b: Boot)
    requires Proper(j) && BaseOf(j, b) < j.size
    ensures BaseOf(j, b) + j.pageSize <= |j.image| == IntelHex.CAPACITY && |b.written| < 0x1_0000 && j.pageSize % 8 == 0
  {
    PageFits(j, |b.written|);
  }

  lemma InvHostAsked(j: Job, n: Net)
    requires Proper(j) && Inv(j, n, Asking) && n.toHost != [] && Reply(j, n.toHost[0])
    ensures Inv(j, Step(j, n, HostRecv), Filling)
  {
    QuitLastKept(j, n);
    hide QuitLast, Replies, PageFill, PageIs, BaseOf, Proper, PageStart, Quit;
    OneReply(j, n.toHost, Says(j.node, PAGE_FILL_NEXT));
    PageInside(j, n.boot);
    RoomForEight(|n.boot.fill|, j.pageSize);
  }

  lemma RoomForEight(a: nat, p: nat)
    requires a < p && a % 8 == 0 && p % 8 == 0
    ensures a + 8 <= p
  {
  }

  lemma InvHostWrote(j: Job, n: Net)
    requires Proper(j) && Inv(j, n, Wrote) && n.toHost != [] && Reply(j, n.toHost[0])
    ensures Inv(j, Step(j, n, HostRecv), if n.host.fwIdx >= j.size then Quitting else Starting)
  {
    QuitLastKept(j, n);
    hide QuitLast, Replies, PageStart, PageIs, Quit;
    OneReply(j, n.toHost, Says(j.node, PAGE_WRITED));
    var k := |n.boot.written|;
    if n.host.fwIdx < j.size { PageFits(j, k); }
  }

  lemma NodeReplies(j: Job, n: Net, kind: byte)
    requires kind in [PAGE_FILL_NEXT, PAGE_WRITED] && Replies(j, n.toHost) == []
    ensures Replies(j, n.toHost + [Says(j.node, kind)]) == [Says(j.node, kind)]
  {
    RepliesMore(j, n.toHost, Says(j.node, kind));
    hide Replies;
  }

  lemma InvNodeStarts(j: Job, n: Net)
    requires Proper(j) && Inv(j, n, Starting)
    ensures Inv(j, Step(j, n, NodeRecv), Asking)
  {
    hide Replies, PageIs;
    NodeReplies(j, n, PAGE_FILL_NEXT);
    var q, r := Divide(n.host.page, 256);
    PageFits(j, |n.boot.written|);
  }

  lemma FilledSoFar(j: Job, n: Net)
    requires Proper(j) && Inv(j, n, Filling)
    ensures var base, fill := BaseOf(j, n.boot), n.boot.fill;
            && |fill| + 8 <= j.pageSize && base + j.pageSize <= |j.image|
            && fill + n.toNode[0].data == j.image[base..base + |fill| + 8]
  {
    hide Replies, PageIs, BaseOf, Proper, PageStart, Quit;
    var base, fill := BaseOf(j, n.boot), n.boot.fill;
    PageInside(j, n.boot);
    RoomForEight(|fill|, j.pageSize);
    assert j.image[base..base + |fill|] + j.image[base + |fill|..base + |fill| + 8] == j.image[base..base + |fill| + 8];
  }

  /** What taking eight more bytes does, short of a whole page. */
  lemma EightMore(j: Job, n: Net)
    requires Inv(j, n, Filling) && |n.boot.fill| + 8 < j.pageSize
    ensures Step(j, n, NodeRecv) == n.(boot := n.boot.(fill := n.boot.fill + n.toNode[0].data), toNode := [],
                                       toHost := n.toHost + [Says(j.node, PAGE_FILL_NEXT)])
  {
    hide Replies, PageIs, BaseOf, Quit, QuitLast;
    assert n.toNode[0].data[..8] == n.toNode[0].data && n.toNode[1..] == [];
  }

  lemma InvNodeFills(j: Job, n: Net)
    requires Proper(j) && Inv(j, n, Filling) && |n.boot.fill| + 8 < j.pageSize
    ensures Inv(j, Step(j, n, NodeRecv), Asking)
  {
    hide Replies, PageIs, BaseOf, Proper, PageStart, Quit, Step, QuitLast, NoQuit;
    var t := Step(j, n, NodeRecv);
    FilledSoFar(j, n);
    EightMore(j, n);
    NodeReplies(j, n, PAGE_FILL_NEXT);
    SameBase(j, n.boot, t.boot);
    SameQuit(j, n, t);
  }

  lemma SameQuit(j: Job, n: Net, t: Net)
    requires QuitLast(j, n) && t.host == n.host && t.sent == n.sent
    ensures QuitLast(j, t)
  {
  }

  lemma SameBase(j: Job, b: Boot, c: Boot)
    requires b.written == c.written
    ensures BaseOf(j, b) == BaseOf(j, c)
  {
  }

  /** What the last eight bytes of a page do. */
  lemma LastEight(j: Job, n: Net)
    requires Inv(j, n, Filling) && |n.boot.fill| + 8 >= j.pageSize
    ensures var page := Page(|n.boot.written|, n.boot.fill + n.toNode[0].data);
            Step(j, n, NodeRecv) == n.(boot := n.boot.(page := None, fill := [], written := n.boot.written + [page]),
                                       toNode := [], toHost := n.toHost + [Says(j.node, PAGE_WRITED)])
  {
    hide Replies, PageIs, BaseOf, Quit, QuitLast;
    assert n.toNode[0].data[..8] == n.toNode[0].data && n.toNode[1..] == [];
  }

  lemma InvNodeWrites(j: Job, n: Net)
    requires Proper(j) && Inv(j, n, Filling) && |n.boot.fill| + 8 >= j.pageSize
    ensures Inv(j, Step(j, n, NodeRecv), Wrote)
  {
    hide Replies, PageIs, BaseOf, Proper, PageStart, Quit, Step, QuitLast, NoQuit;
    var t := Step(j, n, NodeRecv);
    FilledSoFar(j, n);
    LastEight(j, n);
    NodeReplies(j, n, PAGE_WRITED);
    PageWritten(j, n.boot, t.boot, n.boot.fill + n.toNode[0].data);
    SameQuit(j, n, t);
  }

  lemma PageWritten(j: Job, b: Boot, c: Boot, bytes: seq<byte>)
    requires c.written == b.written + [Page(|b.written|, bytes)]
    requires |bytes| == j.pageSize && BaseOf(j, b) + j.pageSize <= |j.image|
    requires bytes == j.image[BaseOf(j, b)..BaseOf(j, b) + j.pageSize]
    ensures BaseOf(j, c) == BaseOf(j, b) + j.pageSize && PageIs(j, c.written[|b.written|], |b.written|)
  {
    assert (|b.written| + 1) * j.pageSize == BaseOf(j, b) + j.pageSize;
  }

  lemma InvNodeQuits(j: Job, n: Net)
    requires Proper(j) && Inv(j, n, Quitting)
    ensures Inv(j, Step(j, n, NodeRecv), Over)
  {
    hide Replies, PageIs;
    assert n.toHost + [] == n.toHost;
  }

  /** Nothing is awaited in these phases at that side. */
  lemma Awaited(j: Job, n: Net, phase: Phase)
    requires Inv(j, n, phase)
    ensures n.toHost != [] && Reply(j, n.toHost[0]) ==> phase in [Announced, Asking, Wrote]
    ensures n.toNode != [] <==> phase in [Starting, Filling, Quitting]
  {
    hide PageIs, PageStart, PageFill, Quit;
    if n.toHost != [] && Replies(j, n.toHost) == [] { NoReply(j, n.toHost); }
  }

  lemma InvStep(j: Job, n: Net, phase: Phase, ev: Event)
    requires Proper(j) && Inv(j, n, phase)
    ensures Inv(j, Step(j, n, ev), Next(j, n, phase, ev))
  {
    hide Inv, Replies, Reply, HostOn, BootOn;
    Awaited(j, n, phase);
    match ev
    case Noise(f) => InvNoise(j, n, phase, f);
    case HostRecv =>
      if n.toHost != [] {
        if !Reply(j, n.toHost[0]) { InvHostIgnores(j, n, phase); }
        else if phase.Announced? { InvHostAnnounced(j, n); }
        else if phase.Asking? { InvHostAsked(j, n); }
        else { InvHostWrote(j, n); }
      }
    case NodeRecv =>
      if n.toNode != [] {
        if phase.Starting? { InvNodeStarts(j, n); }
        else if phase.Filling? { if |n.boot.fill| + 8 < j.pageSize { InvNodeFills(j, n); } else { InvNodeWrites(j, n); } }
        else { InvNodeQuits(j, n); }
      }
  }

  lemma InvStart(j: Job, announced: bool)
    requires Proper(j)
    ensures Inv(j, Start(j, announced), if announced then Announced else Starting)
  {
    HeadReply(j, [Says(j.node, BOOTLOADER_TURNED_ON)]);
    assert [Says(j.node, BOOTLOADER_TURNED_ON)][1..] == [];
  }

  // ---- the upload is right, and it ends ----

  /** What is still to be done: bytes to send, and steps of the current page. */
  function Remaining(j: Job, n: Net, phase: Phase): int {
    CeilDiv(j.size, if j.pageSize > 0 then j.pageSize else 1) * j.pageSize - n.host.fwIdx +
    match phase
    case Announced => 5
    case Starting => 4
    case Asking => 3
    case Filling => 6
    case Wrote => 5
    case Quitting => 1
    case Over => 0
  }

  /** The pages needed are those that start before the end of the image. */
  lemma PagesNeeded(j: Job, k: nat)
    requires j.pageSize > 0 && k > 0 && k * j.pageSize - j.pageSize < j.size <= k * j.pageSize
    ensures CeilDiv(j.size, j.pageSize) == k
  {
    DivModUnique(j.size + j.pageSize - 1, j.pageSize, k, j.size + j.pageSize - 1 - k * j.pageSize);
  }

  lemma AllPages(j: Job)
    requires j.pageSize > 0 && j.size > 0
    ensures var k := CeilDiv(j.size, j.pageSize); k > 0 && (k - 1) * j.pageSize < j.size <= k * j.pageSize
  {
    var q, r := Divide(j.size + j.pageSize - 1, j.pageSize);
    if q <= 0 {
      Scaled(q, 0, j.pageSize);
      assert false;
    }
  }

  /** The one message under way arrives. */
  predicate Moves(j: Job, n: Net, ev: Event) {
    || (ev.HostRecv? && n.toHost != [] && Reply(j, n.toHost[0]))
    || (ev.NodeRecv? && n.toNode != [])
  }

  lemma PageCounted(j: Job, k: nat)
    requires Proper(j) && k * j.pageSize < j.size
    ensures (k + 1) * j.pageSize <= CeilDiv(j.size, j.pageSize) * j.pageSize
  {
    AllPages(j);
    LessIfScaled(k, CeilDiv(j.size, j.pageSize), j.pageSize);
    Scaled(k + 1, CeilDiv(j.size, j.pageSize), j.pageSize);
  }

  /** The host never sends more than the pages needed. */
  lemma NeverTooMuch(j: Job, n: Net, phase: Phase)
    requires Proper(j) && Inv(j, n, phase)
    ensures n.host.fwIdx <= CeilDiv(j.size, j.pageSize) * j.pageSize
    ensures |n.boot.written| <= CeilDiv(j.size, j.pageSize)
    ensures n.host.done ==> |n.boot.written| == CeilDiv(j.size, j.pageSize) && n.host.fwIdx == BaseOf(j, n.boot)
  {
    var k := |n.boot.written|;
    AllPages(j);
    Within(j, n, phase);
    hide Replies, PageIs, PageStart, PageFill, Quit, Inv;
    if n.host.done {
      PagesNeeded(j, k);
    } else if phase.Wrote? {
      PageCounted(j, k - 1);
      LessIfScaled(k - 1, CeilDiv(j.size, j.pageSize), j.pageSize);
    } else {
      PageCounted(j, k);
      LessIfScaled(k, CeilDiv(j.size, j.pageSize), j.pageSize);
    }
  }

  lemma Within(j: Job, n: Net, phase: Phase)
    requires Proper(j) && Inv(j, n, phase)
    ensures var k := |n.boot.written|;
            var base := k * j.pageSize;
            if n.host.done then k > 0 && base - j.pageSize < j.size <= base && n.host.fwIdx == base
            else if phase.Wrote? then k > 0 && (k - 1) * j.pageSize < j.size && n.host.fwIdx == base
            else base < j.size && n.host.fwIdx <= (k + 1) * j.pageSize
  {
    hide Replies, PageIs, PageStart, PageFill, Quit, QuitLast;
    var k := |n.boot.written|;
    assert (k + 1) * j.pageSize == k * j.pageSize + j.pageSize;
    if phase.Wrote? { assert (k - 1) * j.pageSize == k * j.pageSize - j.pageSize; }
    if phase.Filling? { RoomForEight(|n.boot.fill|, j.pageSize); }
  }

  lemma StepDecreases(j: Job, n: Net, phase: Phase, ev: Event)
    requires Proper(j) && Inv(j, n, phase)
    ensures var m, next := Step(j, n, ev), Next(j, n, phase, ev);
            Remaining(j, m, next) <= Remaining(j, n, phase) - if Moves(j, n, ev) then 1 else 0
  {
    InvStep(j, n, phase, ev);
    Awaited(j, n, phase);
    hide Replies, PageIs, QuitLast, PageStart, PageFill, Quit, CeilDiv, BaseOf;
    if ev.HostRecv? && n.toHost != [] && !Reply(j, n.toHost[0]) { Ignored(j, n.host, n.toHost[0]); }
  }

  function PhaseAfter(j: Job, announced: bool, evs: seq<Event>): Phase {
    if evs == [] then if announced then Announced else Starting
    else
      var n := |evs| - 1;
      Next(j, Run(j, Start(j, announced), evs[..n]), PhaseAfter(j, announced, evs[..n]), evs[n])
  }

  /** How often the one message under way has arrived. */
  function Moved(j: Job, n: Net, evs: seq<Event>): nat {
    if evs == [] then 0
    else Moved(j, n, evs[..|evs| - 1]) + if Moves(j, Run(j, n, evs[..|evs| - 1]), evs[|evs| - 1]) then 1 else 0
  }

  lemma {:induction false} InvAlways(j: Job, announced: bool, evs: seq<Event>)
    requires Proper(j)
    ensures var n, phase := Run(j, Start(j, announced), evs), PhaseAfter(j, announced, evs);
            && Inv(j, n, phase)
            && Moved(j, Start(j, announced), evs) + Remaining(j, n, phase)
               <= CeilDiv(j.size, j.pageSize) * j.pageSize + 5
  {
    if evs == [] {
      InvStart(j, announced);
    } else {
      var k := |evs| - 1;
      InvAlways(j, announced, evs[..k]);
      var n, phase := Run(j, Start(j, announced), evs[..k]), PhaseAfter(j, announced, evs[..k]);
      hide Inv, Remaining, Proper, Step, Next, Moves, CeilDiv;
      InvStep(j, n, phase, evs[k]);
      StepDecreases(j, n, phase, evs[k]);
    }
  }

  lemma {:induction false} SentToNode(j: Job, n: Net, evs: seq<Event>)
    requires AllToNode(j, n.sent)
    ensures AllToNode(j, Run(j, n, evs).sent)
  {
    hide ToNode, HostOn, BootOn;
    if evs != [] {
      var m := Run(j, n, evs[..|evs| - 1]);
      SentToNode(j, n, evs[..|evs| - 1]);
      if m.toHost != [] { HostAddresses(j, m.host, m.toHost[0]); }
    }
  }

  /** Every interleaving, with whatever else is on the bus: every frame sent is addressed to the
      node, the pages written so far are right, in order and no more than needed, nothing is read
      past the image; and once
      QUIT_BOOTLOADER has been sent, the last frame and the only one of its kind, exactly the
      pages needed have been written. */
  lemma UploadIsRight(j: Job, announced: bool, evs: seq<Event>)
    requires Proper(j)
    ensures var n := Run(j, Start(j, announced), evs);
            && !n.host.overrun && n.host.fwIdx <= IntelHex.CAPACITY && QuitLast(j, n) && AllToNode(j, n.sent)
            && (forall i :: 0 <= i < |n.boot.written| ==> PageIs(j, n.boot.written[i], i))
            && |n.boot.written| <= CeilDiv(j.size, j.pageSize)
            && (n.host.done ==> |n.boot.written| == CeilDiv(j.size, j.pageSize)
                                && n.host.fwIdx == |n.boot.written| * j.pageSize)
  {
    InvAlways(j, announced, evs);
    NeverTooMuch(j, Run(j, Start(j, announced), evs), PhaseAfter(j, announced, evs));
    SentToNode(j, Start(j, announced), evs);
    hide At, AllToNode, PageIs, QuitLast, Run, PhaseAfter, CeilDiv;
  }

  /** The upload ends: the message under way arrives only so often, and when none is left to
      arrive the host has quit and the bootloader has been left. */
  lemma UploadEnds(j: Job, announced: bool, evs: seq<Event>)
    requires Proper(j)
    ensures Moved(j, Start(j, announced), evs) <= CeilDiv(j.size, j.pageSize) * j.pageSize + 5
    ensures var n := Run(j, Start(j, announced), evs);
            n.toNode == [] && Replies(j, n.toHost) == [] ==> n.host.done && !n.boot.active
  {
    InvAlways(j, announced, evs);
    var n, phase := Run(j, Start(j, announced), evs), PhaseAfter(j, announced, evs);
    NeverTooMuch(j, n, phase);
    hide Run, PhaseAfter, PageIs, QuitLast, CeilDiv, Replies;
  }

  // ---- the flash equals the file ----

  /** The byte written at address a, if any page written holds it. */
  ghost predicate FlashHolds(n: Net, pageSize: nat, a: nat, x: byte)
    requires pageSize > 0
  {
    var i := a / pageSize;
    i < |n.boot.written| && n.boot.written[i].number == i
    && a % pageSize < |n.boot.written[i].bytes| && n.boot.written[i].bytes[a % pageSize] == x
  }

  lemma FlashedByte(j: Job, n: Net, a: nat)
    requires j.pageSize > 0 && a < |n.boot.written| * j.pageSize <= |j.image|
    requires forall i :: 0 <= i < |n.boot.written| ==> PageIs(j, n.boot.written[i], i)
    ensures FlashHolds(n, j.pageSize, a, j.image[a])
  {
    var i, r := Divide(a, j.pageSize);
    if i >= |n.boot.written| {
      Scaled(|n.boot.written|, i, j.pageSize);
      assert false;
    }
    assert PageIs(j, n.boot.written[i], i);
    assert (i + 1) * j.pageSize == i * j.pageSize + j.pageSize;
  }

  /** Up to `end` the flash is the memory map of the chunks, which all lie below `end`. */
  ghost predicate FlashIs(n: Net, pageSize: nat, end: nat, cs: seq<IntelHex.Chunk>)
    requires pageSize > 0
  {
    && (forall i :: 0 <= i < |cs| ==> IntelHex.EndOf(cs[i]) <= end)
    && (forall i, a: nat :: 0 <= i < |cs| && IntelHex.Covers(cs[i], a) ==>
          FlashHolds(n, pageSize, a, cs[i].bytes[a - cs[i].address]))
    && (forall a: nat :: a < end ==>
          (exists i :: 0 <= i < |cs| && IntelHex.Covers(cs[i], a)) || FlashHolds(n, pageSize, a, 0xff))
  }

  lemma FlashIsMap(j: Job, n: Net, end: nat, cs: seq<IntelHex.Chunk>)
    requires j.pageSize > 0 && j.size <= end <= |j.image|
    requires forall a: nat :: a < end ==> FlashHolds(n, j.pageSize, a, j.image[a])
    requires IntelHex.IsMap(j.image, cs) && IntelHex.Ascending(cs) && IntelHex.Length(cs) == j.size
    ensures FlashIs(n, j.pageSize, end, cs)
  {
    hide FlashHolds;
    forall i | 0 <= i < |cs| ensures IntelHex.EndOf(cs[i]) <= end { LastEnds(cs, i); }
    forall i, a: nat | 0 <= i < |cs| && IntelHex.Covers(cs[i], a)
      ensures FlashHolds(n, j.pageSize, a, cs[i].bytes[a - cs[i].address])
    {
      assert a < IntelHex.EndOf(cs[i]) <= end;
      assert FlashHolds(n, j.pageSize, a, j.image[a]);
    }
    forall a: nat | a < end && !(exists i :: 0 <= i < |cs| && IntelHex.Covers(cs[i], a))
      ensures FlashHolds(n, j.pageSize, a, 0xff)
    {
      assert FlashHolds(n, j.pageSize, a, j.image[a]);
    }
  }

  /** End to end: a sound file with ascending addresses, loaded and uploaded, leaves every byte
      of every record at its address in the flash, and 0xff in the gaps up to the end of the
      last page. */
  lemma FlashIsFile(rs: seq<IntelHex.Record>, node: byte, pageSize: nat, announced: bool, evs: seq<Event>)
    requires IntelHex.Sound(rs) && IntelHex.Ascending(IntelHex.Chunks(rs))
    requires var s := IntelHex.FeedAll(rs); Proper(Job(s.buffer, s.length, node, pageSize))
    ensures var s := IntelHex.FeedAll(rs);
            var j := Job(s.buffer, s.length, node, pageSize);
            var n := Run(j, Start(j, announced), evs);
            n.host.done ==> FlashIs(n, pageSize, CeilDiv(s.length, pageSize) * pageSize, IntelHex.Chunks(rs))
  {
    hide Run, Start, CeilDiv, QuitLast, PageIs, FlashHolds, FlashIs;
    hide IntelHex.FeedAll, IntelHex.Chunks, IntelHex.IsMap, IntelHex.Ascending, IntelHex.Sound;
    var s := IntelHex.FeedAll(rs);
    var j := Job(s.buffer, s.length, node, pageSize);
    var n := Run(j, Start(j, announced), evs);
    IntelHex.LoadedIsMap(rs);
    UploadIsRight(j, announced, evs);
    if n.host.done {
      AllPages(j);
      var end := CeilDiv(s.length, pageSize) * pageSize;
      forall a: nat | a < end ensures FlashHolds(n, pageSize, a, j.image[a]) { FlashedByte(j, n, a); }
      FlashIsMap(j, n, end, IntelHex.Chunks(rs));
    }
  }

  lemma LastEnds(cs: seq<IntelHex.Chunk>, i: nat)
    requires IntelHex.Ascending(cs) && i < |cs|
    ensures IntelHex.EndOf(cs[i]) <= IntelHex.Length(cs)
  {
  }
}
