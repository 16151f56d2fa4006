/** Uploading a firmware image: the host half (src/h9fwupload/firmware_uploader.cc) against a
    bootloader that follows doc/bootloader.md, over a bus on which others talk as well. */
module Uploader {
  import opened Common
  import opened Frames
  import IntelHex

  // ---- the host ----

  /** `overrun` stands for a read past the image buffer. */
  datatype Host = Host(fwIdx: nat, page: u16, received: nat, sent: nat, done: bool, overrun: bool)

  /** What stays fixed during an upload; `image` is the whole buffer, `size` the length loaded. */
  datatype Job = Job(image: seq<byte>, size: nat, node: byte, pageSize: nat)

  function Command(node: byte, kind: byte, dlc: byte, data: Data): Frame {
    Frame("", kind, 0, 0, node, 0, 0, dlc, data)
  }

  function PageStart(node: byte, page: u16): Frame {
    Command(node, PAGE_START, 2, [page / 256, page % 256, 0, 0, 0, 0, 0, 0])
  }

  function PageFill(node: byte, data: Data): Frame { Command(node, PAGE_FILL, 8, data) }

  function Quit(node: byte): Frame { Command(node, QUIT_BOOTLOADER, 0, [0, 0, 0, 0, 0, 0, 0, 0]) }

  /** One turn of the loop: the new state, and the frame sent, if any. */
  function HostOn(j: Job, h: Host, f: Frame): (Host, seq<Frame>) {
    if h.done || f.source != j.node then (h, [])
    else
      var g := h.(received := h.received + 1);
      if f.kind == PAGE_WRITED && h.fwIdx >= j.size then (g.(sent := h.sent + 1, done := true), [Quit(j.node)])
      else if f.kind == PAGE_WRITED || f.kind == BOOTLOADER_TURNED_ON then
        var page := if f.kind == PAGE_WRITED then (h.page + 1) % 0x1_0000 else h.page;
        (g.(page := page, sent := h.sent + 1), [PageStart(j.node, page)])
      else if f.kind == PAGE_FILL_NEXT then
        if h.fwIdx + 8 > |j.image| then (g.(overrun := true), [])
        else (g.(fwIdx := h.fwIdx + 8, sent := h.sent + 1), [PageFill(j.node, j.image[h.fwIdx..h.fwIdx + 8])])
      else (g, [])
  }

  function HostAll(j: Job, fs: seq<Frame>): (Host, seq<Frame>) {
    if fs == [] then (Host(0, 0, 0, 0, false, false), [])
    else
      var (h, out) := HostAll(j, fs[..|fs| - 1]);
      var (g, more) := HostOn(j, h, fs[|fs| - 1]);
      (g, out + more)
  }

  /** A frame to the node: PAGE_START (1), QUIT_BOOTLOADER (2) or PAGE_FILL (3), with as many data bytes
      as belong to it; source and number are left to the bus. */
  predicate ToNode(j: Job, f: Frame) {
    && f.destination == j.node && f.source == f.flags == f.seqnum == 0 && f.origin == ""
    && 1 <= f.kind <= 3 && f.dlc == if f.kind == 1 then 2 else if f.kind == 3 then 8 else 0
  }

  ghost predicate AllToNode(j: Job, fs: seq<Frame>) { forall i :: 0 <= i < |fs| ==> ToNode(j, fs[i]) }

  lemma HostAddresses(j: Job, h: Host, f: Frame)
    ensures AllToNode(j, HostOn(j, h, f).1)
  {
  }

  /** The host takes no notice of others than its node, and answers only the types 4, 5 and 6, with
      which a bootloader announces itself, asks for data, and reports a page written. */
  lemma HostAnswers(j: Job, h: Host, f: Frame)
    ensures f.source != j.node ==> HostOn(j, h, f) == (h, [])
    ensures !(4 <= f.kind <= 6) ==> HostOn(j, h, f).1 == [] && HostOn(j, h, f).0 == h.(received := HostOn(j, h, f).0.received)
    ensures f.source == j.node && !h.done && !HostOn(j, h, f).0.overrun && 4 <= f.kind <= 6 ==>
              |HostOn(j, h, f).1| == 1
  {
  }

  /** The frames of a kind, in the order in which they were sent. */
  function OfKind(fs: seq<Frame>, kind: byte): seq<Frame> {
    if fs == [] then []
    else OfKind(fs[..|fs| - 1], kind) + if fs[|fs| - 1].kind == kind then [fs[|fs| - 1]] else []
  }

  /** Frames received from the node. */
  function FromNode(j: Job, fs: seq<Frame>): nat {
    if fs == [] then 0 else FromNode(j, fs[..|fs| - 1]) + if fs[|fs| - 1].source == j.node then 1 else 0
  }

  /** The k-th PAGE_FILL carries the k-th eight bytes of the image. */
  ghost predicate FillsInOrder(j: Job, h: Host, fills: seq<Frame>) {
    h.fwIdx == 8 * |fills| <= |j.image| && forall k :: 0 <= k < |fills| ==> fills[k].data == j.image[8 * k..8 * k + 8]
  }

  /** Whatever is received: every frame sent is addressed to the node, and the counters say how
      many were sent, and how many frames the node had sent until the end. */
  lemma {:induction false} HostCounts(j: Job, fs: seq<Frame>)
    ensures var (h, out) := HostAll(j, fs);
            && AllToNode(j, out) && h.sent == |out|
            && (if h.done then h.received <= FromNode(j, fs) else h.received == FromNode(j, fs))
  {
    if fs != [] {
      var n := |fs| - 1;
      HostCounts(j, fs[..n]);
      HostAddresses(j, HostAll(j, fs[..n]).0, fs[n]);
    }
  }

  lemma {:induction false} HostSends(j: Job, fs: seq<Frame>)
    requires !HostAll(j, fs).0.overrun
    ensures var (h, out) := HostAll(j, fs); FillsInOrder(j, h, OfKind(out, PAGE_FILL))
  {
    hide HostOn, OfKind;
    if fs != [] {
      var n := |fs| - 1;
      var (h, out) := HostAll(j, fs[..n]);
      NoneOverrun(j, h, fs[n]);
      HostSends(j, fs[..n]);
      FillsOneMore(j, h, out, fs[n]);
    } else {
      NoFills();
    }
  }

  lemma NoFills()
    ensures OfKind([], PAGE_FILL) == []
  {
  }

  lemma NoneOverrun(j: Job, h: Host, f: Frame)
    requires !HostOn(j, h, f).0.overrun
    ensures !h.overrun
  {
  }

  lemma FillsOneMore(j: Job, h: Host, out: seq<Frame>, f: Frame)
    requires !HostOn(j, h, f).0.overrun && FillsInOrder(j, h, OfKind(out, PAGE_FILL))
    ensures var (g, more) := HostOn(j, h, f); FillsInOrder(j, g, OfKind(out + more, PAGE_FILL))
  {
    HostFills(j, h, out, f);
    hide OfKind, PageStart, Quit;
  }

  lemma HostFills(j: Job, h: Host, out: seq<Frame>, f: Frame)
    requires !HostOn(j, h, f).0.overrun
    ensures var (g, more) := HostOn(j, h, f);
            OfKind(out + more, PAGE_FILL) == OfKind(out, PAGE_FILL) +
              if g.fwIdx == h.fwIdx then [] else more
  {
    var (g, more) := HostOn(j, h, f);
    assert out + [] == out && OfKind(out, PAGE_FILL) + [] == OfKind(out, PAGE_FILL);
    if more != [] { assert (out + more)[..|out|] == out; }
  }

  /** `upload`, over the frames the bus delivers. */
  class FirmwareUploader {
    const firmware: array<byte>
    const fwSize: nat
    const nodeId: byte
    var recvFrameCount: nat
    var sentFrameCount: nat

    function TheJob(): Job reads firmware { Job(firmware[..], fwSize, nodeId, 8) }

    constructor (firmware: array<byte>, fwSize: nat, dst: byte)
      ensures this.firmware == firmware && this.fwSize == fwSize && this.nodeId == dst
      ensures recvFrameCount == 0 && sentFrameCount == 0
    {
      this.firmware, this.fwSize, this.nodeId := firmware, fwSize, dst;
      recvFrameCount, sentFrameCount := 0, 0;
    }

    /** One turn of the loop, for a frame received from the bus. */
    method Turn(recvFrame: Frame, idx: nat, pageNo: u16)
      returns (fwIdx: nat, page: u16, out: seq<Frame>, done: bool)
      requires fwSize > 0
      requires !HostOn(TheJob(), Host(idx, pageNo, recvFrameCount, sentFrameCount, false, false), recvFrame).0.overrun
      modifies this
      ensures HostOn(TheJob(), Host(idx, pageNo, old(recvFrameCount), old(sentFrameCount), false, false), recvFrame)
           == (Host(fwIdx, page, recvFrameCount, sentFrameCount, done, false), out)
    {
      hide PageStart, PageFill, Quit;
      fwIdx, page, out, done := idx, pageNo, [], false;
      if recvFrame.source != nodeId { return; }
      recvFrameCount := recvFrameCount + 1;
      if recvFrame.kind == BOOTLOADER_TURNED_ON || recvFrame.kind == PAGE_WRITED {
        if recvFrame.kind == PAGE_WRITED {
          if fwIdx >= fwSize {
            out := [Quit(nodeId)];
            sentFrameCount := sentFrameCount + 1;
            done := true;
            return;
          }
          page := (page + 1) % 0x1_0000;
        }
        out := [PageStart(nodeId, page)];
        sentFrameCount := sentFrameCount + 1;
      } else if recvFrame.kind == PAGE_FILL_NEXT {
        out := [PageFill(nodeId, firmware[fwIdx..fwIdx + 8])];
        fwIdx := fwIdx + 8;
        sentFrameCount := sentFrameCount + 1;
      }
    }

    /** Ends when the frames do, or with QUIT_BOOTLOADER. */
    method Upload(incoming: seq<Frame>) returns (out: seq<Frame>, done: bool)
      requires recvFrameCount == 0 && sentFrameCount == 0 && fwSize > 0
      requires !HostAll(TheJob(), incoming).0.overrun
      modifies this
      ensures var (h, sent) := HostAll(TheJob(), incoming);
              out == sent && done == h.done && recvFrameCount == h.received && sentFrameCount == h.sent
    {
      hide HostOn;
      var fwIdx: nat, page: u16 := 0, 0;
      out, done := [], false;
      var i := 0;
      while i < |incoming|
        invariant 0 <= i <= |incoming| && !done
        invariant HostAll(TheJob(), incoming[..i])
               == (Host(fwIdx, page, recvFrameCount, sentFrameCount, false, false), out)
      {
        i := i + 1;
        assert incoming[..i][..i - 1] == incoming[..i - 1];
        ReadsInside(TheJob(), incoming, i);
        var more;
        fwIdx, page, more, done := Turn(incoming[i - 1], fwIdx, page);
        out := out + more;
        if done {
          DoneStays(TheJob(), incoming, i);
          return;
        }
      }
      assert incoming[..i] == incoming;
    }
  }

  lemma {:induction false} ReadsInside(j: Job, fs: seq<Frame>, i: nat)
    requires i <= |fs| && !HostAll(j, fs).0.overrun
    ensures !HostAll(j, fs[..i]).0.overrun
    decreases |fs|
  {
    if i < |fs| {
      assert fs[..|fs| - 1][..i] == fs[..i];
      ReadsInside(j, fs[..|fs| - 1], i);
    } else {
      assert fs[..i] == fs;
    }
  }

  lemma {:induction false} DoneStays(j: Job, fs: seq<Frame>, i: nat)
    requires i <= |fs| && HostAll(j, fs[..i]).0.done
    ensures HostAll(j, fs) == HostAll(j, fs[..i])
    decreases |fs|
  {
    if i < |fs| {
      assert fs[..|fs| - 1][..i] == fs[..i];
      DoneStays(j, fs[..|fs| - 1], i);
      assert HostAll(j, fs[..i]).1 + [] == HostAll(j, fs[..i]).1;
    } else {
      assert fs[..i] == fs;
    }
  }
}
