/** Length-prefixed messages over a byte stream: the resumable receiver and the sender of
    src/common/tcp_socket.cc. The kernel hands over, and accepts, arbitrary amounts. */
module Tcp {
  import opened Common

  type Msg = seq<byte>

  const HEADER := 4

  predicate Fits(m: Msg) { |m| < 0x1_0000_0000 }

  function Wire(msgs: seq<Msg>): seq<byte>
    requires forall i :: 0 <= i < |msgs| ==> Fits(msgs[i])
  {
    if msgs == [] then []
    else
      assert Fits(msgs[0]);
      BigEndian4(|msgs[0]|) + msgs[0] + Wire(msgs[1..])
  }

  /** A C string ends at its first NUL. */
  function CString(s: seq<byte>): (r: seq<byte>)
    ensures r == s <==> 0 !in s
    ensures |r| <= |s|
  {
    if s == [] || s[0] == 0 then []
    else
      var r := CString(s[1..]);
      assert s == [s[0]] + s[1..];
      [s[0]] + r
  }

  // ---- the receiver as a function of what the kernel does ----

  /** `acc` is the part of the current message taken so far, header included; `grants` says
      how many bytes each coming read may return, nothing at all when 0 (would block). */
  datatype Conn = Conn(acc: seq<byte>, incoming: seq<byte>, grants: seq<nat>, closed: bool)

  /** What a read of at most max bytes returns. */
  function Amount(max: nat, incoming: seq<byte>, grants: seq<nat>, closed: bool): (n: int)
    ensures -1 <= n <= max && n <= |incoming|
  {
    if max == 0 then 0
    else if incoming == [] then if closed then 0 else -1
    else if grants == [] || grants[0] == 0 then -1
    else Min(Min(grants[0], max), |incoming|)
  }

  function Spend(max: nat, incoming: seq<byte>, grants: seq<nat>): seq<nat> {
    if max == 0 || incoming == [] || grants == [] then grants else grants[1..]
  }

  function Read(c: Conn, max: nat): (int, Conn) {
    var n := Amount(max, c.incoming, c.grants, c.closed);
    (n, c.(acc := c.acc + c.incoming[..Max(n, 0)], incoming := c.incoming[Max(n, 0)..],
           grants := Spend(max, c.incoming, c.grants)))
  }

  lemma ReadMoves(c: Conn, max: nat)
    ensures var (n, d) := Read(c, max);
            && d.acc + d.incoming == c.acc + c.incoming && |d.acc| == |c.acc| + Max(n, 0)
            && n <= max && d.closed == c.closed
            && (n <= 0 ==> d == c.(grants := d.grants)) && (c.incoming != [] && max > 0 ==> n != 0)
  {
  }

  /** One call of recv(): its result, the message when the result is 1, and the rest. */
  function RecvStep(c: Conn): (int, Msg, Conn)
    requires |c.acc| >= HEADER ==> |c.acc| <= HEADER + Word4(c.acc)
  {
    if |c.acc| < HEADER then
      var (n, d) := Read(c, HEADER - |c.acc|);
      if n <= 0 then (n, [], d)
      else if |d.acc| < HEADER then (-1, [], d)
      else RecvBody(d)
    else RecvBody(c)
  }

  function RecvBody(c: Conn): (int, Msg, Conn)
    requires HEADER <= |c.acc| <= HEADER + Word4(c.acc)
  {
    var total := HEADER + Word4(c.acc);
    var (n, d) := Read(c, total - |c.acc|);
    if n <= 0 then (n, [], d)
    else if |d.acc| < total then (-1, [], d)
    else (1, CString(d.acc[HEADER..]), d.(acc := []))
  }

  // ---- framing is independent of fragmentation ----

  /** What is in hand and what is still to come are exactly the wire form of msgs, and no
      byte of the second message has been taken. */
  ghost predicate Partial(c: Conn, msgs: seq<Msg>) {
    && (forall i :: 0 <= i < |msgs| ==> Fits(msgs[i]))
    && c.acc + c.incoming == Wire(msgs)
    && (msgs == [] ==> c.acc == [])
    && (msgs != [] ==> |c.acc| <= HEADER + |msgs[0]|)
    && (msgs != [] && msgs[0] != [] ==> |c.acc| < HEADER + |msgs[0]|)
  }

  lemma HeaderIsLength(c: Conn, msgs: seq<Msg>)
    requires msgs != [] && forall i :: 0 <= i < |msgs| ==> Fits(msgs[i])
    requires c.acc + c.incoming == Wire(msgs) && HEADER <= |c.acc| <= HEADER + |msgs[0]|
    ensures Word4(c.acc) == |msgs[0]|
    ensures c.acc[HEADER..] == msgs[0][..|c.acc| - HEADER]
    ensures c.incoming == msgs[0][|c.acc| - HEADER..] + Wire(msgs[1..])
  {
    var h, m, w := BigEndian4(|msgs[0]|), msgs[0], Wire(msgs[1..]);
    var s := Wire(msgs);
    Word4OfBigEndian4(|m|);
    hide Word4, BigEndian4;
    assert s == h + m + w && s == c.acc + c.incoming;
    assert c.acc == s[..|c.acc|] && c.incoming == s[|c.acc|..];
    assert forall k :: 0 <= k < HEADER ==> c.acc[k] == s[k] == h[k];
    Word4Same(h, c.acc);
  }

  lemma MessageComplete(d: Conn, msgs: seq<Msg>)
    requires msgs != [] && forall i :: 0 <= i < |msgs| ==> Fits(msgs[i])
    requires d.acc + d.incoming == Wire(msgs) && |d.acc| == HEADER + |msgs[0]|
    ensures d.acc[HEADER..] == msgs[0] && Partial(d.(acc := []), msgs[1..])
  {
    HeaderIsLength(d, msgs);
    hide Word4, BigEndian4;
    assert d.incoming == Wire(msgs[1..]);
    assert [] + d.incoming == d.incoming;
  }

  lemma BodyStep(c: Conn, msgs: seq<Msg>)
    requires Partial(c, msgs) && msgs != [] && |c.acc| >= HEADER && c.incoming != []
    ensures |c.acc| <= HEADER + Word4(c.acc)
    ensures var (ret, msg, d) := RecvBody(c);
            && (ret == 1 ==> msgs[0] != [] && msg == CString(msgs[0]) && d.acc == [] && Partial(d, msgs[1..]))
            && (ret != 1 ==> Partial(d, msgs))
            && (ret == 0 ==> msgs[0] == [])
            && d.closed == c.closed
  {
    hide Word4, CString, Read, Partial;
    PartialHeader(c, msgs);
    var max := HEADER + |msgs[0]| - |c.acc|;
    var d := Read(c, max).1;
    ReadMoves(c, max);
    if |d.acc| == HEADER + |msgs[0]| { PartialOver(c, d, msgs); }
    if |d.acc| < HEADER + |msgs[0]| || msgs[0] == [] { PartialStill(c, d, msgs); }
  }

  lemma PartialHeader(c: Conn, msgs: seq<Msg>)
    requires Partial(c, msgs) && msgs != [] && |c.acc| >= HEADER
    ensures Word4(c.acc) == |msgs[0]| && |c.acc| <= HEADER + |msgs[0]|
    ensures msgs[0] != [] ==> |c.acc| < HEADER + |msgs[0]|
  {
    HeaderIsLength(c, msgs);
    hide Word4, Wire;
  }

  lemma PartialStill(c: Conn, d: Conn, msgs: seq<Msg>)
    requires Partial(c, msgs) && msgs != [] && d.acc + d.incoming == c.acc + c.incoming
    requires |d.acc| < HEADER + |msgs[0]| || (msgs[0] == [] && |d.acc| == HEADER)
    ensures Partial(d, msgs)
  {
    hide Wire;
  }

  lemma PartialOver(c: Conn, d: Conn, msgs: seq<Msg>)
    requires Partial(c, msgs) && msgs != [] && d.acc + d.incoming == c.acc + c.incoming
    requires |d.acc| == HEADER + |msgs[0]|
    ensures d.acc[HEADER..] == msgs[0] && Partial(d.(acc := []), msgs[1..])
  {
    MessageComplete(d, msgs);
    hide Wire;
  }

  lemma BytesMeanMessages(c: Conn, msgs: seq<Msg>)
    requires Partial(c, msgs) && c.incoming != []
    ensures msgs != []
  {
    assert |Wire(msgs)| == |c.acc| + |c.incoming| > 0;
  }

  lemma WireStart(msgs: seq<Msg>)
    requires forall i :: 0 <= i < |msgs| ==> Fits(msgs[i])
    ensures msgs != [] ==> |Wire(msgs)| >= HEADER + |msgs[0]|
  {
  }

  /** One call of recv() either delivers the first message, and not a byte more, or keeps
      everything it has read for the next call; it reports a closed connection for an
      empty message, and otherwise never while bytes are in flight. */
  lemma RecvStepFrames(c: Conn, msgs: seq<Msg>)
    requires Partial(c, msgs) && c.incoming != []
    ensures msgs != [] && (|c.acc| >= HEADER ==> |c.acc| <= HEADER + Word4(c.acc))
    ensures var (ret, msg, d) := RecvStep(c);
            && (ret == 1 ==> msgs[0] != [] && msg == CString(msgs[0]) && d.acc == [] && Partial(d, msgs[1..]))
            && (ret != 1 ==> Partial(d, msgs))
            && (ret == 0 ==> msgs[0] == [])
            && d.closed == c.closed
  {
    hide Read, RecvBody, Word4, BigEndian4, CString;
    BytesMeanMessages(c, msgs);
    WireStart(msgs);
    hide Wire;
    if |c.acc| < HEADER {
      var d := Read(c, HEADER - |c.acc|).1;
      ReadMoves(c, HEADER - |c.acc|);
      if |d.acc| == HEADER {
        if d.incoming != [] { BodyStep(d, msgs); } else { HeaderOnly(d, msgs); }
      }
    } else {
      HeaderIsLength(c, msgs);
      BodyStep(c, msgs);
    }
  }

  /** The header is in and nothing else has arrived: the second read has no bytes to take. */
  lemma HeaderOnly(d: Conn, msgs: seq<Msg>)
    requires Partial(d, msgs) && msgs != [] && |d.acc| == HEADER && d.incoming == []
    ensures msgs[0] == [] && Word4(d.acc) == 0 && RecvBody(d) == (0, [], d)
  {
    HeaderIsLength(d, msgs);
    assert |d.acc + d.incoming| == HEADER;
    WireStart(msgs);
    assert d.acc + [] == d.acc;
  }

  function Positive(grants: seq<nat>): nat {
    if grants == [] then 0 else (if grants[0] > 0 then 1 else 0) + Positive(grants[1..])
  }

  /** A call with bytes in flight uses up at least one grant, and every grant of at least one
      byte brings at least one byte in. */
  lemma RecvStepProgress(c: Conn)
    requires c.incoming != [] && (|c.acc| >= HEADER ==> |c.acc| <= HEADER + Word4(c.acc))
    ensures var (ret, _, d) := RecvStep(c);
            && |d.grants| <= |c.grants|
            && (c.grants != [] && ret != 0 ==> |d.grants| < |c.grants|)
            && Positive(c.grants) - Positive(d.grants) <= |c.incoming| - |d.incoming|
  {
    hide Word4, Read, RecvBody, Positive;
    if |c.acc| >= HEADER {
      BodyProgress(c);
    } else {
      var d := Read(c, HEADER - |c.acc|).1;
      ReadProgress(c, HEADER - |c.acc|);
      ReadMoves(c, HEADER - |c.acc|);
      if |d.acc| == HEADER { BodyProgress(d); }
    }
  }

  lemma BodyProgress(c: Conn)
    requires HEADER <= |c.acc| <= HEADER + Word4(c.acc)
    ensures var (ret, _, d) := RecvBody(c);
            && |d.grants| <= |c.grants|
            && (c.grants != [] && c.incoming != [] && ret != 0 ==> |d.grants| < |c.grants|)
            && Positive(c.grants) - Positive(d.grants) <= |c.incoming| - |d.incoming|
  {
    hide Word4, Read, Positive, CString;
    ReadProgress(c, HEADER + Word4(c.acc) - |c.acc|);
  }

  lemma ReadProgress(c: Conn, max: nat)
    ensures var (n, d) := Read(c, max);
            && |d.grants| <= |c.grants|
            && (c.grants != [] && c.incoming != [] && n != 0 ==> |d.grants| < |c.grants|)
            && Positive(c.grants) - Positive(d.grants) <= |c.incoming| - |d.incoming|
  {
  }

  /** Retries recv() while bytes are in flight and the kernel still has grants, stopping when
      the connection is reported closed. */
  function Drain(c: Conn, msgs: seq<Msg>): (seq<Msg>, Conn)
    requires Partial(c, msgs)
    decreases |c.grants|
  {
    if c.incoming == [] || c.grants == [] then ([], c)
    else
      RecvStepFrames(c, msgs);
      RecvStepProgress(c);
      var (ret, msg, d) := RecvStep(c);
      if ret == 0 then ([], d)
      else if ret == 1 then
        var (out, e) := Drain(d, msgs[1..]);
        ([msg] + out, e)
      else Drain(d, msgs)
  }

  function CStrings(msgs: seq<Msg>): (r: seq<Msg>)
    ensures |r| == |msgs| && forall i :: 0 <= i < |msgs| ==> r[i] == CString(msgs[i])
  {
    seq(|msgs|, i requires 0 <= i < |msgs| => CString(msgs[i]))
  }

  /** The messages before the first empty one. */
  function UpToEmpty(msgs: seq<Msg>): (r: seq<Msg>)
    ensures r <= msgs && (r == msgs <==> [] !in msgs)
  {
    if msgs == [] || msgs[0] == [] then []
    else
      var r := UpToEmpty(msgs[1..]);
      assert msgs == [msgs[0]] + msgs[1..];
      [msgs[0]] + r
  }

  lemma CStringsCons(m: Msg, rest: seq<Msg>)
    ensures CStrings([m] + rest) == [CString(m)] + CStrings(rest)
  {
    hide CString;
  }

  lemma UpToEmptyCons(m: Msg, rest: seq<Msg>)
    requires m != []
    ensures UpToEmpty([m] + rest) == [m] + UpToEmpty(rest)
  {
    assert ([m] + rest)[1..] == rest;
  }

  /** A prefix of the messages, each cut at its first NUL; and, given grants enough, all of them
      up to the first empty one. */
  ghost predicate Delivers(c: Conn, msgs: seq<Msg>, out: seq<Msg>) {
    && |out| <= |UpToEmpty(msgs)| && out == CStrings(msgs[..|out|])
    && (Positive(c.grants) >= |c.incoming| > 0 ==> out == CStrings(UpToEmpty(msgs)))
  }

  /** Under every fragmentation of the stream the delivered messages are a prefix of the sent
      ones, in order and cut at their first NUL; with grants enough for all bytes they are
      all the messages up to the first empty one. */
  lemma {:induction false} Framing(c: Conn, msgs: seq<Msg>)
    requires Partial(c, msgs)
    ensures var (out, e) := Drain(c, msgs); Delivers(c, msgs, out) && Partial(e, msgs[|out|..])
    decreases |c.grants|
  {
    hide Delivers, Partial, RecvStep, CString, CStrings, UpToEmpty, Positive, Word4;
    if c.incoming == [] || c.grants == [] {
      DeliversNothing(c, msgs);
    } else {
      RecvStepFrames(c, msgs);
      RecvStepProgress(c);
      var (ret, msg, d) := RecvStep(c);
      if ret == 0 {
        DeliversNothing(c, msgs);
      } else if ret == 1 {
        Framing(d, msgs[1..]);
        DeliversOneMore(c, d, msgs, Drain(d, msgs[1..]).0);
      } else {
        Framing(d, msgs);
        DeliversSame(c, d, msgs, Drain(d, msgs).0);
      }
    }
  }

  lemma DeliversNothing(c: Conn, msgs: seq<Msg>)
    requires c.incoming == [] || c.grants == [] || (msgs != [] && msgs[0] == [])
    ensures Delivers(c, msgs, []) && msgs[0..] == msgs
  {
  }

  lemma HeadAndRest(msgs: seq<Msg>, n: nat)
    requires n < |msgs|
    ensures msgs == [msgs[0]] + msgs[1..] && msgs[..1 + n] == [msgs[0]] + msgs[1..][..n]
    ensures msgs[1..][n..] == msgs[1 + n..]
  {
  }

  lemma DeliversOneMore(c: Conn, d: Conn, msgs: seq<Msg>, out: seq<Msg>)
    requires msgs != [] && msgs[0] != [] && Delivers(d, msgs[1..], out)
    requires d.acc == [] && Partial(d, msgs[1..]) && (d.incoming == [] ==> out == [])
    requires Positive(c.grants) >= |c.incoming| ==> Positive(d.grants) >= |d.incoming|
    ensures Delivers(c, msgs, [CString(msgs[0])] + out) && msgs[1..][|out|..] == msgs[1 + |out|..]
  {
    hide Partial, CString, CStrings, UpToEmpty, Positive;
    var rest := msgs[1..];
    HeadAndRest(msgs, |out|);
    UpToEmptyCons(msgs[0], rest);
    CStringsCons(msgs[0], UpToEmpty(rest));
    CStringsCons(msgs[0], rest[..|out|]);
    if d.incoming == [] { NothingLeft(d, rest); }
  }

  lemma DeliversSame(c: Conn, d: Conn, msgs: seq<Msg>, out: seq<Msg>)
    requires Delivers(d, msgs, out) && Partial(d, msgs) && msgs != [] && (d.incoming == [] ==> out == [])
    requires Positive(c.grants) >= |c.incoming| ==> Positive(d.grants) >= |d.incoming|
    ensures Delivers(c, msgs, out)
  {
    hide Partial, CString;
    if d.incoming == [] { NotAllRead(d, msgs); }
  }

  lemma NothingLeft(d: Conn, msgs: seq<Msg>)
    requires Partial(d, msgs) && d.acc == [] && d.incoming == []
    ensures msgs == []
  {
    WireStart(msgs);
  }

  lemma NotAllRead(d: Conn, msgs: seq<Msg>)
    requires Partial(d, msgs) && d.incoming == [] && msgs != []
    ensures msgs[0] == []
  {
    WireStart(msgs);
    assert |d.acc| == |Wire(msgs)|;
  }

  /** A stream read to its end delivers exactly the sent messages if and only if none of
      them is empty and none contains a NUL. */
  lemma DeliveredExactly(msgs: seq<Msg>, grants: seq<nat>, closed: bool)
    requires forall i :: 0 <= i < |msgs| ==> Fits(msgs[i])
    requires msgs != [] && Positive(grants) >= |Wire(msgs)|
    ensures Partial(Conn([], Wire(msgs), grants, closed), msgs)
    ensures Drain(Conn([], Wire(msgs), grants, closed), msgs).0 == msgs
       <==> forall i :: 0 <= i < |msgs| ==> msgs[i] != [] && 0 !in msgs[i]
  {
    var c := Conn([], Wire(msgs), grants, closed);
    assert [] + c.incoming == c.incoming;
    WireStart(msgs);
    Framing(c, msgs);
    var u := UpToEmpty(msgs);
    if CStrings(u) == msgs {
      assert u == msgs;
      forall i | 0 <= i < |msgs| ensures msgs[i] != [] && 0 !in msgs[i] {
        assert msgs[i] in msgs;
        assert CStrings(u)[i] == CString(msgs[i]);
      }
    }
    if forall i :: 0 <= i < |msgs| ==> msgs[i] != [] && 0 !in msgs[i] {
      assert u == msgs;
      assert forall i :: 0 <= i < |msgs| ==> CStrings(u)[i] == msgs[i];
    }
  }

  /** With nothing in flight, `recv` reports that the peer has closed the connection, if it has,
      and otherwise that there is nothing now; what was received so far is kept. */
  lemma NothingInFlight(c: Conn)
    requires c.incoming == [] && (|c.acc| >= HEADER ==> |c.acc| < HEADER + Word4(c.acc))
    ensures RecvStep(c) == (if c.closed then 0 else -1, [], c)
  {
    assert c.acc + [] == c.acc;
  }

  /** The text delivered ends before the first NUL. */
  lemma {:induction false} UpToNul(s: seq<byte>, rest: seq<byte>)
    requires 0 !in s
    ensures CString(s + [0] + rest) == s
  {
    var t := s + [0] + rest;
    if s == [] {
      assert t[0] == 0;
    } else {
      UpToNul(s[1..], rest);
      assert t[1..] == s[1..] + [0] + rest && s == [s[0]] + s[1..];
    }
  }

  // ---- the sender ----

  /** The loop over the text: its result, the bytes written, the grants left. */
  function SendBody(m: Msg, grants: seq<nat>): (r: (int, seq<byte>, seq<nat>))
    decreases |grants|
  {
    if m == [] then (1, [], grants)
    else if grants == [] then (-1, [], [])
    else if grants[0] == 0 then (-1, [], grants[1..])
    else
      var n := Min(grants[0], |m|);
      var (ret, out, rest) := SendBody(m[n..], grants[1..]);
      (ret, m[..n] + out, rest)
  }

  /** One call of send(): a single write of the length, however much of it is taken, and then
      the text. */
  function SendStep(m: Msg, grants: seq<nat>): (int, seq<byte>, seq<nat>)
    requires Fits(m)
  {
    if grants == [] then (-1, [], [])
    else if grants[0] == 0 then (-1, [], grants[1..])
    else
      var (ret, out, rest) := SendBody(m, grants[1..]);
      (ret, BigEndian4(|m|)[..Min(grants[0], HEADER)] + out, rest)
  }

  /** One turn of the loop, with `out` written before it. */
  lemma SendMore(out: seq<byte>, m: Msg, grants: seq<nat>)
    requires m != []
    ensures var (ret, o, rest) := SendBody(m, grants);
            if grants == [] || grants[0] == 0 then
              ret == -1 && o == [] && out + o == out && rest == if grants == [] then [] else grants[1..]
            else
              var n := Min(grants[0], |m|);
              var (ret2, o2, rest2) := SendBody(m[n..], grants[1..]);
              (ret, out + o, rest) == (ret2, (out + m[..n]) + o2, rest2)
  {
    if grants != [] && grants[0] > 0 {
      var n := Min(grants[0], |m|);
      Associative(out, m[..n], SendBody(m[n..], grants[1..]).1);
    }
  }

  lemma Associative(a: seq<byte>, b: seq<byte>, c: seq<byte>)
    ensures a + (b + c) == (a + b) + c
  {
  }

  lemma SendNone(out: seq<byte>, grants: seq<nat>)
    ensures SendBody([], grants) == (1, [], grants) && out + [] == out && [] + out == out
  {
  }

  /** What the kernel takes before it first refuses. */
  function Leading(grants: seq<nat>): nat {
    if grants == [] || grants[0] == 0 then 0 else grants[0] + Leading(grants[1..])
  }

  lemma {:induction false} BodySent(m: Msg, grants: seq<nat>)
    ensures var (ret, out, _) := SendBody(m, grants);
            && (ret == 1 <==> Leading(grants) >= |m|) && out == m[..Min(Leading(grants), |m|)]
    decreases |grants|
  {
    if m != [] && grants != [] && grants[0] > 0 {
      var n := Min(grants[0], |m|);
      BodySent(m[n..], grants[1..]);
      var k := Min(Leading(grants[1..]), |m| - n);
      assert m[n..][..k] == m[n..n + k] && m[..n] + m[n..n + k] == m[..n + k];
    }
  }

  /** A call succeeds exactly if its first write takes something and the writes after it, up to
      the first refusal, take the whole text; only then has all of the text been written. */
  lemma SendSucceeds(m: Msg, grants: seq<nat>)
    requires Fits(m)
    ensures SendStep(m, grants).0 == 1 <==> grants != [] && grants[0] > 0 && Leading(grants[1..]) >= |m|
    ensures SendStep(m, grants).0 == 1 ==>
              SendStep(m, grants).1 == BigEndian4(|m|)[..Min(grants[0], HEADER)] + m
  {
    hide BigEndian4;
    if grants != [] {
      BodySent(m, grants[1..]);
      assert m[..|m|] == m;
    }
  }

  /** A successful call has put the message's wire form on the wire exactly if its first write
      took the whole length. */
  lemma SentIsWire(m: Msg, grants: seq<nat>)
    requires Fits(m) && SendStep(m, grants).0 == 1
    ensures SendStep(m, grants).1 == Wire([m]) <==> grants[0] >= HEADER
  {
    SendSucceeds(m, grants);
    hide SendStep;
    assert Wire([m]) == BigEndian4(|m|) + m by {
      assert [m][1..] == [] && Wire([]) == [];
    }
    if grants[0] >= HEADER {
      assert BigEndian4(|m|)[..HEADER] == BigEndian4(|m|);
    } else {
      assert |SendStep(m, grants).1| < |Wire([m])|;
    }
  }

  /** A call that reports success with half of the length missing. */
  lemma HalfALength()
    ensures SendStep([7], [2, 1]) == (1, [0, 0, 7], []) && Wire([[7]]) == [0, 0, 0, 1, 7]
  {
    var text: Msg, once: seq<nat>, twice: seq<nat> := [7], [1], [2, 1];
    assert text[1..] == [] && text[..1] == text && once[1..] == [] && twice[1..] == once;
    assert text[..1] + [] == text;
    assert SendBody(text, once) == (1, text, []);
    assert BigEndian4(1) == [0, 0, 0, 1] && BigEndian4(1)[..2] + text == [0, 0, 7];
    assert [text][1..] == [] && Wire([]) == [];
    assert Wire([text]) == BigEndian4(1) + text + [];
  }

  // ---- the object ----

  class TCPSocket {
    var incoming: seq<byte>   // bytes the peer has sent that were not read yet
    var grants: seq<nat>      // what the kernel allows the coming reads and writes to move
    var closed: bool
    var written: seq<byte>

    const headerBuf: array<byte>
    var dataBuf: array<byte>
    var dataBufLen: nat
    var recvBytes: nat
    var bytesToRecv: nat

    /** The part of the current message taken so far, header included. */
    ghost var acc: seq<byte>

    ghost predicate Valid() reads this, headerBuf, dataBuf {
      && headerBuf.Length == HEADER && dataBuf.Length == dataBufLen + 1 && headerBuf != dataBuf
      && |acc| == recvBytes
      && (recvBytes < HEADER ==> bytesToRecv == HEADER)
      && (recvBytes >= HEADER ==> recvBytes <= bytesToRecv == HEADER + Word4(acc) <= HEADER + dataBufLen)
      && (forall k :: 0 <= k < Min(recvBytes, HEADER) ==> headerBuf[k] == acc[k])
      && (forall k :: HEADER <= k < recvBytes ==> dataBuf[k - HEADER] == acc[k])
    }

    ghost function State(): (c: Conn) reads this { Conn(acc, incoming, grants, closed) }

    constructor (incoming: seq<byte>, grants: seq<nat>, closed: bool)
      ensures Valid() && fresh(headerBuf) && fresh(dataBuf)
      ensures State() == Conn([], incoming, grants, closed) && written == []
    {
      this.incoming, this.grants, this.closed, written := incoming, grants, closed, [];
      headerBuf := new byte[HEADER];
      dataBufLen := 4096;
      dataBuf := new byte[4096 + 1];
      recvBytes, bytesToRecv, acc := 0, HEADER, [];
    }

    /** The system call: moves the n bytes `got` of the stream to buf[at..] and changes
        nothing else; c is the connection as the caller sees it. */
    method KernelRecv(ghost c: Conn, buf: array<byte>, at: nat, max: nat) returns (n: int, ghost got: seq<byte>)
      requires at + max <= buf.Length && c == Conn(c.acc, incoming, grants, closed)
      modifies this`incoming, this`grants, buf
      ensures n <= max && |got| == Max(n, 0)
      ensures (n, Conn(c.acc + got, incoming, grants, closed)) == Read(c, max)
      ensures forall k :: 0 <= k < buf.Length ==> buf[k] == if at <= k < at + n then got[k - at] else old(buf[k])
    {
      got := [];
      assert c.acc + [] == c.acc;
      if max == 0 { return 0, []; }
      if incoming == [] {
        n := if closed then 0 else -1;
        return;
      }
      if grants == [] { return -1, []; }
      var grant := grants[0];
      grants := grants[1..];
      if grant == 0 { return -1, []; }
      n := Min(Min(grant, max), |incoming|);
      got := incoming[..n];
      for j := 0 to n
        modifies buf
        invariant forall k :: 0 <= k < buf.Length ==> buf[k] == if at <= k < at + j then got[k - at] else old(buf[k])
      {
        buf[at + j] := incoming[j];
      }
      incoming := incoming[n..];
    }

    /** Resumable: a partial header or body stays in the object for the next call. */
    method Recv() returns (ret: int, buf: Msg)
      requires Valid()
      modifies this, headerBuf, dataBuf
      ensures Valid() && (fresh(dataBuf) || dataBuf == old(dataBuf)) && written == old(written)
      ensures (ret, buf, State()) == RecvStep(old(State()))
    {
      hide Word4, RecvBody, Read;
      if recvBytes < HEADER {
        var n, got := KernelRecv(State(), headerBuf, recvBytes, HEADER - recvBytes);
        acc := acc + got;
        if n <= 0 { return n, []; }
        recvBytes := recvBytes + n;
        if recvBytes == HEADER {
          var tmp := Word4(headerBuf[..]);
          Word4Same(headerBuf[..], acc);
          if tmp > dataBufLen {
            dataBufLen := tmp;
            dataBuf := new byte[tmp + 1];
          }
          bytesToRecv := bytesToRecv + tmp;
        }
      }
      if recvBytes < HEADER { return -1, []; }
      ret, buf := RecvData();
    }

    /** The second half of recv(), entered with a complete header. */
    method RecvData() returns (ret: int, buf: Msg)
      requires Valid() && recvBytes >= HEADER
      modifies this, dataBuf
      ensures Valid() && dataBuf == old(dataBuf) && written == old(written)
      ensures (ret, buf, State()) == RecvBody(old(State()))
    {
      hide Word4, CString, Read;
      ghost var was := acc;
      var n, got := KernelRecv(State(), dataBuf, recvBytes - HEADER, bytesToRecv - recvBytes);
      acc := acc + got;
      Word4Same(was, acc);
      if n <= 0 { return n, []; }
      recvBytes := recvBytes + n;
      if recvBytes < bytesToRecv { return -1, []; }
      buf := Finish();
      ret := 1;
    }

    /** The message is complete: terminate it, copy it out and start over. */
    method Finish() returns (buf: Msg)
      requires Valid() && HEADER <= recvBytes == bytesToRecv
      modifies this`acc, this`recvBytes, this`bytesToRecv, dataBuf
      ensures Valid() && buf == CString(old(acc)[HEADER..])
      ensures State() == old(State()).(acc := [])
    {
      hide Word4, CString;
      dataBuf[recvBytes - HEADER] := 0;
      assert dataBuf[..recvBytes - HEADER] == acc[HEADER..];
      buf := CString(dataBuf[..recvBytes - HEADER]);
      bytesToRecv := HEADER;
      recvBytes, acc := 0, [];
    }

    /** Puts buf on the wire; a write accepting nothing makes the call fail part of the way. */
    method Send(buf: Msg) returns (ret: int)
      requires Valid() && Fits(buf)
      modifies this`written, this`grants
      ensures Valid()
      ensures var (r, out, rest) := SendStep(buf, old(grants));
              ret == r && written == old(written) + out && grants == rest
    {
      hide Word4, BigEndian4, SendBody;
      var header := BigEndian4(|buf|);
      var n := KernelSend(header);
      if n <= 0 { return n; }
      Associative(old(written), header[..n], SendBody(buf, grants).1);
      ret := SendText(buf);
    }

    /** The loop over the text. */
    method SendText(buf: Msg) returns (ret: int)
      modifies this`written, this`grants
      ensures var (r, out, rest) := SendBody(buf, old(grants));
              ret == r && written == old(written) + out && grants == rest
    {
      hide SendBody;
      ghost var (ret1, text1, rest1) := SendBody(buf, grants);
      ghost var all := written + text1;
      var sent := 0;
      assert buf[0..] == buf;
      while sent < |buf|
        invariant 0 <= sent <= |buf|
        invariant var (r, o, rest) := SendBody(buf[sent..], grants);
                  r == ret1 && written + o == all && rest == rest1
        decreases |buf| - sent
      {
        var text := buf[sent..];
        SendMore(written, text, grants);
        var n := KernelSend(text);
        if n <= 0 { return n; }
        assert text[n..] == buf[sent + n..];
        sent := sent + n;
      }
      assert buf[sent..] == [];
      SendNone(written, grants);
      ret := 1;
    }

    method KernelSend(s: seq<byte>) returns (n: int)
      requires s != []
      modifies this`written, this`grants
      ensures n <= |s| && written == old(written) + s[..Max(n, 0)]
      ensures n == if old(grants) == [] || old(grants)[0] == 0 then -1 else Min(old(grants)[0], |s|)
      ensures grants == if old(grants) == [] then [] else old(grants)[1..]
    {
      n := -1;
      if grants != [] {
        if grants[0] > 0 {
          n := Min(grants[0], |s|);
          written := written + s[..n];
        }
        grants := grants[1..];
      }
    }
  }
}
