/** Integer registers: what set_register writes, and what comes back through set_register,
    get_register and get_reg_value_from_frame (src/h9d/node.cc, src/h9d/raw_node.cc). */
module Registers {
  import opened Common
  import opened Frames
  import Correlation
  import Requests

  // ---- the numbers on the wire ----

  function Pow2(n: nat): (r: nat)
    ensures r > 0
  {
    if n == 0 then 1 else 2 * Pow2(n - 1)
  }

  /** Bytes used for a register of that many bits. */
  function Width(size: nat): nat { if size <= 8 then 1 else if size <= 16 then 2 else 4 }

  /** The smallest of the unsigned integer types, counted in bytes, that has that many bits. */
  predicate Smallest(width: nat, size: nat) {
    width in {1, 2, 4} && size <= 8 * width && (width > 1 ==> 4 * width < size)
  }

  lemma WidthIs(size: nat)
    requires size <= 32
    ensures forall width :: Smallest(width, size) <==> width == Width(size)
  {
  }

  function BigEndian(v: nat, width: nat): (r: seq<byte>)
    ensures |r| == width
  {
    if width == 0 then [] else BigEndian(v / 256, width - 1) + [v % 256]
  }

  function FromBigEndian(s: seq<byte>): nat {
    if s == [] then 0 else FromBigEndian(s[..|s| - 1]) * 256 + s[|s| - 1]
  }

  function Pow256(n: nat): (r: nat)
    ensures r > 0
  {
    if n == 0 then 1 else 256 * Pow256(n - 1)
  }

  lemma {:induction false} BigEndianRoundTrip(v: nat, width: nat)
    requires v < Pow256(width)
    ensures FromBigEndian(BigEndian(v, width)) == v
  {
    if width > 0 {
      BigEndianRoundTrip(v / 256, width - 1);
      assert BigEndian(v, width)[..width - 1] == BigEndian(v / 256, width - 1);
    }
  }

  /** The k-th byte has the weight of network byte order. */
  lemma {:induction false} ByteOf(v: nat, width: nat, k: nat)
    requires k < width
    ensures BigEndian(v, width)[k] == v / Pow256(width - 1 - k) % 256
  {
    if k < width - 1 {
      ByteOf(v / 256, width - 1, k);
      DivTwice(v, 256, Pow256(width - 2 - k));
    }
  }

  lemma DivTwice(v: nat, a: nat, b: nat)
    requires a > 0 && b > 0
    ensures a * b > 0 && v / a / b == v / (a * b)
  {
    var q, r := Divide(v, a);
    var p, t := Divide(q, b);
    assert a * b > 0;
    assert v == p * (a * b) + (t * a + r) && 0 <= t * a + r < a * b by {
      assert v == (p * b + t) * a + r;
      assert (t + 1) * a <= b * a;
    }
    DivModUnique(v, a * b, p, t * a + r);
  }

  lemma {:induction false} FromBigEndianBound(s: seq<byte>)
    ensures FromBigEndian(s) < Pow256(|s|)
  {
    if s != [] { FromBigEndianBound(s[..|s| - 1]); }
  }

  lemma {:induction false} FromBigEndianThenBack(s: seq<byte>)
    ensures BigEndian(FromBigEndian(s), |s|) == s
  {
    if s != [] {
      var n := |s| - 1;
      FromBigEndianThenBack(s[..n]);
      DivModUnique(FromBigEndian(s), 256, FromBigEndian(s[..n]), s[n]);
    }
  }

  lemma {:induction false} Pow2Grows(a: nat, b: nat)
    requires a <= b
    ensures 0 < Pow2(a) <= Pow2(b)
    decreases b
  {
    if a < b { Pow2Grows(a, b - 1); }
    else if a > 0 { Pow2Grows(a - 1, a - 1); }
  }

  lemma Pow2Values()
    ensures Pow2(8) == 256 == Pow256(1) && Pow2(16) == 0x1_0000 == Pow256(2) && Pow2(30) == 0x4000_0000
    ensures Pow256(4) == 0x1_0000_0000
  {
    assert Pow2(4) == 16;
    assert Pow2(12) == 0x1000;
    assert Pow2(20) == 0x10_0000;
    assert Pow2(24) == 0x100_0000;
    assert Pow2(28) == 0x1000_0000;
    assert Pow256(3) == 0x100_0000;
  }

  /** What the mask leaves of v, which may be negative, fits the width. */
  lemma MaskedFits(v: int, size: nat)
    requires size <= 30
    ensures 0 <= v % Pow2(size) < Pow256(Width(size)) && v % Pow2(size) < Pow2(size)
  {
    Pow2Values();
    hide Pow256, Pow2;
    Pow2Grows(0, size);
    Pow2Grows(size, if size <= 8 then 8 else if size <= 16 then 16 else 30);
  }

  // ---- replies ----

  datatype Error = Timeout | Malformed | NodeError(code: nat) | SizeMismatch | NotExist | NotWritable | NotReadable

  datatype Outcome = Value(v: nat) | Failed(error: Error)

  /** What get_reg and set_reg return: a length, or an error as a negative number. */
  function Ret(reply: Option<Frame>): int {
    if reply == None then -1000
    else if reply.value.kind == REG_VALUE && reply.value.dlc > 1 then reply.value.dlc - 1
    else if reply.value.kind == COMMAND_ERROR && reply.value.dlc == 1 then -(reply.value.data[0] as int)
    else -1001
  }

  predicate Sane(reply: Option<Frame>) { reply.Some? ==> reply.value.dlc <= 8 }

  /** The outcome of a request for a register of that width, from the reply alone. */
  function Decoded(width: nat, reply: Option<Frame>): Outcome
    requires Sane(reply)
  {
    match reply
    case None => Failed(Timeout)
    case Some(f) =>
      if f.kind == REG_VALUE && f.dlc > 1 then
        if f.dlc == width + 1 then Value(FromBigEndian(f.data[1..f.dlc])) else Failed(SizeMismatch)
      else if f.kind == COMMAND_ERROR && f.dlc == 1 then
        if f.data[0] > 0 then Failed(NodeError(f.data[0])) else Failed(SizeMismatch)
      else Failed(Malformed)
  }

  /** Which replies, and their absence, lead to which error. */
  lemma RefusalsAre(width: nat, reply: Option<Frame>, code: nat)
    requires Sane(reply)
    ensures Decoded(width, reply) == Failed(Timeout) <==> reply == None
    ensures Decoded(width, reply) == Failed(NodeError(code))
        <==> reply.Some? && reply.value.kind == COMMAND_ERROR && reply.value.dlc == 1 && code == reply.value.data[0] != 0
    ensures Decoded(width, reply) == Failed(SizeMismatch)
        <==> reply.Some? && var f := reply.value;
             || (f.kind == REG_VALUE && f.dlc >= 2 && f.dlc - 1 != width)
             || (f.kind == COMMAND_ERROR && f.dlc == 1 && f.data[0] == 0)
    ensures Decoded(width, reply) == Failed(Malformed)
        <==> reply.Some? && var f := reply.value;
             if f.kind == REG_VALUE then f.dlc <= 1 else f.kind == COMMAND_ERROR ==> f.dlc != 1
  {
    hide FromBigEndian;
  }

  /** The frame by which a node reports a register. */
  predicate Echoes(f: Frame, reg: byte, v: nat, width: nat) {
    f.kind == REG_VALUE && f.dlc == width + 1 <= 8 && f.data[..width + 1] == [reg] + BigEndian(v, width)
  }

  /** A value is returned exactly for an echo of it; every other payload length is refused. */
  lemma ValueIffEchoed(width: nat, reply: Option<Frame>, v: nat)
    requires Sane(reply) && 0 < width <= 7 && v < Pow256(width)
    ensures Decoded(width, reply) == Value(v)
        <==> reply.Some? && Echoes(reply.value, reply.value.data[0], v, width)
  {
    hide Pow256, BigEndian, FromBigEndian;
    if reply.Some? && reply.value.kind == REG_VALUE && reply.value.dlc == width + 1 {
      var f := reply.value;
      assert f.data[..width + 1] == [f.data[0]] + f.data[1..width + 1];
      FromBigEndianThenBack(f.data[1..width + 1]);
      BigEndianRoundTrip(v, width);
      SameTail(f.data[0], f.data[1..width + 1], BigEndian(v, width));
    }
  }

  lemma SameTail(x: byte, a: seq<byte>, b: seq<byte>)
    ensures [x] + a == [x] + b <==> a == b
  {
    assert ([x] + a)[1..] == a && ([x] + b)[1..] == b;
  }

  /** A reply that a register request accepts is malformed only by its length. */
  lemma MalformedReplies(nodeId: byte, reg: byte, f: Frame, width: nat)
    requires Correlation.Matches(Requests.RegComparator(nodeId, reg), f) && f.dlc <= 8
    ensures f.source == nodeId && ((f.kind == REG_VALUE && f.dlc >= 1 && f.data[0] == reg) || f.kind == COMMAND_ERROR)
    ensures Decoded(width, Some(f)) == Failed(Malformed)
        <==> if f.kind == REG_VALUE then f.dlc == 1 else f.dlc != 1
  {
  }

  // ---- the raw node ----

  predicate IsValue(reply: Option<Frame>) { reply.Some? && reply.value.kind == REG_VALUE && reply.value.dlc > 1 }

  /** Copies n bytes of the value. */
  method CopyValue(f: Frame, n: nat, buf: array<byte>)
    requires n <= 7 && n <= buf.Length
    modifies buf
    ensures buf[..] == f.data[1..1 + n] + old(buf[..])[n..]
  {
    for i := 0 to n
      invariant forall k :: 0 <= k < i ==> buf[k] == f.data[1 + k]
      invariant forall k :: i <= k < buf.Length ==> buf[k] == old(buf[k])
    {
      buf[i] := f.data[i + 1];
    }
  }

  /** How many bytes `set_reg` copies back: the length it is given, if the reply is longer than
      what was set, and else the reply's. */
  function CopiedBack(length: nat, replyLength: nat, given: int): nat {
    if length < replyLength then (if given < 0 then length else given) else replyLength
  }

  /** Left to itself the copy is as long as the shorter of the two; a length given for the buffer is
      kept to exactly if the reply is longer than what was set, or no longer than that length. */
  lemma CopiedBackIs(length: nat, replyLength: nat, given: int)
    ensures given < 0 ==> CopiedBack(length, replyLength, given) == Min(length, replyLength)
    ensures given >= 0 ==>
              (CopiedBack(length, replyLength, given) <= given <==> length < replyLength || replyLength <= given)
  {
  }

  /** `set_reg` on bytes: the payload it sends, which a frame cuts at eight bytes, its return
      value, and the bytes returned if a buffer for them is given; `given` is the length passed
      for it, negative when none is. The copy must fit the buffer and the frame. */
  method SetReg(reg: byte, regVal: array<byte>, reply: Option<Frame>, regAfterSet: array?<byte>, given: int)
    returns (payload: seq<byte>, ret: int)
    requires Sane(reply)
    requires regAfterSet != null && IsValue(reply) ==>
               var n := CopiedBack(regVal.Length, reply.value.dlc - 1, given); n <= regAfterSet.Length && n <= 7
    modifies if regAfterSet != null then {regAfterSet} else {}
    ensures payload == ([reg] + old(regVal[..]))[..Min(8, 1 + regVal.Length)] && ret == Ret(reply)
    ensures regAfterSet != null ==>
              regAfterSet[..] == if !IsValue(reply) then old(regAfterSet[..])
                                 else var n := CopiedBack(regVal.Length, reply.value.dlc - 1, given);
                                      reply.value.data[1..1 + n] + old(regAfterSet[..])[n..]
  {
    payload := ([reg] + regVal[..])[..Min(8, 1 + regVal.Length)];
    if reply == None { return payload, -1000; }
    var res := reply.value;
    if res.kind == REG_VALUE && res.dlc > 1 {
      if regAfterSet != null {
        var after := if given < 0 then regVal.Length else given;
        var max := if regVal.Length < res.dlc - 1 then after else res.dlc - 1;
        CopyValue(res, max, regAfterSet);
      }
      return payload, res.dlc - 1;
    } else if res.kind == COMMAND_ERROR && res.dlc == 1 {
      return payload, -(res.data[0] as int);
    }
    return payload, -1001;
  }

  /** `get_reg` on bytes, from the reply on: at most as much is copied as the buffer takes. */
  method GetReg(reply: Option<Frame>, regVal: array<byte>) returns (ret: int)
    requires Sane(reply)
    modifies regVal
    ensures ret == Ret(reply)
    ensures regVal[..] == if !IsValue(reply) then old(regVal[..])
                          else var n := Min(regVal.Length, reply.value.dlc - 1);
                               reply.value.data[1..1 + n] + old(regVal[..])[n..]
  {
    if reply == None { return -1000; }
    var res := reply.value;
    if res.kind == REG_VALUE && res.dlc > 1 {
      var n := if regVal.Length < res.dlc - 1 then regVal.Length else res.dlc - 1;
      CopyValue(res, n, regVal);
      return res.dlc - 1;
    } else if res.kind == COMMAND_ERROR && res.dlc == 1 {
      return -(res.data[0] as int);
    }
    return -1001;
  }

  /** Network byte order, as htons and htonl leave it in memory. */
  method HostToNetwork(v: nat, width: nat) returns (buf: array<byte>)
    requires v < Pow256(width)
    ensures fresh(buf) && buf[..] == BigEndian(v, width)
  {
    buf := new byte[width];
    var rest := v;
    var i := width;
    while i > 0
      invariant 0 <= i <= width
      invariant BigEndian(v, width) == BigEndian(rest, i) + buf[i..]
    {
      i := i - 1;
      buf[i] := rest % 256;
      assert buf[i..] == [buf[i]] + buf[i + 1..];
      rest := rest / 256;
    }
  }

  method NetworkToHost(buf: array<byte>) returns (v: nat)
    ensures v == FromBigEndian(buf[..])
  {
    v := 0;
    for i := 0 to buf.Length
      invariant v == FromBigEndian(buf[..i])
    {
      assert buf[..i + 1][..i] == buf[..i];
      v := v * 256 + buf[i];
    }
    assert buf[..buf.Length] == buf[..];
  }

  /** What the return value and a buffer of the register's width amount to. */
  function Converted(ret: int, buf: seq<byte>): Outcome {
    if ret == -1000 then Failed(Timeout) else if ret == -1001 then Failed(Malformed)
    else if ret < 0 then Failed(NodeError(-ret))
    else if ret != |buf| then Failed(SizeMismatch) else Value(FromBigEndian(buf))
  }

  lemma ConvertedIsDecoded(reply: Option<Frame>, was: seq<byte>, buf: seq<byte>)
    requires Sane(reply) && |was| == |buf| > 0
    requires buf == if !IsValue(reply) then was
                    else var n := Min(|buf|, reply.value.dlc - 1); reply.value.data[1..1 + n] + was[n..]
    ensures Converted(Ret(reply), buf) == Decoded(|buf|, reply)
  {
    hide FromBigEndian;
    if IsValue(reply) && |buf| == reply.value.dlc - 1 {
      assert was[|buf|..] == [];
      assert buf == reply.value.data[1..reply.value.dlc];
    }
  }

  // ---- the node ----

  datatype Register = Register(kind: string, size: nat, readable: bool, writable: bool)

  class Node {
    var registerMap: map<byte, Register>

    /** What all three conversions share: exceptions for errors, then the length. */
    method Convert(ret: int, buf: array<byte>) returns (r: Outcome)
      ensures r == Converted(ret, buf[..])
    {
      if ret < 0 {
        if ret == -1000 { return Failed(Timeout); }
        else if ret == -1001 { return Failed(Malformed); }
        else { return Failed(NodeError(-ret)); }
      } else if ret != buf.Length {
        return Failed(SizeMismatch);
      }
      var v := NetworkToHost(buf);
      return Value(v);
    }

    /** The payload is what goes into the SET_REG frame, if one is sent. */
    method SetRegister(reg: byte, v: int, reply: Option<Frame>) returns (payload: Option<seq<byte>>, r: Outcome)
      requires Sane(reply)
      requires reg in registerMap ==> registerMap[reg].kind != "str" && registerMap[reg].size <= 30
      ensures reg !in registerMap ==> payload == None && r == Failed(NotExist)
      ensures reg in registerMap && !registerMap[reg].writable ==> payload == None && r == Failed(NotWritable)
      ensures reg in registerMap && registerMap[reg].writable ==>
                var size := registerMap[reg].size;
                forall width :: Smallest(width, size) ==>
                  && payload == Some([reg] + BigEndian(v % Pow2(size), width))
                  && r == Decoded(width, reply)
    {
      if reg !in registerMap { return None, Failed(NotExist); }
      if !registerMap[reg].writable { return None, Failed(NotWritable); }
      hide Pow256, Pow2, BigEndian, FromBigEndian, Decoded, Converted, Ret, Smallest;
      var size := registerMap[reg].size;
      WidthIs(size);
      MaskedFits(v, size);
      var tmp := HostToNetwork(v % Pow2(size), Width(size));
      var val := new byte[Width(size)];
      ghost var was := val[..];
      var sent, ret := SetReg(reg, tmp, reply, val, -1);
      assert sent == [reg] + BigEndian(v % Pow2(size), Width(size));
      payload := Some(sent);
      ConvertedIsDecoded(reply, was, val[..]);
      r := Convert(ret, val);
    }

    /** Registers of 32 bits are read as floats, which are not modelled. */
    method GetRegister(reg: byte, reply: Option<Frame>) returns (r: Outcome)
      requires Sane(reply)
      requires reg in registerMap ==> registerMap[reg].kind != "str" && registerMap[reg].size < 32
      ensures reg !in registerMap ==> r == Failed(NotExist)
      ensures reg in registerMap && !registerMap[reg].readable ==> r == Failed(NotReadable)
      ensures reg in registerMap && registerMap[reg].readable ==>
                forall width :: Smallest(width, registerMap[reg].size) ==> r == Decoded(width, reply)
    {
      if reg !in registerMap { return Failed(NotExist); }
      if !registerMap[reg].readable { return Failed(NotReadable); }
      hide FromBigEndian, Decoded, Converted, Ret, Smallest;
      WidthIs(registerMap[reg].size);
      var val := new byte[Width(registerMap[reg].size)];
      ghost var was := val[..];
      var ret := GetReg(reply, val);
      ConvertedIsDecoded(reply, was, val[..]);
      r := Convert(ret, val);
    }

    /** Register number and value of a reported register; reports are also broadcast. */
    method GetRegValueFromFrame(f: Frame) returns (reg: byte, r: Outcome)
      requires f.kind in [REG_VALUE, REG_VALUE_BROADCAST] && f.dlc <= 8
      requires f.data[0] in registerMap ==> registerMap[f.data[0]].kind != "str" && registerMap[f.data[0]].size <= 32
      ensures reg == f.data[0]
      ensures f.dlc < 2 ==> r == Failed(Malformed)
      ensures f.dlc >= 2 && f.data[0] !in registerMap ==> r == Failed(NotExist)
      ensures f.dlc >= 2 && f.data[0] in registerMap ==>
                forall width :: Smallest(width, registerMap[f.data[0]].size) ==>
                  r == Decoded(width, Some(f.(kind := REG_VALUE)))
    {
      hide FromBigEndian, Smallest;
      reg := f.data[0];
      if f.dlc < 2 { return reg, Failed(Malformed); }
      if reg !in registerMap { return reg, Failed(NotExist); }
      WidthIs(registerMap[reg].size);
      var width := Width(registerMap[reg].size);
      var val := new byte[width](i requires 0 <= i < width => f.data[1 + i]);
      if f.dlc - 1 != width { return reg, Failed(SizeMismatch); }
      var v := NetworkToHost(val);
      assert val[..] == f.data[1..f.dlc];
      return reg, Value(v);
    }
  }

  /** The payload of SET_REG, echoed by the node, reads back as the number that was set. */
  lemma RegisterRoundTrip(reg: byte, v: int, size: nat, width: nat, f: Frame)
    requires size <= 30 && Smallest(width, size) && f.kind == REG_VALUE && f.dlc == width + 1
    requires f.data[..f.dlc] == [reg] + BigEndian(v % Pow2(size), width)
    ensures Decoded(width, Some(f)) == Value(v % Pow2(size)) && f.data[0] == reg
    ensures 0 <= v < Pow2(size) ==> v % Pow2(size) == v
  {
    MaskedFits(v, size);
    WidthIs(size);
    hide Pow256, BigEndian, Pow2;
    assert f.data[0] == f.data[..f.dlc][0] == reg;
    ValueIffEchoed(width, Some(f), v % Pow2(size));
    if 0 <= v < Pow2(size) { DivModUnique(v, Pow2(size), 0, v); }
  }
}
