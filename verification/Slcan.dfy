/** The SLCAN text codec and the serial driver that reassembles it from arbitrary reads
    (src/bus_driver/slcan_driver.cc, src/h9d/bus.cc:144-167). */
module Slcan {
  import opened Common
  import opened Frames
  import opened HexText

  const CR := '\r'
  const BEL := '\U{0007}'

  // ---- messages ----

  function BuildMsg(f: Frame): string
    requires f.dlc <= 8
  {
    "T" + Hex(CanId(f), 8) + Hex(f.dlc, 1) + HexBytes(f.data[..f.dlc]) + [CR]
  }

  /** `Fault` stands for a thrown exception and for the overrun of the eight-byte buffer. */
  datatype Parse = Parsed(frame: Frame) | TooShort | Fault

  function Append(b: Option<seq<byte>>, v: Option<int>): Option<seq<byte>> {
    if b.Some? && v.Some? then Some(b.value + [v.value % 256]) else None
  }

  /** Two hex digits a byte. */
  function ParseBytes(s: string): Option<seq<byte>> {
    if |s| < 2 then Some([]) else Append(ParseBytes(s[..|s| - 2]), Stoi(s[|s| - 2..]))
  }

  /** `blank` supplies every value the program leaves uninitialised: the untouched fields
      of the frame and the bytes of the stack buffer past the data length. */
  function ParseMsg(s: string, blank: Frame): Parse {
    if |s| < 10 then TooShort
    else
      match (Stoi(s[1..9]), Stoi(s[9..10]))
      case (Some(id), Some(dlc)) =>
        if |s| < 10 + 2 * dlc then TooShort
        else if dlc > 8 then Fault
        else (match ParseBytes(s[10..10 + 2 * dlc])
              case Some(b) => Parsed(Loaded(blank, id % 0x1_0000_0000, dlc, b))
              case None => Fault)
      case _ => Fault
  }

  lemma {:induction false} ParseBytesPrefix(s: string, t: string)
    requires |t| % 2 == 0
    ensures ParseBytes(s).None? ==> ParseBytes(s + t).None?
    ensures ParseBytes(s).Some? ==> |ParseBytes(s).value| == |s| / 2
    decreases |s| + |t|
  {
    if t != "" {
      ParseBytesPrefix(s, t[..|t| - 2]);
      assert (s + t)[..|s + t| - 2] == s + t[..|t| - 2];
    } else {
      assert s + t == s;
      if |s| >= 2 { ParseBytesPrefix(s[..|s| - 2], ""); }
    }
  }

  function Loaded(blank: Frame, id: u32, dlc: byte, b: seq<byte>): Frame {
    WithCanId(blank, id).(dlc := dlc, data := if |b| <= 8 then b + blank.data[|b|..] else b[..8])
  }

  method BuildSlcanMsg(f: Frame) returns (buf: string)
    requires f.dlc <= 8
    ensures buf == BuildMsg(f)
  {
    hide CanId, Hex;
    buf := "T" + Hex(CanId(f), 8) + Hex(f.dlc, 1);
    ghost var head := buf;
    for i := 0 to f.dlc
      invariant buf == head + HexBytes(f.data[..i])
    {
      assert f.data[..i + 1][..i] == f.data[..i];
      buf := buf + Hex(f.data[i], 2);
    }
    buf := buf + [CR];
  }

  lemma ParseOneMore(t: string, two: string)
    requires |two| == 2
    ensures ParseBytes(t + two) == Append(ParseBytes(t), Stoi(two))
  {
    hide Stoi;
    var s := t + two;
    assert s[..|s| - 2] == t && s[|s| - 2..] == two;
  }

  lemma ParseAdvances(digits: string, n: nat, i: nat)
    requires |digits| == 2 * n && i < n
    ensures ParseBytes(digits[..2 * (i + 1)])
         == Append(ParseBytes(digits[..2 * i]), Stoi(digits[2 * i..2 * (i + 1)]))
    ensures ParseBytes(digits[..2 * (i + 1)]).None? ==> ParseBytes(digits).None?
  {
    hide Stoi, ParseBytes, Append;
    var next, last := digits[..2 * (i + 1)], digits[2 * (i + 1)..];
    ParseOneMore(digits[..2 * i], digits[2 * i..2 * (i + 1)]);
    assert next == digits[..2 * i] + digits[2 * i..2 * (i + 1)];
    ParseBytesPrefix(next, last);
    assert digits == next + last;
  }

  lemma NoDigits(digits: string)
    ensures digits[..0] == "" && ParseBytes("") == Some([])
  {
  }

  lemma AppendTo(b: seq<byte>, v: Option<int>)
    ensures Append(Some(b), v) == if v.Some? then Some(b + [v.value % 256]) else None
  {
  }

  /** The decoding loop over the data digits, into the stack buffer. */
  method FillBytes(digits: string, n: nat, buf: array<byte>) returns (ok: bool)
    requires |digits| == 2 * n && n <= buf.Length
    modifies buf
    ensures ok <==> ParseBytes(digits).Some?
    ensures ok ==> buf[..] == ParseBytes(digits).value + old(buf[n..])
  {
    hide Stoi, ParseBytes, Append;
    ghost var was, done := buf[..], [];
    NoDigits(digits);
    for i := 0 to n
      invariant ParseBytes(digits[..2 * i]) == Some(done) && |done| == i
      invariant forall k :: 0 <= k < buf.Length ==> buf[k] == if k < i then done[k] else was[k]
    {
      ParseAdvances(digits, n, i);
      var tmp := Stoi(digits[2 * i..2 * (i + 1)]);
      AppendTo(done, tmp);
      if tmp.None? { return false; }
      buf[i] := tmp.value % 256;
      done := done + [tmp.value % 256];
    }
    assert digits[..|digits|] == digits;
    assert buf[..] == done + was[n..];
    ok := true;
  }

  method ParseSlcanMsg(s: string, blank: Frame) returns (r: Parse)
    ensures r == ParseMsg(s, blank)
  {
    hide Stoi, WithCanId, ParseBytes;
    if |s| < 10 { return TooShort; }
    var id, dlc := Stoi(s[1..9]), Stoi(s[9..10]);
    if id.None? || dlc.None? { return Fault; }
    if |s| < 10 + 2 * dlc.value { return TooShort; }
    if dlc.value > 8 { return Fault; }
    var buf := new byte[8](i requires 0 <= i < 8 => blank.data[i]);
    var digits := s[10..10 + 2 * dlc.value];
    assert buf[dlc.value..] == blank.data[dlc.value..];
    ParseBytesPrefix(digits, "");
    var ok := FillBytes(digits, dlc.value, buf);
    if !ok { return Fault; }
    r := Parsed(WithCanId(blank, id.value % 0x1_0000_0000).(dlc := dlc.value, data := buf[..]));
  }

  /** The two frames carry the same identifier and the same data bytes. */
  predicate SameMessage(a: Frame, b: Frame) {
    SameIdentity(a, b) && a.dlc == b.dlc <= 8 && a.data[..a.dlc] == b.data[..a.dlc]
  }

  lemma TwoDigits(n: byte)
    ensures Stoi(Hex(n, 2)) == Some(n)
  {
    assert Pow16(2) == 256;
    HexRoundTrip(n, 2);
    StoiOfDigits(Hex(n, 2));
  }

  lemma HexBytesStep(d: seq<byte>, b: byte)
    requires ParseBytes(HexBytes(d)) == Some(d)
    ensures ParseBytes(HexBytes(d) + Hex(b, 2)) == Some(d + [b])
  {
    hide HexBytes, ParseBytes, Stoi, Hex;
    ParseOneMore(HexBytes(d), Hex(b, 2));
    TwoDigits(b);
  }

  lemma {:induction false} HexBytesRoundTrip(d: seq<byte>)
    ensures ParseBytes(HexBytes(d)) == Some(d)
  {
    hide Stoi, Hex;
    if d != [] {
      hide ParseBytes;
      var n := |d|;
      HexBytesRoundTrip(d[..n - 1]);
      HexBytesStep(d[..n - 1], d[n - 1]);
      assert d == d[..n - 1] + [d[n - 1]];
    }
  }

  lemma OneDigit(n: byte)
    requires n < 16
    ensures Stoi(Hex(n, 1)) == Some(n)
  {
    assert Pow16(1) == 16;
    HexRoundTrip(n, 1);
    StoiOfDigits(Hex(n, 1));
  }

  /** Parsing a built message gives the message back, whatever the memory held before. */
  lemma TextRoundTrip(f: Frame, blank: Frame)
    requires WellFormed(f) && f.dlc <= 8
    ensures ParseMsg(BuildMsg(f), blank).Parsed?
    ensures SameMessage(ParseMsg(BuildMsg(f), blank).frame, f)
  {
    hide Stoi, Hex, HexBytes, ParseBytes, WithCanId, CanId;
    var s, d := BuildMsg(f), f.data[..f.dlc];
    assert s[1..9] == Hex(CanId(f), 8) && s[9..10] == Hex(f.dlc, 1) && s[10..10 + 2 * f.dlc] == HexBytes(d);
    HexOf32Bits(CanId(f));
    OneDigit(f.dlc);
    HexBytesRoundTrip(d);
    CanIdThenBack(f, blank);
    assert (d + blank.data[|d|..])[..f.dlc] == d;
  }

  // ---- messages an adapter writes in another way, or cuts short ----

  lemma {:induction false} CapitalBytes(s: string)
    ensures ParseBytes(Capitals(s)) == ParseBytes(s)
  {
    hide Stoi, Capitals, Append;
    if |s| >= 2 {
      CapitalBytes(s[..|s| - 2]);
      CapitalParts(s, |s| - 2);
      CapitalsRead(s[|s| - 2..]);
    }
  }

  /** A message in capitals is parsed like one in small letters. */
  lemma CapitalsParsed(s: string, blank: Frame)
    ensures ParseMsg(Capitals(s), blank) == ParseMsg(s, blank)
  {
    hide Stoi, Capitals, ParseBytes, Loaded;
    if |s| >= 10 {
      CapitalPart(s, 1, 9);
      CapitalPart(s, 9, 10);
      CapitalsRead(s[1..9]);
      CapitalsRead(s[9..10]);
      var dlc := Stoi(s[9..10]);
      if dlc.Some? && |s| >= 10 + 2 * dlc.value {
        CapitalPart(s, 10, 10 + 2 * dlc.value);
        CapitalBytes(s[10..10 + 2 * dlc.value]);
      }
    }
  }

  lemma CapitalPart(s: string, i: nat, j: nat)
    requires i <= j <= |s|
    ensures Capitals(s)[i..j] == Capitals(s[i..j])
  {
  }

  /** A built message without its last k data digits. */
  function CutShort(f: Frame, k: nat): string
    requires f.dlc <= 8 && k <= 2 * f.dlc
  {
    "T" + Hex(CanId(f), 8) + Hex(f.dlc, 1) + HexBytes(f.data[..f.dlc])[..2 * f.dlc - k] + [CR]
  }

  /** A message is dropped when two digits or more are missing; with one missing, the last byte is
      read from the digit that is there. */
  lemma CutShortIs(f: Frame, k: nat, blank: Frame)
    requires WellFormed(f) && f.dlc <= 8 && 0 < k <= 2 * f.dlc
    ensures k >= 2 ==> ParseMsg(CutShort(f, k), blank) == TooShort
    ensures k == 1 ==> ParseMsg(CutShort(f, k), blank).Parsed?
                       && var g := ParseMsg(CutShort(f, k), blank).frame;
                          && SameIdentity(g, f) && g.dlc == f.dlc
                          && g.data[..g.dlc] == f.data[..f.dlc - 1] + [f.data[f.dlc - 1] / 16]
  {
    hide Stoi, Hex, HexBytes, ParseBytes, WithCanId, CanId;
    var s, d := CutShort(f, k), f.data[..f.dlc];
    assert s[1..9] == Hex(CanId(f), 8) && s[9..10] == Hex(f.dlc, 1);
    HexOf32Bits(CanId(f));
    OneDigit(f.dlc);
    if k == 1 {
      var n := f.dlc - 1;
      assert d == d[..n] + [d[n]];
      assert s[10..10 + 2 * f.dlc] == HexBytes(d)[..2 * f.dlc - 1] + [CR];
      HalfAByte(d[..n], d[n]);
      CanIdThenBack(f, blank);
      var b := d[..n] + [d[n] / 16];
      assert (b + blank.data[|b|..])[..f.dlc] == b;
    }
  }

  lemma HalfAByte(d: seq<byte>, b: byte)
    ensures ParseBytes(HexBytes(d + [b])[..2 * |d| + 1] + [CR]) == Some(d + [b / 16])
  {
    hide *;
    FirstHalf(d, b);
    HexBytesRoundTrip(d);
    OneDigitThenEnd(b / 16);
    ParsePair(HexBytes(d), d, HexDigit(b / 16), b / 16);
  }

  lemma ParsePair(t: string, d: seq<byte>, c: char, v: byte)
    requires ParseBytes(t) == Some(d) && Stoi([c, CR]) == Some(v)
    ensures ParseBytes(t + [c] + [CR]) == Some(d + [v])
  {
    hide *;
    ParseOneMore(t, [c, CR]);
    assert t + [c] + [CR] == t + [c, CR];
    AppendTo(d, Some(v));
  }

  lemma FirstHalf(d: seq<byte>, b: byte)
    ensures HexBytes(d + [b])[..2 * |d| + 1] == HexBytes(d) + [HexDigit(b / 16)]
  {
    hide *;
    OneMoreByte(d, b);
    HighDigit(b);
    assert |HexBytes(d)| == 2 * |d| && |Hex(b, 2)| == 2;
    assert Hex(b, 2)[..1] == [HexDigit(b / 16)];
    assert (HexBytes(d) + Hex(b, 2))[..2 * |d| + 1] == HexBytes(d) + Hex(b, 2)[..1];
  }

  lemma OneMoreByte(d: seq<byte>, b: byte)
    ensures HexBytes(d + [b]) == HexBytes(d) + Hex(b, 2)
  {
    hide Hex;
    assert (d + [b])[..|d|] == d;
  }

  lemma HighDigit(b: byte)
    ensures Hex(b, 2)[0] == HexDigit(b / 16)
  {
    assert Hex(b / 16, 1) == Hex(b / 16 / 16, 0) + [HexDigit(b / 16 % 16)];
  }

  lemma OneDigitThenEnd(n: nat)
    requires n < 16
    ensures Stoi([HexDigit(n), CR]) == Some(n)
  {
    var digit := [HexDigit(n)];
    DigitBack(n);
    assert HexValue(digit[..0]) == Some(0) && HexValue(digit) == Some(n);
    hide Stoi, HexValue;
    assert [HexDigit(n), CR] == "" + ("" + ("" + (digit + [CR])));
    FormIsRead([HexDigit(n), CR], "", "", "", digit, [CR]);
  }

  /** A message that ends where the length should be throws, one that is shorter is too short. */
  lemma NoLength(id: u32, rest: string, blank: Frame)
    requires id < 0x8000_0000 && rest != "" && DigitValue(rest[0]).None?
    ensures ParseMsg("T" + Hex(id, 8) + rest, blank) == Fault
    ensures forall s: string :: |s| <= 9 ==> ParseMsg(s, blank) == TooShort
  {
    hide Hex;
    var s := "T" + Hex(id, 8) + rest;
    assert s[9..10] == [rest[0]];
    OneCharacter(rest[0]);
  }

  lemma OneCharacter(c: char)
    requires DigitValue(c).None?
    ensures Stoi([c]) == None
  {
    hide Stoi, DigitValue, Form;
    if Stoi([c]).Some? {
      var blanks, sign, prefix, digits, rest;
      blanks, sign, prefix, digits, rest := ReadHasForm([c]);
      OnlyDigits([c], blanks, sign, prefix, digits, rest);
      assert false;
    }
  }

  lemma OnlyDigits(s: string, blanks: string, sign: string, prefix: string, digits: string, rest: string)
    requires Form(s, blanks, sign, prefix, digits, rest) && |s| == 1
    ensures DigitValue(s[0]).Some?
  {
    hide HexValue, DigitValue;
    AllDigits(digits, 0);
    assert digits == s;
  }

  /** A sign is read: a negative byte counts from 256 down, a negative identifier from 2^32. */
  lemma NegativeByte(digit: char)
    requires DigitValue(digit).Some? && DigitValue(digit).value > 0
    ensures ParseBytes(['-', digit]) == Some([256 - DigitValue(digit).value])
  {
    hide *;
    var v: int := DigitValue(digit).value;
    var s: string, none: seq<byte> := ['-', digit], [];
    NegativeDigit(digit);
    NoDigits("");
    ParseOneMore("", s);
    assert "" + s == s;
    DigitsAre(digit, v);
    DivModUnique(0 - v, 256, -1, 256 - v);
    AppendTo(none, Some(0 - v));
    assert none + [256 - v] == [256 - v];
  }

  lemma NegativeIdentifier(n: nat, rest: string, blank: Frame)
    requires 0 < n < 0x1000_0000
    ensures ParseMsg("T-" + Hex(n, 7) + "0" + rest, blank)
         == Parsed(WithCanId(blank, 0x1_0000_0000 - n).(dlc := 0, data := blank.data))
  {
    hide Stoi, Hex, WithCanId;
    NegativeNumber(n);
    ZeroLength();
    var s := "T-" + Hex(n, 7) + "0" + rest;
    assert s[1..9] == "-" + Hex(n, 7) && s[9..10] == "0" && s[10..10] == "";
    DivModUnique(0 - n, 0x1_0000_0000, -1, 0x1_0000_0000 - n);
    assert [] + blank.data[0..] == blank.data;
  }

  lemma ZeroLength()
    ensures Stoi("0") == Some(0)
  {
    OneDigit(0);
    assert Hex(0, 1) == Hex(0, 0) + "0" == "0";
  }

  lemma NegativeDigit(digit: char)
    requires DigitValue(digit).Some?
    ensures Stoi(['-', digit]) == Some(0 - (DigitValue(digit).value as int))
  {
    var d := [digit];
    assert HexValue(d[..0]) == Some(0) && HexValue(d) == DigitValue(digit);
    hide Stoi, HexValue;
    assert ['-', digit] == "" + ("-" + ("" + (d + "")));
    FormIsRead(['-', digit], "", "-", "", d, "");
  }

  lemma NegativeNumber(n: nat)
    requires n < 0x1000_0000
    ensures Stoi("-" + Hex(n, 7)) == Some(0 - (n as int))
  {
    assert Pow16(7) == 0x1000_0000 by {
      assert Pow16(4) == 0x1_0000;
    }
    HexRoundTrip(n, 7);
    hide Stoi, HexValue, Hex;
    assert "-" + Hex(n, 7) == "" + ("-" + ("" + (Hex(n, 7) + "")));
    FormIsRead("-" + Hex(n, 7), "", "-", "", Hex(n, 7), "");
  }

  /** A length digit over 8 overruns the buffer, once the message is long enough for it. */
  lemma TooManyBytes(id: u32, n: nat, rest: string, blank: Frame)
    requires id < 0x8000_0000 && 8 < n < 16
    ensures ParseMsg("T" + Hex(id, 8) + Hex(n, 1) + rest, blank) == if |rest| < 2 * n then TooShort else Fault
  {
    hide Stoi, Hex, ParseBytes;
    var s := "T" + Hex(id, 8) + Hex(n, 1) + rest;
    assert s[1..9] == Hex(id, 8) && s[9..10] == Hex(n, 1);
    HexOf32Bits(id);
    OneDigit(n);
  }

  // ---- the receiving driver as a machine over single characters ----

  datatype Driver = Driver(buf: string, queue: seq<Frame>, pending: nat, acks: seq<bool>, aborted: bool)

  predicate IsEnd(c: char) { c == CR || c == BEL }

  /** One complete message, ending in CR or BELL. A bare CR or BELL acknowledges the oldest
      outstanding send, and is ignored when none is outstanding. A frame that is too short is
      reported, which throws when there is no CR to be quoted. */
  function Handle(d: Driver, m: string, name: string, blank: Frame): Driver
    requires m != ""
  {
    if d.aborted then d
    else if IsEnd(m[0]) then
      if d.pending > 0 then d.(pending := d.pending - 1, acks := d.acks + [m[0] == CR]) else d
    else if m[0] == 'T' then
      match ParseMsg(m, blank)
      case Parsed(f) => d.(queue := d.queue + [f.(origin := name)])
      case TooShort => d.(aborted := CR !in m)
      case Fault => d.(aborted := true)
    else d
  }

  function Feed(d: Driver, c: char, name: string, blank: Frame): Driver {
    if d.aborted then d
    else if IsEnd(c) then Handle(d, d.buf + [c], name, blank).(buf := "")
    else d.(buf := d.buf + [c])
  }

  function FeedAll(d: Driver, s: string, name: string, blank: Frame): Driver
    decreases |s|
  {
    if s == "" then d else FeedAll(Feed(d, s[0], name, blank), s[1..], name, blank)
  }

  function Concat(chunks: seq<string>): string {
    if chunks == [] then "" else chunks[0] + Concat(chunks[1..])
  }

  lemma {:induction false} FeedInTwo(d: Driver, a: string, b: string, name: string, blank: Frame)
    ensures FeedAll(d, a + b, name, blank) == FeedAll(FeedAll(d, a, name, blank), b, name, blank)
    decreases |a|
  {
    if a == "" {
      assert a + b == b;
    } else {
      FeedInTwo(Feed(d, a[0], name, blank), a[1..], b, name, blank);
      assert (a + b)[1..] == a[1..] + b;
    }
  }

  // ---- the same stream split once at CR/BELL ----

  /** Complete messages of acc + s, where acc holds no terminator, and the unfinished rest. */
  function Split(acc: string, s: string): (seq<string>, string)
    decreases |s|
  {
    if s == "" then ([], acc)
    else if IsEnd(s[0]) then
      var (ms, rest) := Split("", s[1..]);
      ([acc + [s[0]]] + ms, rest)
    else Split(acc + [s[0]], s[1..])
  }

  ghost predicate NoEnd(s: string) { forall i :: 0 <= i < |s| ==> !IsEnd(s[i]) }

  ghost predicate OneMessage(m: string) { m != "" && NoEnd(m[..|m| - 1]) && IsEnd(m[|m| - 1]) }

  /** Split cuts the text after each terminator and nowhere else, and loses nothing. */
  lemma {:induction false} SplitIsTheSplit(acc: string, s: string)
    requires NoEnd(acc)
    ensures var (ms, rest) := Split(acc, s);
            && Concat(ms) + rest == acc + s && NoEnd(rest)
            && forall i :: 0 <= i < |ms| ==> OneMessage(ms[i])
    decreases |s|
  {
    if s == "" {
      assert acc + s == acc;
    } else if IsEnd(s[0]) {
      SplitIsTheSplit("", s[1..]);
      var (ms, rest) := Split("", s[1..]);
      var m := acc + [s[0]];
      assert m[..|m| - 1] == acc;
      assert ([m] + ms)[1..] == ms;
      assert m + (Concat(ms) + rest) == acc + s;
    } else {
      SplitIsTheSplit(acc + [s[0]], s[1..]);
      assert acc + [s[0]] + s[1..] == acc + s;
    }
  }

  function HandleAll(d: Driver, ms: seq<string>, name: string, blank: Frame): Driver
    requires forall i :: 0 <= i < |ms| ==> ms[i] != ""
    decreases |ms|
  {
    if ms == [] then d else HandleAll(Handle(d, ms[0], name, blank), ms[1..], name, blank)
  }

  lemma {:induction false} AbortedStays(d: Driver, s: string, ms: seq<string>, name: string, blank: Frame)
    requires d.aborted && forall i :: 0 <= i < |ms| ==> ms[i] != ""
    ensures FeedAll(d, s, name, blank) == d && HandleAll(d, ms, name, blank) == d
    decreases |s| + |ms|
  {
    if s != "" { AbortedStays(d, s[1..], [], name, blank); }
    if ms != [] { AbortedStays(d, "", ms[1..], name, blank); }
  }

  /** Feeding a stream character by character has the effect of splitting it once and
      handling the messages in order. */
  lemma {:induction false} StreamIsSplitOnce(d: Driver, s: string, name: string, blank: Frame)
    requires NoEnd(d.buf) && !d.aborted
    ensures var (ms, rest) := Split(d.buf, s);
            && (forall i :: 0 <= i < |ms| ==> OneMessage(ms[i]))
            && (var e := HandleAll(d, ms, name, blank);
                FeedAll(d, s, name, blank) == e.(buf := if e.aborted then "" else rest))
    decreases |s|
  {
    SplitIsTheSplit(d.buf, s);
    if s == "" {
    } else if IsEnd(s[0]) {
      var (ms, rest) := Split("", s[1..]);
      var m := d.buf + [s[0]];
      SplitIsTheSplit("", s[1..]);
      assert ([m] + ms)[1..] == ms;
      var h := Handle(d, m, name, blank);
      if h.aborted {
        AbortedStays(h, "", ms, name, blank);
        AbortedStays(h.(buf := ""), s[1..], [], name, blank);
      } else {
        StreamIsSplitOnce(h.(buf := ""), s[1..], name, blank);
        BufIsIrrelevant(h, h.(buf := ""), ms, name, blank);
      }
    } else {
      var d' := d.(buf := d.buf + [s[0]]);
      StreamIsSplitOnce(d', s[1..], name, blank);
      var (ms, rest) := Split(d'.buf, s[1..]);
      BufIsIrrelevant(d, d', ms, name, blank);
    }
  }

  lemma {:induction false} BufIsIrrelevant(d: Driver, e: Driver, ms: seq<string>, name: string, blank: Frame)
    requires d.(buf := e.buf) == e && forall i :: 0 <= i < |ms| ==> ms[i] != ""
    ensures HandleAll(d, ms, name, blank).(buf := e.buf) == HandleAll(e, ms, name, blank)
    decreases |ms|
  {
    if ms != [] {
      BufIsIrrelevant(Handle(d, ms[0], name, blank), Handle(e, ms[0], name, blank), ms[1..], name, blank);
    }
  }

  /** Whatever the reads were, the driver ends as if the joined text had been split once. */
  lemma ChunkingIsIrrelevant(d: Driver, chunks: seq<string>, others: seq<string>, name: string, blank: Frame)
    requires Concat(chunks) == Concat(others)
    ensures FeedChunks(d, chunks, name, blank) == FeedChunks(d, others, name, blank)
  {
    FeedChunksIsFeedAll(d, chunks, name, blank);
    FeedChunksIsFeedAll(d, others, name, blank);
  }

  function FeedChunks(d: Driver, chunks: seq<string>, name: string, blank: Frame): Driver
    decreases |chunks|
  {
    if chunks == [] then d else FeedChunks(FeedAll(d, chunks[0], name, blank), chunks[1..], name, blank)
  }

  lemma {:induction false} FeedChunksIsFeedAll(d: Driver, chunks: seq<string>, name: string, blank: Frame)
    ensures FeedChunks(d, chunks, name, blank) == FeedAll(d, Concat(chunks), name, blank)
    decreases |chunks|
  {
    if chunks != [] {
      FeedChunksIsFeedAll(FeedAll(d, chunks[0], name, blank), chunks[1..], name, blank);
      FeedInTwo(d, chunks[0], Concat(chunks[1..]), name, blank);
    }
  }

  // ---- frames put on the wire by one driver come out of another ----

  function BuildAll(fs: seq<Frame>): string
    requires forall i :: 0 <= i < |fs| ==> fs[i].dlc <= 8
  {
    if fs == [] then "" else BuildMsg(fs[0]) + BuildAll(fs[1..])
  }

  lemma {:induction false} HexHasNoEnd(n: nat, width: nat)
    ensures NoEnd(Hex(n, width))
  {
    if width > 0 { HexHasNoEnd(n / 16, width - 1); }
  }

  lemma {:induction false} HexBytesHaveNoEnd(d: seq<byte>)
    ensures NoEnd(HexBytes(d))
  {
    if d != [] {
      HexBytesHaveNoEnd(d[..|d| - 1]);
      HexHasNoEnd(d[|d| - 1], 2);
    }
  }

  lemma BuiltIsOneMessage(f: Frame)
    requires f.dlc <= 8
    ensures OneMessage(BuildMsg(f)) && BuildMsg(f)[0] == 'T' && BuildMsg(f)[|BuildMsg(f)| - 1] == CR
  {
    HexHasNoEnd(CanId(f), 8);
    HexHasNoEnd(f.dlc, 1);
    HexBytesHaveNoEnd(f.data[..f.dlc]);
    var m := BuildMsg(f);
    var body := "T" + Hex(CanId(f), 8) + Hex(f.dlc, 1) + HexBytes(f.data[..f.dlc]);
    assert m[..|m| - 1] == body;
  }

  lemma {:induction false} FeedWithoutEnd(d: Driver, s: string, name: string, blank: Frame)
    requires !d.aborted && NoEnd(s)
    ensures FeedAll(d, s, name, blank) == d.(buf := d.buf + s)
    decreases |s|
  {
    if s == "" {
      assert d.buf + s == d.buf;
    } else {
      FeedWithoutEnd(Feed(d, s[0], name, blank), s[1..], name, blank);
      assert d.buf + [s[0]] + s[1..] == d.buf + s;
    }
  }

  lemma FeedOneMessage(d: Driver, m: string, name: string, blank: Frame)
    requires !d.aborted && d.buf == "" && OneMessage(m)
    ensures FeedAll(d, m, name, blank) == Handle(d, m, name, blank).(buf := "")
  {
    hide ParseMsg;
    var body, end := m[..|m| - 1], m[|m| - 1];
    assert m == body + [end] && d.buf + body == body;
    FeedInTwo(d, body, [end], name, blank);
    FeedWithoutEnd(d, body, name, blank);
    var d' := d.(buf := body);
    assert FeedAll(d', [end], name, blank) == Feed(d', end, name, blank);
    BufDoesNotSteer(d, "", body, m, name, blank);
  }

  lemma BufDoesNotSteer(d: Driver, b: string, c: string, m: string, name: string, blank: Frame)
    requires m != ""
    ensures Handle(d.(buf := c), m, name, blank).(buf := b) == Handle(d, m, name, blank).(buf := b)
  {
  }

  /** The frame a receiver gets when f is written. */
  function Echo(f: Frame, name: string, blank: Frame): (r: Frame)
    requires WellFormed(f) && f.dlc <= 8
    ensures SameMessage(r, f) && r.origin == name
  {
    TextRoundTrip(f, blank);
    ParseMsg(BuildMsg(f), blank).frame.(origin := name)
  }

  function Received(fs: seq<Frame>, name: string, blank: Frame): (r: seq<Frame>)
    requires forall i :: 0 <= i < |fs| ==> WellFormed(fs[i]) && fs[i].dlc <= 8
    ensures |r| == |fs| && forall i :: 0 <= i < |fs| ==> SameMessage(r[i], fs[i]) && r[i].origin == name
  {
    if fs == [] then [] else [Echo(fs[0], name, blank)] + Received(fs[1..], name, blank)
  }

  /** End to end over the serial line: every list of well-formed frames, written as text and
      cut into reads at arbitrary places, is received as the same list. */
  lemma WireEndToEnd(d: Driver, fs: seq<Frame>, chunks: seq<string>, name: string, blank: Frame)
    requires !d.aborted && d.buf == ""
    requires forall i :: 0 <= i < |fs| ==> WellFormed(fs[i]) && fs[i].dlc <= 8
    requires Concat(chunks) == BuildAll(fs)
    ensures FeedChunks(d, chunks, name, blank) == d.(queue := d.queue + Received(fs, name, blank))
  {
    FeedChunksIsFeedAll(d, chunks, name, blank);
    WireEndToEndJoined(d, fs, name, blank);
  }

  lemma FeedBuilt(d: Driver, f: Frame, name: string, blank: Frame)
    requires !d.aborted && d.buf == "" && WellFormed(f) && f.dlc <= 8
    ensures FeedAll(d, BuildMsg(f), name, blank) == d.(queue := d.queue + [Echo(f, name, blank)])
  {
    hide FeedAll, BuildMsg, ParseMsg;
    BuiltIsOneMessage(f);
    TextRoundTrip(f, blank);
    FeedOneMessage(d, BuildMsg(f), name, blank);
  }

  lemma {:induction false} WireEndToEndJoined(d: Driver, fs: seq<Frame>, name: string, blank: Frame)
    requires !d.aborted && d.buf == ""
    requires forall i :: 0 <= i < |fs| ==> WellFormed(fs[i]) && fs[i].dlc <= 8
    ensures FeedAll(d, BuildAll(fs), name, blank) == d.(queue := d.queue + Received(fs, name, blank))
    decreases |fs|
  {
    hide Feed, BuildMsg, Echo;
    if fs == [] {
      assert d.queue + [] == d.queue;
    } else {
      var e := Echo(fs[0], name, blank);
      FeedInTwo(d, BuildMsg(fs[0]), BuildAll(fs[1..]), name, blank);
      FeedBuilt(d, fs[0], name, blank);
      WireEndToEndJoined(d.(queue := d.queue + [e]), fs[1..], name, blank);
      Regroup(d.queue, [e], Received(fs[1..], name, blank));
    }
  }

  lemma Regroup(a: seq<Frame>, b: seq<Frame>, c: seq<Frame>)
    ensures a + b + c == a + (b + c)
  {
  }

  // ---- malformed messages ----

  /** A message too short for its length is dropped when CR ends it; ended by BELL, it stops the
      process, and so does one whose numbers cannot be read, or whose length is over 8, however it
      ends. */
  lemma MalformedFed(d: Driver, body: string, end: char, name: string, blank: Frame)
    requires !d.aborted && d.buf == "" && NoEnd(body) && body != "" && body[0] == 'T'
    requires end in {'\r', '\U{0007}'} && !ParseMsg(body + [end], blank).Parsed?
    ensures FeedAll(d, body + [end], name, blank)
         == d.(aborted := ParseMsg(body + [end], blank).Fault? || end == '\U{0007}')
  {
    hide ParseMsg, FeedAll;
    var m := body + [end];
    assert m[..|body|] == body && m[0] == body[0] && m[|m| - 1] == end;
    FeedOneMessage(d, m, name, blank);
    OnlyAtTheEnd(body, end);
  }

  lemma OnlyAtTheEnd(body: string, end: char)
    requires NoEnd(body)
    ensures CR in body + [end] <==> end == CR
  {
    var m := body + [end];
    if CR in m {
      var i :| 0 <= i < |m| && m[i] == CR;
      if i < |body| { assert IsEnd(body[i]); }
    }
    if end == CR { assert m[|body|] == CR; }
  }

  // ---- frames, acknowledgements and other answers mixed ----

  /** What an adapter writes: a frame received from the bus, its verdict on a frame sent, or an
      answer of another kind. */
  datatype Item = Arrived(f: Frame) | Verdict(good: bool) | Answer(text: string, end: char)

  ghost predicate Proper(i: Item) {
    match i
    case Arrived(f) => WellFormed(f) && f.dlc <= 8
    case Verdict(_) => true
    case Answer(text, end) => text != "" && text[0] != 'T' && NoEnd(text) && end in {'\r', '\U{0007}'}
  }

  ghost predicate AllProper(items: seq<Item>) { forall i :: 0 <= i < |items| ==> Proper(items[i]) }

  function Text(i: Item): string
    requires i.Arrived? ==> i.f.dlc <= 8
  {
    match i
    case Arrived(f) => BuildMsg(f)
    case Verdict(good) => if good then "\r" else "\U{0007}"
    case Answer(text, end) => text + [end]
  }

  ghost function TextAll(items: seq<Item>): string
    requires AllProper(items)
  {
    if items == [] then "" else
      assert Proper(items[0]);
      Text(items[0]) + TextAll(items[1..])
  }

  function Arrivals(items: seq<Item>): seq<Frame> {
    if items == [] then [] else (if items[0].Arrived? then [items[0].f] else []) + Arrivals(items[1..])
  }

  function Verdicts(items: seq<Item>): seq<bool> {
    if items == [] then [] else (if items[0].Verdict? then [items[0].good] else []) + Verdicts(items[1..])
  }

  ghost predicate Sendable(fs: seq<Frame>) { forall i :: 0 <= i < |fs| ==> WellFormed(fs[i]) && fs[i].dlc <= 8 }

  lemma {:induction false} ArrivalsProper(items: seq<Item>)
    requires AllProper(items)
    ensures Sendable(Arrivals(items))
  {
    if items != [] {
      assert Proper(items[0]);
      ArrivalsProper(items[1..]);
    }
  }

  /** The driver after a stream of frames fs and verdicts vs. */
  ghost function After(d: Driver, fs: seq<Frame>, vs: seq<bool>, name: string, blank: Frame): Driver
    requires Sendable(fs)
  {
    var n := Min(d.pending, |vs|);
    d.(queue := d.queue + Received(fs, name, blank), acks := d.acks + vs[..n], pending := d.pending - n)
  }

  ghost function AfterItem(d: Driver, i: Item, name: string, blank: Frame): Driver
    requires Proper(i)
  {
    if i.Arrived? then d.(queue := d.queue + [Echo(i.f, name, blank)])
    else if i.Verdict? && d.pending > 0 then d.(pending := d.pending - 1, acks := d.acks + [i.good])
    else d
  }

  lemma FeedVerdict(d: Driver, good: bool, name: string, blank: Frame)
    requires !d.aborted && d.buf == ""
    ensures FeedAll(d, if good then "\r" else "\U{0007}", name, blank) ==
            if d.pending > 0 then d.(pending := d.pending - 1, acks := d.acks + [good]) else d
  {
    hide FeedAll, ParseMsg;
    FeedOneMessage(d, if good then "\r" else "\U{0007}", name, blank);
  }

  lemma FeedAnswer(d: Driver, text: string, end: char, name: string, blank: Frame)
    requires !d.aborted && d.buf == "" && Proper(Answer(text, end))
    ensures FeedAll(d, text + [end], name, blank) == d
  {
    hide FeedAll, ParseMsg;
    var m := text + [end];
    assert m[..|text|] == text && m[0] == text[0] && m[|m| - 1] == end;
    FeedOneMessage(d, m, name, blank);
  }

  lemma FeedItem(d: Driver, i: Item, name: string, blank: Frame)
    requires !d.aborted && d.buf == "" && Proper(i)
    ensures FeedAll(d, Text(i), name, blank) == AfterItem(d, i, name, blank)
  {
    hide FeedAll, BuildMsg, Echo, WellFormed, NoEnd;
    match i
    case Arrived(f) => FeedBuilt(d, f, name, blank);
    case Verdict(good) => FeedVerdict(d, good, name, blank);
    case Answer(text, end) => FeedAnswer(d, text, end, name, blank);
  }

  /** Frames, verdicts and other answers in any order, read in any chunks: the frames arrive
      complete and in order, the first verdicts go to the sends outstanding, good for CR and bad
      for BELL, and nothing else has any effect. */
  lemma MixedStream(d: Driver, items: seq<Item>, chunks: seq<string>, name: string, blank: Frame)
    requires !d.aborted && d.buf == "" && AllProper(items) && Concat(chunks) == TextAll(items)
    ensures Sendable(Arrivals(items))
    ensures FeedChunks(d, chunks, name, blank) == After(d, Arrivals(items), Verdicts(items), name, blank)
  {
    hide AllProper, After, Arrivals, Verdicts, TextAll;
    ArrivalsProper(items);
    FeedChunksIsFeedAll(d, chunks, name, blank);
    MixedJoined(d, items, name, blank);
  }

  lemma {:induction false} MixedJoined(d: Driver, items: seq<Item>, name: string, blank: Frame)
    requires !d.aborted && d.buf == "" && AllProper(items)
    ensures Sendable(Arrivals(items))
    ensures FeedAll(d, TextAll(items), name, blank) == After(d, Arrivals(items), Verdicts(items), name, blank)
    decreases |items|
  {
    ArrivalsProper(items);
    hide FeedAll, Proper, WellFormed, Echo, Text;
    if items == [] {
      NothingFed(d, name, blank);
    } else {
      assert Proper(items[0]);
      FeedInTwo(d, Text(items[0]), TextAll(items[1..]), name, blank);
      FeedItem(d, items[0], name, blank);
      var e := FeedAll(d, Text(items[0]), name, blank);
      MixedJoined(e, items[1..], name, blank);
      AfterOne(d, e, items, name, blank);
    }
  }

  lemma NothingFed(d: Driver, name: string, blank: Frame)
    ensures FeedAll(d, "", name, blank) == d && After(d, [], [], name, blank) == d
  {
  }

  lemma AfterArrival(d: Driver, f: Frame, fs: seq<Frame>, vs: seq<bool>, name: string, blank: Frame)
    requires Sendable([f]) && Sendable(fs) && Sendable([f] + fs)
    ensures WellFormed(f) && f.dlc <= 8
    ensures After(d.(queue := d.queue + [Echo(f, name, blank)]), fs, vs, name, blank) == After(d, [f] + fs, vs, name, blank)
  {
    assert f == [f][0];
    hide Echo, WellFormed;
    assert ([f] + fs)[1..] == fs;
    var e := [Echo(f, name, blank)];
    assert d.queue + e + Received(fs, name, blank) == d.queue + (e + Received(fs, name, blank));
  }

  lemma AfterVerdict(d: Driver, good: bool, fs: seq<Frame>, vs: seq<bool>, name: string, blank: Frame)
    requires Sendable(fs)
    ensures var e := if d.pending > 0 then d.(pending := d.pending - 1, acks := d.acks + [good]) else d;
            After(e, fs, vs, name, blank) == After(d, fs, [good] + vs, name, blank)
  {
    hide WellFormed, Received;
    if d.pending > 0 {
      var n := Min(d.pending - 1, |vs|);
      assert ([good] + vs)[..n + 1] == [good] + vs[..n];
      assert d.acks + [good] + vs[..n] == d.acks + ([good] + vs[..n]);
    }
  }

  lemma AfterOne(d: Driver, e: Driver, items: seq<Item>, name: string, blank: Frame)
    requires items != [] && Sendable(Arrivals(items)) && Sendable(Arrivals(items[1..]))
    requires Proper(items[0]) && e == AfterItem(d, items[0], name, blank)
    ensures After(e, Arrivals(items[1..]), Verdicts(items[1..]), name, blank)
         == After(d, Arrivals(items), Verdicts(items), name, blank)
  {
    hide Echo, WellFormed, After;
    var fs, vs := Arrivals(items[1..]), Verdicts(items[1..]);
    assert [] + fs == fs && [] + vs == vs;
    match items[0]
    case Arrived(f) => AfterArrival(d, f, fs, vs, name, blank);
    case Verdict(good) => AfterVerdict(d, good, fs, vs, name, blank);
    case Answer(_, _) =>
  }

  /** Letters may be of either case throughout a stream. */
  lemma {:induction false} CaseIsIrrelevant(d: Driver, e: Driver, s: string, name: string, blank: Frame)
    requires e == d.(buf := Capitals(d.buf))
    ensures var t := FeedAll(d, s, name, blank);
            FeedAll(e, Capitals(s), name, blank) == t.(buf := Capitals(t.buf))
    decreases |s|
  {
    hide Feed, Capitals;
    CapitalParts(s, 0);
    if s != "" {
      CapitalParts(s, 1);
      FeedCapital(d, e, s[0], name, blank);
      CaseIsIrrelevant(Feed(d, s[0], name, blank), Feed(e, Capital(s[0]), name, blank), s[1..], name, blank);
    }
  }

  lemma FeedCapital(d: Driver, e: Driver, c: char, name: string, blank: Frame)
    requires e == d.(buf := Capitals(d.buf))
    ensures var t := Feed(d, c, name, blank); Feed(e, Capital(c), name, blank) == t.(buf := Capitals(t.buf))
  {
    hide ParseMsg;
    var m := d.buf + [c];
    assert Capitals(m) == e.buf + [Capital(c)];
    CapitalParts("", 0);
    CapitalsParsed(m, blank);
    assert CR in Capitals(m) <==> CR in m by {
      if CR in m { var i :| 0 <= i < |m| && m[i] == CR; assert Capitals(m)[i] == CR; }
      if CR in Capitals(m) { var i :| 0 <= i < |m| && Capitals(m)[i] == CR; assert m[i] == CR; }
    }
  }

  // ---- the object ----

  const EMPTY_BUF := -1
  const RECV_FRAME := 1
  const RECV_FRAME_DATA_IN_BUF := 2

  class SlcanDriver {
    const name: string
    const blank: Frame
    var tty: seq<string>        // what the next reads of the serial port will return
    var written: string         // everything written to the serial port
    var recvBuf: string
    var recvQueue: seq<Frame>
    var pendingSendCount: nat
    var acks: seq<bool>         // calls of the acknowledgement callback, in order
    var aborted: bool           // an exception left the receive loop, the process is gone

    function State(): Driver reads this {
      Driver(recvBuf, recvQueue, pendingSendCount, acks, aborted)
    }

    constructor (name: string, blank: Frame, tty: seq<string>)
      ensures this.name == name && this.blank == blank && this.tty == tty && written == ""
      ensures State() == Driver("", [], 0, [], false)
    {
      this.name, this.blank, this.tty, written := name, blank, tty, "";
      recvBuf, recvQueue, pendingSendCount, acks, aborted := "", [], 0, [], false;
    }

    /** The port takes `accepted` bytes of the message; the rest of it is not written again. With
        none taken the program throws. */
    method SendData(f: Frame, accepted: int) returns (nbyte: int)
      requires f.dlc <= 8 && accepted <= |BuildMsg(f)|
      modifies this`written, this`pendingSendCount
      ensures nbyte == accepted
      ensures written == old(written) + BuildMsg(f)[..Max(accepted, 0)]
      ensures State() == old(State()).(pending := old(pendingSendCount) + if accepted > 0 then 1 else 0)
    {
      var buf := BuildSlcanMsg(f);
      nbyte := accepted;
      if nbyte <= 0 { return; }
      written := written + buf[..nbyte];
      pendingSendCount := pendingSendCount + 1;
    }

    method ParseBuf()
      requires recvBuf != "" && !aborted
      modifies this
      ensures State() == Handle(old(State()), old(recvBuf), name, blank)
      ensures tty == old(tty) && written == old(written)
    {
      if recvBuf[0] == CR {
        if pendingSendCount > 0 {
          pendingSendCount := pendingSendCount - 1;
          acks := acks + [true];
        }
      } else if recvBuf[0] == BEL {
        if pendingSendCount > 0 {
          pendingSendCount := pendingSendCount - 1;
          acks := acks + [false];
        }
      } else if recvBuf[0] == 'T' {
        var r := ParseSlcanMsg(recvBuf, blank);
        if r.Parsed? {
          recvQueue := recvQueue + [r.frame.(origin := name)];
        } else if r.Fault? || CR !in recvBuf {
          aborted := true;
        }
      }
    }

    /** Reads the port only when no decoded frame is waiting. */
    method RecvData() returns (ret: int, frame: Option<Frame>)
      requires !aborted && (recvQueue == [] ==> tty != [])
      modifies this
      ensures tty == if old(recvQueue) == [] then old(tty)[1..] else old(tty)
      ensures written == old(written)
      ensures var d := if old(recvQueue) == [] then FeedAll(old(State()), old(tty)[0], name, blank)
                       else old(State());
              if d.aborted || d.queue == [] then State() == d && ret == EMPTY_BUF && frame == None
              else && State() == d.(queue := d.queue[1..]) && frame == Some(d.queue[0])
                   && ret == if |d.queue| == 1 then RECV_FRAME else RECV_FRAME_DATA_IN_BUF
    {
      ret, frame := EMPTY_BUF, None;
      if recvQueue == [] {
        var buf := tty[0];
        tty := tty[1..];
        ghost var d0 := State();
        assert buf[..0] == "";
        for i := 0 to |buf|
          invariant !aborted && written == old(written) && tty == old(tty)[1..]
          invariant State() == FeedAll(d0, buf[..i], name, blank)
        {
          FeedInTwo(d0, buf[..i], [buf[i]], name, blank);
          assert buf[..i + 1] == buf[..i] + [buf[i]];
          ghost var before := State();
          recvBuf := recvBuf + [buf[i]];
          if buf[i] == CR || buf[i] == BEL {
            ParseBuf();
            recvBuf := "";
            BufDoesNotSteer(before, "", before.buf + [buf[i]], before.buf + [buf[i]], name, blank);
            if aborted {
              AbortedStays(State(), buf[i + 1..], [], name, blank);
              FeedInTwo(d0, buf[..i + 1], buf[i + 1..], name, blank);
              assert buf == buf[..i + 1] + buf[i + 1..];
              return;
            }
          }
          assert FeedAll(before, [buf[i]], name, blank) == Feed(before, buf[i], name, blank);
        }
        assert buf[..|buf|] == buf;
      }
      if recvQueue != [] {
        frame := Some(recvQueue[0]);
        recvQueue := recvQueue[1..];
        ret := if recvQueue == [] then RECV_FRAME else RECV_FRAME_DATA_IN_BUF;
      }
    }

    /** The receive loop the bus runs when the port becomes readable. One read is consumed,
        every frame decoded from it is delivered, and none is left behind in the driver. */
    method ReceiveLoop() returns (out: seq<Frame>)
      requires !aborted && recvQueue == [] && tty != []
      modifies this
      ensures tty == old(tty)[1..] && written == old(written)
      ensures var d := FeedAll(old(State()), old(tty)[0], name, blank);
              if d.aborted then State() == d && out == []
              else State() == d.(queue := []) && out == d.queue
    {
      ghost var d := FeedAll(State(), tty[0], name, blank);
      var ret, frame := RecvData();
      out := if ret >= RECV_FRAME then [frame.value] else [];
      while ret - 1 >= RECV_FRAME
        invariant tty == old(tty)[1..] && written == old(written)
        invariant d.aborted ==> State() == d && out == [] && ret == EMPTY_BUF
        invariant !d.aborted ==> State() == d.(queue := recvQueue) && out + recvQueue == d.queue
        invariant !d.aborted ==> (ret - 1 >= RECV_FRAME <==> recvQueue != [])
        decreases |recvQueue|, ret
      {
        ret, frame := RecvData();
        if ret >= RECV_FRAME { out := out + [frame.value]; }
      }
    }

    /** One socket event per pending read until none is left. */
    method ReceiveAll() returns (out: seq<Frame>)
      requires !aborted && recvQueue == []
      modifies this
      ensures var d := FeedChunks(old(State()), old(tty), name, blank);
              if d.aborted then aborted
              else State() == d.(queue := []) && out == d.queue && tty == []
    {
      out := [];
      ghost var d0, chunks := State(), tty;
      assert chunks[..0] == [];
      var n := 0;
      while tty != []
        invariant 0 <= n <= |chunks| && tty == chunks[n..]
        invariant !aborted && recvQueue == []
        invariant FeedChunks(d0, chunks, name, blank)
               == FeedChunks(State().(queue := out), tty, name, blank)
        decreases |tty|
      {
        ghost var s := State();
        QueueOnlyGrows(s, out, tty[0], name, blank);
        assert out + [] == out;
        ghost var first, rest := tty[0], tty[1..];
        var more := ReceiveLoop();
        n := n + 1;
        if aborted {
          FeedChunksIsFeedAll(FeedAll(s.(queue := out), first, name, blank), rest, name, blank);
          AbortedStays(FeedAll(s.(queue := out), first, name, blank), Concat(rest), [], name, blank);
          return;
        }
        out := out + more;
      }
    }
  }

  /** The queue of decoded frames never influences decoding; it is only appended to. */
  lemma {:induction false} QueueOnlyGrows(d: Driver, q: seq<Frame>, s: string, name: string, blank: Frame)
    ensures var e := FeedAll(d, s, name, blank);
            FeedAll(d.(queue := q + d.queue), s, name, blank) == e.(queue := q + e.queue)
    decreases |s|
  {
    if s != "" {
      var e := Feed(d, s[0], name, blank);
      assert forall f: Frame :: q + (d.queue + [f]) == q + d.queue + [f];
      assert Feed(d.(queue := q + d.queue), s[0], name, blank) == e.(queue := q + e.queue);
      QueueOnlyGrows(e, q, s[1..], name, blank);
    }
  }
}
