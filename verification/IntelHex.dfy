/** Loading a firmware image from an Intel HEX file (src/h9fwupload/h9fwupload.cc:132-235).
    Record layout and checksum as in the Intel Hexadecimal Object File Format Specification,
    Revision A. */
module IntelHex {
  import opened Common
  import HexText

  const CAPACITY: nat := 0x2_0000

  const DATA: byte := 0
  const END_OF_FILE: byte := 1
  const EXTENDED_LINEAR_ADDRESS: byte := 4

  // ---- the text of a record ----

  /** Characters that are no hex digits contribute their low four bits. */
  function Nibble(c: char): (r: nat)
    ensures r < 16
  {
    match HexText.DigitValue(c)
    case Some(d) => d
    case None => c as int % 16
  }

  const NUL := '\0'

  function Hex2Bin(s: string, at: nat): byte
    requires at + 2 <= |s|
  {
    if s[at] == NUL then 0
    else if s[at + 1] == NUL then Nibble(s[at])
    else Nibble(s[at]) * 16 + Nibble(s[at + 1])
  }

  /** Two digits in either case are read as their value, a digit before NUL as its own; of any other
      character the low four bits count. */
  lemma ReadsDigits(a: nat, b: nat, high: char, low: char, other: char)
    requires a < 16 && high in {"0123456789abcdef"[a], "0123456789ABCDEF"[a]}
    requires b < 16 && low in {"0123456789abcdef"[b], "0123456789ABCDEF"[b]}
    requires other != '\0' && forall v :: 0 <= v < 16 ==> other != "0123456789abcdef"[v] && other != "0123456789ABCDEF"[v]
    ensures Hex2Bin([high, low], 0) == 16 * a + b
    ensures Hex2Bin([high, '\0'], 0) == a && Hex2Bin(['\0', low], 0) == 0
    ensures Hex2Bin([other, low], 0) == 16 * (other as int % 16) + b
  {
    hide HexText.DigitValue;
    HexText.DigitsAre(high, a);
    HexText.DigitsAre(low, b);
    if HexText.DigitValue(other).Some? { HexText.DigitsAre(other, HexText.DigitValue(other).value); }
    assert high != NUL && low != NUL;
  }

  method Hex2BinLoop(s: string, at: nat) returns (val: byte)
    requires at + 2 <= |s|
    ensures val == Hex2Bin(s, at)
  {
    val := 0;
    for n := 0 to 2
      invariant n == 0 ==> val == 0
      invariant n == 1 ==> s[at] != NUL && val == Nibble(s[at])
      invariant n == 2 ==> val == Hex2Bin(s, at)
    {
      var c := s[at + n];
      if c == NUL { break; }
      val := (val as int * 16 + Nibble(c)) % 256;
    }
  }

  /** The k-th byte written on a line, after the colon. */
  function ByteAt(line: string, k: nat): byte
    requires 2 * k + 3 <= |line|
  {
    Hex2Bin(line, 2 * k + 1)
  }

  function BytesAt(line: string, k: nat, n: nat): (r: seq<byte>)
    requires 2 * (k + n) + 1 <= |line|
    ensures |r| == n
  {
    if n == 0 then [] else BytesAt(line, k, n - 1) + [ByteAt(line, k + n - 1)]
  }

  /** Only the types that are read have a payload and a checksum here; the size field of a
      type 04 record is not consulted. */
  datatype Record = Record(size: byte, address: u16, kind: byte, payload: seq<byte>, crc: byte)

  function PayloadSize(kind: byte, size: byte): nat {
    if kind == DATA then size else if kind == EXTENDED_LINEAR_ADDRESS then 2 else 0
  }

  predicate Checked(kind: byte) { kind == DATA || kind == EXTENDED_LINEAR_ADDRESS }

  /** The line has every character the reader looks at. */
  predicate Readable(line: string) {
    && |line| > 0
    && (line[0] == ':' ==>
          && |line| >= 9
          && (Checked(ByteAt(line, 3)) ==> |line| >= 2 * PayloadSize(ByteAt(line, 3), ByteAt(line, 0)) + 11))
  }

  function RecordOf(line: string): Option<Record>
    requires Readable(line)
  {
    if line[0] != ':' then None
    else
      var size, kind := ByteAt(line, 0), ByteAt(line, 3);
      var n := PayloadSize(kind, size);
      Some(Record(size, ByteAt(line, 1) as int * 256 + ByteAt(line, 2), kind, BytesAt(line, 4, n),
                  if Checked(kind) then ByteAt(line, 4 + n) else 0))
  }

  function SumOf(s: seq<byte>): nat { if s == [] then 0 else SumOf(s[..|s| - 1]) + s[|s| - 1] }

  function HeaderSum(r: Record): nat { r.size as int + r.address / 256 + r.address % 256 + r.kind }

  /** The comparison made by the program. */
  predicate Good(r: Record) { (0x100 - (HeaderSum(r) + SumOf(r.payload)) % 256) % 256 == r.crc }

  /** The specification's rule: all bytes of a record, the checksum included, sum to 0. */
  lemma GoodIsZeroSum(r: Record)
    ensures Good(r) <==> (HeaderSum(r) + SumOf(r.payload) + r.crc) % 256 == 0
  {
    var q, x := Divide(HeaderSum(r) + SumOf(r.payload), 256);
    if x + r.crc == 256 {
      DivModUnique(HeaderSum(r) + SumOf(r.payload) + r.crc, 256, q + 1, 0);
    } else if x + r.crc > 256 {
      DivModUnique(HeaderSum(r) + SumOf(r.payload) + r.crc, 256, q + 1, x + r.crc - 256);
    } else {
      DivModUnique(HeaderSum(r) + SumOf(r.payload) + r.crc, 256, q, x + r.crc);
    }
  }

  // ---- the loader ----

  /** `running` is false once the loop has been left; `overrun` stands for a write past the
      buffer. */
  datatype Load = Load(buffer: seq<byte>, base: nat, length: nat, running: bool, overrun: bool)

  function Blank(): Load { Load(seq(CAPACITY, _ => 0xff), 0, 0, true, false) }

  function Overlay(buffer: seq<byte>, at: nat, bytes: seq<byte>): (r: seq<byte>)
    requires at + |bytes| <= |buffer|
    ensures |r| == |buffer|
    ensures forall k :: 0 <= k < |r| ==> r[k] == if at <= k < at + |bytes| then bytes[k - at] else buffer[k]
  {
    buffer[..at] + bytes + buffer[at + |bytes|..]
  }

  function Feed(s: Load, r: Record): Load {
    if !s.running || s.overrun then s
    else if r.kind == DATA then FeedData(s, r)
    else if r.kind == EXTENDED_LINEAR_ADDRESS && |r.payload| == 2 then FeedBase(s, r)
    else s
  }

  /** Data goes to its address, or behind what has been loaded if that is further on. */
  function FeedData(s: Load, r: Record): Load {
    var at := Max(s.length, s.base + r.address);
    if at + |r.payload| > |s.buffer| then s.(overrun := true)
    else
      var t := s.(buffer := Overlay(s.buffer, at, r.payload));
      if Good(r) then t.(length := at + |r.payload|) else t.(length := 0, running := false)
  }

  function FeedBase(s: Load, r: Record): Load
    requires |r.payload| == 2
  {
    var t := s.(base := (r.payload[0] as int * 256 + r.payload[1]) * 0x1_0000);
    if !Good(r) then t.(length := 0, running := false)
    else if t.base > 0x1_0000 then t.(running := false)
    else t
  }

  function FeedAll(rs: seq<Record>): (s: Load)
    ensures |s.buffer| == CAPACITY
  {
    if rs == [] then Blank() else Feed(FeedAll(rs[..|rs| - 1]), rs[|rs| - 1])
  }

  function Records(lines: seq<string>): seq<Record>
    requires forall i :: 0 <= i < |lines| ==> Readable(lines[i])
  {
    if lines == [] then []
    else
      Records(lines[..|lines| - 1]) +
      match RecordOf(lines[|lines| - 1])
      case Some(r) => [r]
      case None => []
  }

  // ---- what a file means ----

  datatype Chunk = Chunk(address: nat, bytes: seq<byte>)

  function EndOf(c: Chunk): nat { c.address + |c.bytes| }

  /** The base in force after the records, and whether one beyond the flash has been met:
      EEPROM and configuration follow, which are not firmware. */
  function Base(rs: seq<Record>): (nat, bool) {
    if rs == [] then (0, false)
    else
      var (base, beyond) := Base(rs[..|rs| - 1]);
      var r := rs[|rs| - 1];
      if beyond || r.kind != EXTENDED_LINEAR_ADDRESS || |r.payload| != 2 then (base, beyond)
      else
        var b := (r.payload[0] as int * 256 + r.payload[1]) * 0x1_0000;
        (b, b > 0x1_0000)
  }

  /** The firmware's data records with their absolute addresses. */
  function Chunks(rs: seq<Record>): seq<Chunk> {
    if rs == [] then []
    else
      var r, (base, beyond) := rs[|rs| - 1], Base(rs[..|rs| - 1]);
      Chunks(rs[..|rs| - 1]) + if !beyond && r.kind == DATA then [Chunk(base + r.address, r.payload)] else []
  }

  /** Addresses ascend without overlap inside the flash. */
  ghost predicate Ascending(cs: seq<Chunk>) {
    && (forall i, j :: 0 <= i < j < |cs| ==> EndOf(cs[i]) <= cs[j].address)
    && (forall i :: 0 <= i < |cs| ==> EndOf(cs[i]) <= CAPACITY)
  }

  ghost predicate Covers(c: Chunk, a: int) { c.address <= a < EndOf(c) }

  /** The buffer is the memory map of the chunks, 0xff where there is none. */
  ghost predicate IsMap(buffer: seq<byte>, cs: seq<Chunk>) {
    && (forall i, a :: 0 <= i < |cs| && Covers(cs[i], a) && a < |buffer| ==> buffer[a] == cs[i].bytes[a - cs[i].address])
    && (forall a :: 0 <= a < |buffer| && (forall i :: 0 <= i < |cs| ==> !Covers(cs[i], a)) ==> buffer[a] == 0xff)
  }

  ghost predicate Sound(rs: seq<Record>) {
    forall i :: 0 <= i < |rs| ==>
      rs[i].kind in [DATA, END_OF_FILE, EXTENDED_LINEAR_ADDRESS] && (Checked(rs[i].kind) ==> Good(rs[i]))
      && (rs[i].kind == EXTENDED_LINEAR_ADDRESS ==> |rs[i].payload| == 2)
  }

  lemma {:induction false} MapGrows(buffer: seq<byte>, cs: seq<Chunk>, c: Chunk)
    requires |buffer| == CAPACITY && IsMap(buffer, cs) && Ascending(cs + [c])
    ensures EndOf(c) <= CAPACITY && IsMap(Overlay(buffer, c.address, c.bytes), cs + [c])
  {
    assert (cs + [c])[|cs|] == c;
    var b, ds := Overlay(buffer, c.address, c.bytes), cs + [c];
    forall i, a | 0 <= i < |ds| && Covers(ds[i], a) && a < |b| ensures b[a] == ds[i].bytes[a - ds[i].address] {
      if i < |cs| { assert ds[i] == cs[i] && Covers(cs[i], a) && EndOf(ds[i]) <= ds[|cs|].address; }
    }
    forall a | 0 <= a < |b| && (forall i :: 0 <= i < |ds| ==> !Covers(ds[i], a)) ensures b[a] == 0xff {
      assert !Covers(ds[|cs|], a);
      forall i | 0 <= i < |cs| ensures !Covers(cs[i], a) { assert !Covers(ds[i], a); }
    }
  }

  function Length(cs: seq<Chunk>): nat { if cs == [] then 0 else EndOf(cs[|cs| - 1]) }

  /** A sound file whose addresses ascend is loaded as its memory map, and the length is the
      end of its last data record. */
  lemma {:induction false} LoadedIsMap(rs: seq<Record>)
    requires Sound(rs) && Ascending(Chunks(rs))
    ensures var s := FeedAll(rs);
            && |s.buffer| == 128 * 1024
            && !s.overrun && s.length == Length(Chunks(rs)) && IsMap(s.buffer, Chunks(rs))
            && s.base == Base(rs).0 && s.running == !Base(rs).1
  {
    hide IsMap, Overlay, Ascending, Good, Covers;
    if rs != [] {
      var n := |rs| - 1;
      AscendingPrefix(rs);
      LoadedIsMap(rs[..n]);
      if Chunks(rs) != Chunks(rs[..n]) { LastChunk(rs); }
    } else {
      BlankIsMap();
    }
  }

  lemma BlankIsMap()
    ensures IsMap(Blank().buffer, [])
  {
  }

  /** A data record that ascends lands at its address. */
  lemma {:induction false} LastChunk(rs: seq<Record>)
    requires rs != [] && Sound(rs) && Ascending(Chunks(rs)) && Chunks(rs) != Chunks(rs[..|rs| - 1])
    requires var s, cs := FeedAll(rs[..|rs| - 1]), Chunks(rs[..|rs| - 1]);
             && !s.overrun && s.length == Length(cs) && IsMap(s.buffer, cs)
             && s.base == Base(rs[..|rs| - 1]).0 && s.running == !Base(rs[..|rs| - 1]).1
    ensures var s := FeedAll(rs);
            && !s.overrun && s.length == Length(Chunks(rs)) && IsMap(s.buffer, Chunks(rs))
            && s.base == Base(rs).0 && s.running == !Base(rs).1
  {
    hide IsMap, Good;
    var n := |rs| - 1;
    var r, s, cs := rs[n], FeedAll(rs[..n]), Chunks(rs[..n]);
    assert cs + [] == cs;
    var c := Chunk(s.base + r.address, r.payload);
    assert Chunks(rs) == cs + [c];
    assert Chunks(rs)[|cs|] == c;
    if cs != [] { assert Chunks(rs)[|cs| - 1] == cs[|cs| - 1]; }
    MapGrows(s.buffer, cs, c);
  }

  lemma {:induction false} AscendingPrefix(rs: seq<Record>)
    requires rs != [] && Ascending(Chunks(rs))
    ensures Ascending(Chunks(rs[..|rs| - 1]))
  {
    var cs, ds := Chunks(rs[..|rs| - 1]), Chunks(rs);
    assert forall i :: 0 <= i < |cs| ==> cs[i] == ds[i];
  }

  /** A data or type 04 record with a bad checksum, once reached, leaves length 0. */
  lemma {:induction false} BadChecksum(rs: seq<Record>, k: nat)
    requires k < |rs| && FeedAll(rs[..k]).running && !FeedAll(rs).overrun
    requires rs[k].kind == DATA || (rs[k].kind == EXTENDED_LINEAR_ADDRESS && |rs[k].payload| == 2)
    requires !Good(rs[k])
    ensures FeedAll(rs).length == 0 && !FeedAll(rs).running
    decreases |rs|
  {
    var n := |rs| - 1;
    if k < n {
      assert rs[..n][..k] == rs[..k];
      BadChecksum(rs[..n], k);
    }
  }

  /** Every firmware data record that is read lands at its own address. */
  ghost predicate InPlace(rs: seq<Record>) { forall k :: 0 <= k < |rs| ==> Lands(FeedAll(rs[..k]), rs[k]) }

  ghost predicate Lands(s: Load, r: Record) { s.running && r.kind == DATA ==> s.length <= s.base + r.address }

  lemma AscendingOne(cs: seq<Chunk>, c: Chunk)
    requires Ascending(cs)
    ensures Ascending(cs + [c]) <==> Length(cs) <= c.address && EndOf(c) <= CAPACITY
  {
    var ds := cs + [c];
    assert ds[|cs|] == c;
    if cs != [] { assert ds[|cs| - 1] == cs[|cs| - 1]; }
  }

  lemma InPlaceOne(rs: seq<Record>)
    requires rs != []
    ensures InPlace(rs) <==> InPlace(rs[..|rs| - 1]) && Lands(FeedAll(rs[..|rs| - 1]), rs[|rs| - 1])
  {
    hide Lands;
    assert forall k :: 0 <= k < |rs| - 1 ==> rs[..|rs| - 1][..k] == rs[..k];
  }

  /** Sound records are all put where they belong exactly when their addresses ascend. */
  lemma {:induction false} InPlaceIffAscending(rs: seq<Record>)
    requires Sound(rs) && !FeedAll(rs).overrun
    ensures InPlace(rs) <==> Ascending(Chunks(rs))
  {
    hide InPlace, Ascending, IsMap, Good, Overlay;
    if rs == [] {
      Nothing();
    } else {
      var n := |rs| - 1;
      InPlaceOne(rs);
      InPlaceIffAscending(rs[..n]);
      if Ascending(Chunks(rs[..n])) {
        LoadedIsMap(rs[..n]);
        assert Chunks(rs[..n]) + [] == Chunks(rs[..n]);
        var s := FeedAll(rs[..n]);
        if s.running && rs[n].kind == DATA {
          AscendingOne(Chunks(rs[..n]), Chunk(s.base + rs[n].address, rs[n].payload));
        }
      } else if Ascending(Chunks(rs)) {
        AscendingPrefix(rs);
      }
    }
  }

  lemma Nothing()
    ensures InPlace([]) && Ascending([])
  {
  }

  const HIGH := Record(1, 0x10, DATA, [0xaa], 0x45)
  const LOW := Record(1, 0x00, DATA, [0xbb], 0x44)

  /** Otherwise they are not: the second record lands behind the first, not at address 0. */
  lemma DescendingIsMisplaced()
    ensures Sound([HIGH, LOW]) && Chunks([HIGH, LOW]) == [Chunk(0x10, [0xaa]), Chunk(0x00, [0xbb])]
    ensures var s := FeedAll([HIGH, LOW]);
            s.length == 0x12 && s.buffer[0x00] == 0xff && s.buffer[0x11] == 0xbb
  {
    HighThenLow();
    hide Good;
    assert [HIGH, LOW][..1] == [HIGH] && [HIGH][..0] == [];
    assert Chunks([HIGH]) == [Chunk(0x10, [0xaa])];
    assert FeedAll([HIGH]) == Feed(Blank(), HIGH);
    assert FeedAll([HIGH, LOW]) == Feed(FeedAll([HIGH]), LOW);
  }

  lemma HighThenLow()
    ensures Good(HIGH) && Good(LOW)
  {
    assert SumOf([0xaa]) == 0xaa && SumOf([0xbb]) == 0xbb;
  }

  // ---- records are read back from their text ----

  function BytesOf(r: Record): seq<byte> {
    [r.size, r.address / 256, r.address % 256, r.kind] + r.payload + [r.crc]
  }

  function Encode(r: Record, lineEnd: string): string { ":" + HexText.HexBytes(BytesOf(r)) + lineEnd }

  lemma Digits(b: byte)
    ensures var h := HexText.Hex(b, 2);
            h[0] != NUL && h[1] != NUL && Nibble(h[0]) == b / 16 && Nibble(h[1]) == b % 16
  {
    assert HexText.Hex(b, 2) == HexText.Hex(b / 16, 1) + [HexText.HexDigit(b % 16)];
    assert HexText.Hex(b / 16, 1) == HexText.Hex(b / 16 / 16, 0) + [HexText.HexDigit(b / 16 % 16)];
  }

  lemma {:induction false} HexByteAt(s: seq<byte>, k: nat)
    requires k < |s|
    ensures HexText.HexBytes(s)[2 * k..2 * k + 2] == HexText.Hex(s[k], 2)
  {
    hide HexText.Hex;
    var n := |s| - 1;
    if k < n { HexByteAt(s[..n], k); }
  }

  lemma WrittenDigits(s: seq<byte>, tail: string, k: nat)
    requires k < |s|
    ensures var line, h := ":" + HexText.HexBytes(s) + tail, HexText.Hex(s[k], 2);
            line[2 * k + 1] == h[0] && line[2 * k + 2] == h[1]
  {
    hide HexText.Hex, HexText.HexBytes;
    HexByteAt(s, k);
    var t := HexText.HexBytes(s);
    assert t[2 * k] == t[2 * k..2 * k + 2][0] && t[2 * k + 1] == t[2 * k..2 * k + 2][1];
  }

  lemma WrittenByte(s: seq<byte>, tail: string, k: nat)
    requires k < |s|
    ensures ByteAt(":" + HexText.HexBytes(s) + tail, k) == s[k]
  {
    hide HexText.Hex, HexText.HexBytes, Nibble;
    WrittenDigits(s, tail, k);
    Digits(s[k]);
  }

  lemma {:induction false} WrittenBytes(s: seq<byte>, tail: string, k: nat, n: nat)
    requires k + n <= |s|
    ensures BytesAt(":" + HexText.HexBytes(s) + tail, k, n) == s[k..k + n]
    decreases n
  {
    hide ByteAt, HexText.HexBytes;
    if n > 0 {
      WrittenBytes(s, tail, k, n - 1);
      WrittenByte(s, tail, k + n - 1);
    }
  }

  /** Written in small letters or in capitals; the checksum of a type 01 record is not read. */
  lemma EncodeRoundTrip(r: Record, lineEnd: string)
    requires |r.payload| == if r.kind == 0 then r.size else if r.kind == 4 then 2 else 0
    ensures Readable(Encode(r, lineEnd))
    ensures RecordOf(Encode(r, lineEnd)) == Some(if Checked(r.kind) then r else r.(crc := 0))
    ensures Readable(HexText.Capitals(Encode(r, lineEnd)))
         && RecordOf(HexText.Capitals(Encode(r, lineEnd))) == RecordOf(Encode(r, lineEnd))
  {
    CapitalLine(Encode(r, lineEnd));
    hide ByteAt, HexText.HexBytes, HexText.Capitals;
    var s, n := BytesOf(r), |r.payload|;
    WrittenByte(s, lineEnd, 0);
    WrittenByte(s, lineEnd, 1);
    WrittenByte(s, lineEnd, 2);
    WrittenByte(s, lineEnd, 3);
    WrittenByte(s, lineEnd, 4 + n);
    WrittenBytes(s, lineEnd, 4, n);
    assert s[4..4 + n] == r.payload;
    var q, x := Divide(r.address, 256);
  }

  /** A good type 04 record sets the upper 16 bits of the addresses that follow. From 128 KiB on
      there is no flash, and reading stops. */
  lemma UpperAddress(s: Load, r: Record, next: Record)
    requires s.running && !s.overrun && r.kind == 4 && |r.payload| == 2 && Good(r) && next.kind == 0
    ensures var hi := r.payload[0] as int * 256 + r.payload[1];
            && Feed(s, r) == s.(base := 65536 * hi, running := hi < 2)
            && Base([r]) == (65536 * hi, hi >= 2)
            && Chunks([r, next]) == if hi < 2 then [Chunk(65536 * hi + next.address, next.payload)] else []
  {
    var rs, hi := [r, next], r.payload[0] as int * 256 + r.payload[1];
    assert rs[..1] == [r] && [r][..0] == [];
    assert Chunks([r]) == Chunks([]) + [] == [];
    assert Base([]) == (0, false) && Base([r]) == (65536 * hi, hi >= 2);
    assert Chunks(rs) == Chunks([r]) + if hi < 2 then [Chunk(65536 * hi + next.address, next.payload)] else [];
  }

  // ---- the digits of a record may be of either case ----

  lemma CapitalNibble(c: char)
    ensures Nibble(HexText.Capital(c)) == Nibble(c) && (HexText.Capital(c) == NUL <==> c == NUL)
    ensures HexText.Capital(c) == ':' <==> c == ':'
  {
    HexText.CapitalDigit(c);
  }

  lemma CapitalByte(line: string, k: nat)
    requires 2 * k + 3 <= |line|
    ensures ByteAt(HexText.Capitals(line), k) == ByteAt(line, k)
  {
    hide Nibble;
    CapitalNibble(line[2 * k + 1]);
    CapitalNibble(line[2 * k + 2]);
  }

  lemma {:induction false} CapitalBytes(line: string, k: nat, n: nat)
    requires 2 * (k + n) + 1 <= |line|
    ensures BytesAt(HexText.Capitals(line), k, n) == BytesAt(line, k, n)
  {
    hide ByteAt;
    if n > 0 {
      CapitalBytes(line, k, n - 1);
      CapitalByte(line, k + n - 1);
    }
  }

  lemma CapitalLine(line: string)
    ensures Readable(HexText.Capitals(line)) <==> Readable(line)
    ensures Readable(line) ==> RecordOf(HexText.Capitals(line)) == RecordOf(line)
  {
    hide ByteAt, BytesAt;
    if line != "" { CapitalNibble(line[0]); }
    if |line| >= 9 {
      forall k | 0 <= k < 4 { CapitalByte(line, k); }
      var n := PayloadSize(ByteAt(line, 3), ByteAt(line, 0));
      if |line| >= 2 * n + 11 {
        CapitalByte(line, 4 + n);
        CapitalBytes(line, 4, n);
      } else if |line| >= 2 * n + 9 {
        CapitalBytes(line, 4, n);
      }
    }
  }

  /** A file in capitals is loaded like one in small letters. */
  lemma {:induction false} CapitalsLoad(lines: seq<string>, capitals: seq<string>)
    requires |capitals| == |lines| && forall i :: 0 <= i < |lines| ==> capitals[i] == HexText.Capitals(lines[i])
    requires forall i :: 0 <= i < |lines| ==> Readable(lines[i])
    ensures forall i :: 0 <= i < |lines| ==> Readable(capitals[i])
    ensures Records(capitals) == Records(lines)
  {
    hide Readable, RecordOf, HexText.Capitals;
    forall i | 0 <= i < |lines| ensures Readable(capitals[i]) { CapitalLine(lines[i]); }
    if lines != [] {
      var n := |lines| - 1;
      CapitalsLoad(lines[..n], capitals[..n]);
      CapitalLine(lines[n]);
    }
  }

  // ---- the program ----

  /** Copies the payload of a line, two digits a byte, and adds it to the checksum. */
  method WritePayload(line: string, fw: array<byte>, start: nat, size: nat, crc: byte) returns (sum: byte)
    requires |line| >= 2 * (4 + size) + 1 && start + size <= fw.Length
    modifies fw
    ensures fw[..] == Overlay(old(fw[..]), start, BytesAt(line, 4, size))
    ensures sum == (crc + SumOf(BytesAt(line, 4, size))) % 256
  {
    hide ByteAt, Overlay, SumOf, Hex2Bin;
    sum := crc;
    ghost var was := fw[..];
    OverlayNothing(was, start);
    NothingToSum(crc);
    for n := 0 to size
      invariant fw[..] == Overlay(was, start, BytesAt(line, 4, n))
      invariant sum == (crc + SumOf(BytesAt(line, 4, n))) % 256
    {
      var tmp := Hex2BinLoop(line, 2 * (4 + n) + 1);
      IsByteAt(line, 4 + n);
      OverlayMore(was, start, BytesAt(line, 4, n), tmp);
      SumMore(BytesAt(line, 4, n), tmp);
      AddMod(crc + SumOf(BytesAt(line, 4, n)), tmp);
      fw[start + n] := tmp;
      sum := (sum + tmp) % 256;
    }
  }

  lemma OverlayNothing(buffer: seq<byte>, at: nat)
    requires at <= |buffer|
    ensures Overlay(buffer, at, []) == buffer
  {
  }

  lemma OverlayMore(buffer: seq<byte>, at: nat, bytes: seq<byte>, b: byte)
    requires at + |bytes| < |buffer|
    ensures Overlay(buffer, at, bytes + [b]) == Overlay(buffer, at, bytes)[at + |bytes| := b]
  {
  }

  lemma NothingToSum(crc: byte)
    ensures (crc + SumOf([])) % 256 == crc
  {
  }

  lemma AddMod(a: nat, b: nat)
    ensures (a % 256 + b) % 256 == (a + b) % 256
  {
    var q, r := Divide(a, 256);
    var q2, r2 := Divide(r + b, 256);
    DivModUnique(a + b, 256, q + q2, r2);
  }

  lemma IsByteAt(line: string, k: nat)
    requires 2 * k + 3 <= |line|
    ensures ByteAt(line, k) == Hex2Bin(line, 2 * k + 1)
  {
  }

  lemma SumMore(s: seq<byte>, b: byte)
    ensures SumOf(s + [b]) == SumOf(s) + b
  {
    assert (s + [b])[..|s|] == s;
  }

  /** The body of the loop for a type 00 record, from its payload on. */
  method TakeData(line: string, fw: array<byte>, address: nat, size: byte, crc: byte, length: nat, ghost s: Load)
    returns (dataLength: nat, ok: bool)
    requires Readable(line) && line[0] == ':' && ByteAt(line, 3) == DATA && size == ByteAt(line, 0)
    requires address == s.base + RecordOf(line).value.address && crc == HeaderSum(RecordOf(line).value) % 256
    requires fw[..] == s.buffer && length == s.length && s.running && !s.overrun
    requires !FeedData(s, RecordOf(line).value).overrun
    modifies fw
    ensures FeedData(s, RecordOf(line).value) == s.(buffer := fw[..], length := dataLength, running := ok)
  {
    hide ByteAt, Overlay, SumOf, HeaderSum;
    dataLength := if length < address then address else length;
    var sum := WritePayload(line, fw, dataLength, size, crc);
    AddMod(HeaderSum(RecordOf(line).value), SumOf(BytesAt(line, 4, size)));
    dataLength := dataLength + size;
    IsByteAt(line, 4 + size);
    var check := Hex2BinLoop(line, 2 * (4 + size) + 1);
    ok := (0x100 - sum as int) % 256 == check;
    if !ok { dataLength := 0; }
  }

  /** The body of the loop for a type 04 record, from its payload on. */
  method TakeBase(line: string, crc: byte, length: nat, ghost s: Load) returns (base: u32, dataLength: nat, ok: bool)
    requires Readable(line) && line[0] == ':' && ByteAt(line, 3) == EXTENDED_LINEAR_ADDRESS
    requires crc == HeaderSum(RecordOf(line).value) % 256 && length == s.length && s.running && !s.overrun
    ensures FeedBase(s, RecordOf(line).value) == s.(base := base, length := dataLength, running := ok)
  {
    hide ByteAt, HeaderSum;
    IsByteAt(line, 4);
    IsByteAt(line, 5);
    IsByteAt(line, 6);
    assert BytesAt(line, 4, 2) == [ByteAt(line, 4), ByteAt(line, 5)];
    var high := Hex2BinLoop(line, 9);
    var low := Hex2BinLoop(line, 11);
    base := (high as int * 256 + low) * 0x1_0000;
    var sum := ((crc + high) % 256 + low) % 256;
    SumOfTwo(high, low);
    AddMod(HeaderSum(RecordOf(line).value), high);
    AddMod(HeaderSum(RecordOf(line).value) + high, low);
    var check := Hex2BinLoop(line, 13);
    dataLength, ok := length, true;
    if (0x100 - sum as int) % 256 != check {
      dataLength, ok := 0, false;
    } else if base > 0x1_0000 {
      ok := false;
    }
  }

  lemma SumOfTwo(a: byte, b: byte)
    ensures SumOf([a, b]) == a + b
  {
    SumMore([a], b);
    SumMore([], a);
    assert [a] + [b] == [a, b] && [] + [a] == [a];
  }

  /** The body of the loop over the lines. */
  method TakeLine(line: string, fw: array<byte>, ext: nat, length: nat, ghost s: Load)
    returns (base: nat, dataLength: nat, ok: bool)
    requires Readable(line) && line[0] == ':' && fw[..] == s.buffer
    requires ext == s.base && length == s.length && s.running && !s.overrun
    requires !Feed(s, RecordOf(line).value).overrun
    modifies fw
    ensures Feed(s, RecordOf(line).value) == Load(fw[..], base, dataLength, ok, false)
  {
    hide ByteAt, FeedData, FeedBase;
    IsByteAt(line, 0);
    IsByteAt(line, 1);
    IsByteAt(line, 2);
    IsByteAt(line, 3);
    var size := Hex2BinLoop(line, 1);
    var msb := Hex2BinLoop(line, 3);
    var lsb := Hex2BinLoop(line, 5);
    var kind := Hex2BinLoop(line, 7);
    var crc: byte := (((size as int + msb) % 256 + lsb) % 256 + kind) % 256;
    HeaderSummed(RecordOf(line).value, msb, lsb);
    base, dataLength, ok := ext, length, true;
    if kind == DATA {
      dataLength, ok := TakeData(line, fw, ext + msb as int * 256 + lsb, size, crc, length, s);
    } else if kind == EXTENDED_LINEAR_ADDRESS {
      base, dataLength, ok := TakeBase(line, crc, length, s);
    }
  }

  lemma HeaderSummed(r: Record, msb: byte, lsb: byte)
    requires r.address == msb as int * 256 + lsb
    ensures (((r.size as int + msb) % 256 + lsb) % 256 + r.kind) % 256 == HeaderSum(r) % 256
  {
    DivModUnique(r.address, 256, msb, lsb);
    AddMod(r.size as int + msb, lsb);
    AddMod(r.size as int + msb + lsb, r.kind);
  }

  /** The buffer starts as 0xff; each line starting with a colon is taken until one stops the loop. */
  method ReadIhex(lines: seq<string>) returns (fw: array<byte>, dataLength: nat)
    requires forall i :: 0 <= i < |lines| ==> Readable(lines[i])
    requires !FeedAll(Records(lines)).overrun
    ensures fresh(fw) && fw[..] == FeedAll(Records(lines)).buffer && dataLength == FeedAll(Records(lines)).length
  {
    hide Feed, RecordOf;
    fw := new byte[CAPACITY](_ => 0xff);
    dataLength := 0;
    var ext: nat := 0;
    var i := 0;
    while i < |lines|
      invariant 0 <= i <= |lines|
      invariant FeedAll(Records(lines[..i])) == Load(fw[..], ext, dataLength, true, false)
    {
      var line := lines[i];
      assert lines[..i + 1][..i] == lines[..i];
      i := i + 1;
      IsRecord(line);
      if line[0] != ':' {
        assert Records(lines[..i]) == Records(lines[..i - 1]);
        continue;
      }
      FedOne(Records(lines[..i - 1]), RecordOf(line).value);
      NoOverrunYet(lines, i);
      var ok;
      ext, dataLength, ok := TakeLine(line, fw, ext, dataLength, FeedAll(Records(lines[..i - 1])));
      if !ok {
        StoppedStays(lines, i);
        return;
      }
    }
    assert lines[..i] == lines;
  }

  lemma IsRecord(line: string)
    requires Readable(line)
    ensures RecordOf(line).Some? <==> line[0] == ':'
  {
  }

  lemma FedOne(rs: seq<Record>, r: Record)
    ensures FeedAll(rs + [r]) == Feed(FeedAll(rs), r)
  {
    assert (rs + [r])[..|rs|] == rs;
  }

  lemma {:induction false} NoOverrunYet(lines: seq<string>, i: nat)
    requires forall k :: 0 <= k < |lines| ==> Readable(lines[k])
    requires i <= |lines| && !FeedAll(Records(lines)).overrun
    ensures !FeedAll(Records(lines[..i])).overrun
    decreases |lines| - i
  {
    hide RecordOf;
    if i < |lines| {
      NoOverrunYet(lines, i + 1);
      assert lines[..i + 1][..i] == lines[..i];
      var rs := Records(lines[..i]);
      assert rs + [] == rs;
      if RecordOf(lines[i]).Some? { FedOne(rs, RecordOf(lines[i]).value); }
    } else {
      assert lines[..i] == lines;
    }
  }

  lemma {:induction false} StoppedStays(lines: seq<string>, i: nat)
    requires forall k :: 0 <= k < |lines| ==> Readable(lines[k])
    requires i <= |lines| && !FeedAll(Records(lines[..i])).running
    ensures FeedAll(Records(lines)) == FeedAll(Records(lines[..i]))
    decreases |lines| - i
  {
    hide RecordOf;
    if i < |lines| {
      assert lines[..i + 1][..i] == lines[..i];
      var rs := Records(lines[..i]);
      assert rs + [] == rs;
      if RecordOf(lines[i]).Some? { FedOne(rs, RecordOf(lines[i]).value); }
      StoppedStays(lines, i + 1);
    } else {
      assert lines[..i] == lines;
    }
  }
}
