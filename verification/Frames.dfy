/** H9 frames and their two encodings: the 29-bit CAN identifier and the 13-byte
    serialised form (src/common/h9_frame.cc). Shifts and masks on unsigned words are
    written as multiplication, division and remainder by powers of two. */
module Frames {
  import opened Common

  type Data = s: seq<byte> | |s| == 8 witness [0, 0, 0, 0, 0, 0, 0, 0]

  /** The value held by an H9Frame. A unicast frame leaves `group` meaningless, a
      broadcast frame leaves `flags`, `destination` and `seqnum` meaningless; the
      program keeps whatever was there before, and so does the model. */
  datatype Frame = Frame(origin: string, kind: byte, source: byte, flags: byte,
                         destination: byte, seqnum: byte, group: u16, dlc: byte, data: Data)

  // Frame type numbers as in doc/Frame.md. Their header is not part of this model; src/common/h9_frame.h
  // lists the enumerators in that order but for BOOTLOADER_TURNED_ON, which it puts fifth, among
  // the unicast types, where the document has a reserved one. The code is followed.
  const PAGE_START: byte := 1
  const QUIT_BOOTLOADER: byte := 2
  const PAGE_FILL: byte := 3
  const BOOTLOADER_TURNED_ON: byte := 4
  const PAGE_FILL_NEXT: byte := 5
  const PAGE_WRITED: byte := 6
  const COMMAND_ERROR: byte := 8
  const REG_VALUE: byte := 9
  const SET_REG: byte := 10
  const GET_REG: byte := 11
  const SET_BIT: byte := 12
  const CLEAR_BIT: byte := 13
  const NODE_UPGRADE: byte := 14
  const NODE_RESET: byte := 15
  const DISCOVER: byte := 16
  const REG_VALUE_BROADCAST: byte := 19

  const SEQNUM_MAX_VALUE := 31
  const SERIALIZATION_LENGTH := 13

  predicate IsUnicast(kind: byte) { kind < DISCOVER }

  /** Every meaningful field fits its bit width. */
  predicate WellFormed(f: Frame) {
    f.kind < 32 && (IsUnicast(f.kind) ==> f.flags < 8 && f.seqnum < 32)
  }

  /** The identifier fields that are meaningful for this kind of frame agree. */
  predicate SameIdentity(a: Frame, b: Frame) {
    && a.kind == b.kind && a.source == b.source
    && (if IsUnicast(a.kind)
        then a.flags == b.flags && a.destination == b.destination && a.seqnum == b.seqnum
        else a.group == b.group)
  }

  // The bit fields of an identifier: type 28-24, source 23-16, then either
  // flags 15-13, destination 12-5 and seqnum 4-0, or the broadcast group 15-0.
  function Join(kind: int, source: int, low: int): int { (kind * 256 + source) * 0x1_0000 + low }
  function JoinLow(flags: int, dest: int, seqnum: int): int { (flags * 256 + dest) * 32 + seqnum }
  function KindOf(id: int): (r: byte) ensures r < 32 { id / 0x100_0000 % 32 }
  function SourceOf(id: int): byte { id / 0x1_0000 % 256 }
  function GroupOf(id: int): u16 { id % 0x1_0000 }
  function FlagsOf(id: int): (r: byte) ensures r < 8 { id / 0x2000 % 8 }
  function DestOf(id: int): byte { id / 32 % 256 }
  function SeqnumOf(id: int): (r: byte) ensures r < 32 { id % 32 }

  /** The 29-bit identifier of a frame; each field is masked to its width. */
  function CanId(f: Frame): (id: u32)
    ensures id < 0x2000_0000
  {
    Join(f.kind % 32, f.source,
         if IsUnicast(f.kind) then JoinLow(f.flags % 8, f.destination, f.seqnum % 32) else f.group)
  }

  /** Frame f after its identifier has been set from the low 29 bits of id. */
  function WithCanId(f: Frame, id: u32): Frame {
    var g := f.(kind := KindOf(id), source := SourceOf(id));
    if IsUnicast(g.kind) then g.(flags := FlagsOf(id), destination := DestOf(id), seqnum := SeqnumOf(id))
    else g.(group := GroupOf(id))
  }

  function Serialized(f: Frame): (r: seq<byte>)
    ensures |r| == SERIALIZATION_LENGTH
  {
    BigEndian4(CanId(f)) + [f.dlc] + f.data
  }

  /** Frame f after the 13 serialised bytes s have been loaded into it, field by field
      from the bytes, without going through the 32-bit identifier. */
  function Deserialized(f: Frame, origin: string, s: seq<byte>): Frame
    requires |s| == SERIALIZATION_LENGTH
  {
    var g := f.(origin := origin, kind := s[0] % 32, source := s[1],
                dlc := if s[4] < 8 then s[4] else 8, data := s[5..13]);
    if IsUnicast(g.kind) then
      g.(flags := s[2] / 32 % 8, destination := s[2] as int * 8 % 256 + s[3] / 32, seqnum := s[3] % 32)
    else
      g.(group := s[2] as int * 256 + s[3])
  }

  // ---- the identifier is a bijection between well-formed frames and 29-bit values ----

  /** Fields packed beside one another are recovered by shifting and masking. */
  lemma Unpack(high: int, kind: int, source: int, low: int)
    requires 0 <= kind < 32 && 0 <= source < 256 && 0 <= low < 0x1_0000
    ensures var id := Join(high * 32 + kind, source, low);
            KindOf(id) == kind && SourceOf(id) == source && GroupOf(id) == low
  {
    var id, k := Join(high * 32 + kind, source, low), high * 32 + kind;
    DivModUnique(id, 0x1_0000, k * 256 + source, low);
    DivModUnique(k * 256 + source, 256, k, source);
    DivModUnique(id, 0x100_0000, k, source * 0x1_0000 + low);
    DivModUnique(k, 32, high, kind);
  }

  lemma UnpackLow(high: int, flags: int, dest: int, seqnum: int)
    requires 0 <= flags < 8 && 0 <= dest < 256 && 0 <= seqnum < 32
    ensures var id := high * 0x1_0000 + JoinLow(flags, dest, seqnum);
            FlagsOf(id) == flags && DestOf(id) == dest && SeqnumOf(id) == seqnum
  {
    var id := high * 0x1_0000 + JoinLow(flags, dest, seqnum);
    DivModUnique(id, 32, high * 2048 + flags * 256 + dest, seqnum);
    DivModUnique(high * 2048 + flags * 256 + dest, 256, high * 8 + flags, dest);
    DivModUnique(id, 0x2000, high * 8 + flags, dest * 32 + seqnum);
    DivModUnique(high * 8 + flags, 8, high, flags);
  }

  /** Where the fields lie: type in bits 28 to 24, source in 23 to 16; below them flags in 15 to 13,
      destination in 12 to 5 and number in 4 to 0, or the group for a broadcast, which is a frame
      with bit 28 set. */
  lemma Layout(f: Frame)
    requires f.kind < 32 && (f.kind < 16 ==> f.flags < 8 && f.seqnum < 32)
    ensures var id := CanId(f);
            && id / 0x100_0000 == f.kind && id / 0x1_0000 % 0x100 == f.source
            && (id < 0x1000_0000 ==> id / 0x2000 % 8 == f.flags && id / 0x20 % 0x100 == f.destination && id % 0x20 == f.seqnum)
            && (id >= 0x1000_0000 ==> id % 0x1_0000 == f.group)
  {
    hide Join, JoinLow, CanId;
    SmallFields(f);
    if f.kind < 16 {
      LayoutOf(f.kind, f.source, f.flags, f.destination, f.seqnum);
    } else {
      TopBits(f.kind, f.source, f.group);
      Unpack(0, f.kind, f.source, f.group);
    }
  }

  lemma SmallFields(f: Frame)
    requires f.kind < 32 && (f.kind < 16 ==> f.flags < 8 && f.seqnum < 32)
    ensures CanId(f) == Join(f.kind, f.source, if f.kind < 16 then JoinLow(f.flags, f.destination, f.seqnum) else f.group)
  {
    assert f.kind % 32 == f.kind && (f.kind < 16 ==> f.flags % 8 == f.flags && f.seqnum % 32 == f.seqnum);
  }

  lemma TopBits(kind: int, source: int, low: int)
    requires 0 <= kind < 32 && 0 <= source < 256 && 0 <= low < 0x1_0000
    ensures var id := Join(kind, source, low); id / 0x100_0000 == kind && (id < 0x1000_0000 <==> kind < 16)
  {
    DivModUnique(Join(kind, source, low), 0x100_0000, kind, source * 0x1_0000 + low);
  }

  lemma LayoutOf(kind: int, source: int, flags: int, dest: int, seqnum: int)
    requires 0 <= kind < 16 && 0 <= source < 256 && 0 <= flags < 8 && 0 <= dest < 256 && 0 <= seqnum < 32
    ensures var id := Join(kind, source, JoinLow(flags, dest, seqnum));
            && id < 0x1000_0000 && id / 0x100_0000 == kind && id / 0x1_0000 % 0x100 == source
            && id / 0x2000 % 8 == flags && id / 0x20 % 0x100 == dest && id % 0x20 == seqnum
  {
    var low := JoinLow(flags, dest, seqnum);
    Unpack(0, kind, source, low);
    TopBits(kind, source, low);
    UnpackLow(kind * 256 + source, flags, dest, seqnum);
    hide JoinLow;
    assert Join(kind, source, low) == (kind * 256 + source) * 0x1_0000 + low;
  }

  /** The fields of an identifier determine its low 29 bits. */
  lemma Repack(id: u32)
    ensures Join(KindOf(id), SourceOf(id), JoinLow(FlagsOf(id), DestOf(id), SeqnumOf(id))) == id % 0x2000_0000
    ensures JoinLow(FlagsOf(id), DestOf(id), SeqnumOf(id)) == GroupOf(id)
  {
    hide KindOf, SourceOf, GroupOf, FlagsOf, DestOf, SeqnumOf;
    var a1, seqnum := Divide(id, 32);
    var a2, dest := Divide(a1, 256);
    var a3, flags := Divide(a2, 8);
    var a4, source := Divide(a3, 256);
    var top, kind := Divide(a4, 32);
    Unpack(top, kind, source, JoinLow(flags, dest, seqnum));
    UnpackLow(a3, flags, dest, seqnum);
    DivModUnique(id, 0x2000_0000, top, Join(kind, source, JoinLow(flags, dest, seqnum)));
  }

  /** A frame is recovered from its identifier exactly when its fields fit their widths. */
  lemma CanIdThenBack(f: Frame, g: Frame)
    ensures WellFormed(f) <==> SameIdentity(WithCanId(g, CanId(f)), f)
    ensures WithCanId(g, CanId(f)).dlc == g.dlc && WithCanId(g, CanId(f)).data == g.data
  {
    var kind, flags, seqnum := f.kind % 32, f.flags % 8, f.seqnum % 32;
    assert IsUnicast(f.kind) ==> kind == f.kind;
    assert f.kind < 32 <==> kind == f.kind;
    assert f.flags < 8 <==> flags == f.flags;
    assert f.seqnum < 32 <==> seqnum == f.seqnum;
    hide KindOf, SourceOf, GroupOf, FlagsOf, DestOf, SeqnumOf;
    if IsUnicast(f.kind) {
      Unpack(0, kind, f.source, JoinLow(flags, f.destination, seqnum));
      UnpackLow(kind * 256 + f.source, flags, f.destination, seqnum);
    } else {
      Unpack(0, kind, f.source, f.group);
    }
  }

  /** Every 29-bit value is the identifier of the frame it decodes to. */
  lemma BackThenCanId(id: u32, g: Frame)
    ensures WellFormed(WithCanId(g, id))
    ensures CanId(WithCanId(g, id)) == id % 0x2000_0000
  {
    hide KindOf, SourceOf, GroupOf, FlagsOf, DestOf, SeqnumOf;
    Repack(id);
    DivModUnique(KindOf(id), 32, 0, KindOf(id));
    DivModUnique(FlagsOf(id), 8, 0, FlagsOf(id));
    DivModUnique(SeqnumOf(id), 32, 0, SeqnumOf(id));
  }

  // ---- the byte-sliced reader agrees with the 32-bit route ----

  lemma WordSlices(a: byte, b: byte, c: byte, d: byte)
    ensures var id := ((a as int * 0x100 + b) * 0x100 + c) * 0x100 + d;
            && KindOf(id) == a % 32 && SourceOf(id) == b && GroupOf(id) == c as int * 256 + d
            && FlagsOf(id) == c / 32 && DestOf(id) == c as int * 8 % 256 + d / 32 && SeqnumOf(id) == d % 32
  {
    hide KindOf, SourceOf, GroupOf, FlagsOf, DestOf, SeqnumOf;
    var a1, a2 := Divide(a, 32);
    var c1, c2 := Divide(c, 32);
    var d1, d2 := Divide(d, 32);
    DivModUnique(c as int * 8, 256, c1, c2 * 8);
    Unpack(a1, a2, b, JoinLow(c1, c2 * 8 + d1, d2));
    UnpackLow(a as int * 256 + b, c1, c2 * 8 + d1, d2);
  }

  lemma ByteRouteIsWordRoute(f: Frame, origin: string, s: seq<byte>)
    requires |s| == SERIALIZATION_LENGTH
    ensures Deserialized(f, origin, s)
         == WithCanId(f, Word4(s)).(origin := origin, dlc := Min(s[4], 8), data := s[5..13])
  {
    WordSlices(s[0], s[1], s[2], s[3]);
    assert s[2] / 32 % 8 == s[2] / 32;
    hide KindOf, SourceOf, GroupOf, FlagsOf, DestOf, SeqnumOf;
  }

  /** A frame survives serialisation exactly when its fields fit their widths and its
      data length is at most 8; h is the (arbitrary) frame loaded into. */
  lemma SerializeRoundTrip(f: Frame, h: Frame, origin: string)
    ensures var r := Deserialized(h, origin, Serialized(f));
            && r.origin == origin && r.data == f.data
            && (WellFormed(f) && f.dlc <= 8 <==> SameIdentity(r, f) && r.dlc == f.dlc)
  {
    hide Deserialized, WithCanId, CanId, BigEndian4, Word4;
    var s := Serialized(f);
    ByteRouteIsWordRoute(h, origin, s);
    SerializedParts(f);
    CanIdThenBack(f, h);
  }

  lemma SerializedParts(f: Frame)
    ensures var s := Serialized(f); Word4(s) == CanId(f) && s[4] == f.dlc && s[5..13] == f.data
  {
    hide CanId, BigEndian4, Word4;
    var s := Serialized(f);
    assert forall k :: 0 <= k < 4 ==> s[k] == BigEndian4(CanId(f))[k];
    Word4Same(s, BigEndian4(CanId(f)));
    Word4OfBigEndian4(CanId(f));
  }

  // ---- the object ----

  /** The frame object: the setters and `deserialize` change the fields in place. */
  class H9Frame {
    var origin: string
    var kind: byte
    var sourceId: byte
    var flags: byte
    var destinationId: byte
    var seqnum: byte
    var group: u16
    var dlc: byte
    const data: array<byte>

    ghost predicate Valid() reads this { data.Length == 8 }

    function Value(): Frame
      reads this, data
      requires Valid()
    {
      Frame(origin, kind, sourceId, flags, destinationId, seqnum, group, dlc, data[..])
    }

    constructor (f: Frame)
      ensures Valid() && fresh(data) && Value() == f
    {
      origin, kind, sourceId, flags := f.origin, f.kind, f.source, f.flags;
      destinationId, seqnum, group, dlc := f.destination, f.seqnum, f.group, f.dlc;
      data := new byte[8](i requires 0 <= i < 8 => f.data[i]);
    }

    /** Shifts the fields in one after another, as the getter `can_id()` does. */
    method GetCanId() returns (id: u32)
      requires Valid()
      ensures id == CanId(Value())
    {
      id := kind % 32;
      id := id * 256 + sourceId;
      if IsUnicast(kind) {
        id := id * 8 + flags % 8;
        id := id * 256 + destinationId;
        id := id * 32 + seqnum % 32;
      } else {
        id := id * 0x1_0000 + group;
      }
    }

    method SetCanId(id: u32)
      requires Valid()
      modifies this
      ensures Valid() && Value() == WithCanId(old(Value()), id)
    {
      kind := id / 0x100_0000 % 32;
      sourceId := id / 0x1_0000 % 256;
      if IsUnicast(kind) {
        flags := id / 0x2000 % 8;
        destinationId := id / 32 % 256;
        seqnum := id % 32;
      } else {
        group := id % 0x1_0000;
      }
    }

    method Serialize() returns (ret: array<byte>)
      requires Valid()
      ensures fresh(ret) && ret[..] == Serialized(Value())
    {
      hide CanId;
      ret := new byte[SERIALIZATION_LENGTH];
      var id := GetCanId();
      ret[0], ret[1] := id / 0x100_0000 % 256, id / 0x1_0000 % 256;
      ret[2], ret[3] := id / 0x100 % 256, id % 256;
      ret[4] := dlc;
      for i := 0 to 8
        invariant ret[..5] == BigEndian4(CanId(Value())) + [dlc]
        invariant ret[5..5 + i] == data[..i]
      {
        ret[5 + i] := data[i];
      }
      assert ret[..] == ret[..5] + ret[5..13];
    }

    method Deserialize(from: string, s: array<byte>)
      requires Valid() && s.Length == SERIALIZATION_LENGTH && s != data
      modifies this, data
      ensures Valid() && Value() == Deserialized(old(Value()), from, s[..])
    {
      LoadHeader(from, s);
      for i := 0 to 8
        modifies data
        invariant forall k :: 0 <= k < i ==> data[k] == s[5 + k]
      {
        data[i] := s[5 + i];
      }
      assert data[..] == s[..][5..13];
    }

    /** The first five bytes. */
    method LoadHeader(from: string, s: array<byte>)
      requires Valid() && s.Length == SERIALIZATION_LENGTH
      modifies this
      ensures Valid() && Value() == Deserialized(old(Value()), from, s[..]).(data := old(data[..]))
    {
      origin := from;
      kind := s[0] % 32;
      sourceId := s[1];
      if IsUnicast(kind) {
        flags := s[2] / 32 % 8;
        destinationId := s[2] as int * 8 % 256 + s[3] / 32;
        seqnum := s[3] % 32;
      } else {
        group := s[2] as int * 256 + s[3];
      }
      dlc := if s[4] < 8 then s[4] else 8;
    }

    /** `data(vector)`: at most eight bytes are taken, and their number becomes the dlc. */
    method SetData(v: seq<byte>)
      requires Valid()
      modifies this, data
      ensures Valid()
      ensures var n := Min(|v|, 8);
              Value() == old(Value()).(dlc := n, data := v[..n] + old(data[..])[n..])
    {
      var i := 0;
      while i < |v| && i < 8
        invariant 0 <= i <= |v| && i <= 8
        invariant data[..i] == v[..i] && data[i..] == old(data[..])[i..]
        invariant Value() == old(Value()).(data := data[..])
      {
        data[i] := v[i];
        i := i + 1;
      }
      dlc := i;
      assert data[..] == data[..i] + data[i..];
    }
  }
}
