/** The comparator, the frame promise and the node as the program has them: objects changed
    in place. Their methods are the functions and steps of module Correlation. */
module CorrelationObjects {
  import opened Common
  import opened Frames
  import opened Correlation
  import Requests

  // Bits of `fields_to_compare`.
  const SOURCE_ID: bv16 := 1
  const BROADCAST_GROUP: bv16 := 2
  const SEQNUM: bv16 := 4
  const TYPE_SET1: bv16 := 8
  const DESTINATION_ID_SET1: bv16 := 16
  const DATA_SET1: bv16 := 32
  const FIRST_DATA_BYTE_SET1: bv16 := 64
  const TYPE_SET2: bv16 := 128
  const DESTINATION_ID_SET2: bv16 := 256
  const DATA_SET2: bv16 := 512
  const FIRST_DATA_BYTE_SET2: bv16 := 1024
  const SEQNUM_OVERRIDE: bv16 := 2048

  predicate Has(fields: bv16, bit: bv16) { fields & bit != 0 }

  function When<T>(fields: bv16, bit: bv16, x: T): Option<T> { if Has(fields, bit) then Some(x) else None }

  function Mark(fields: bv16, bit: bv16): bv16 { fields | bit }

  lemma OtherBit(fields: bv16, bit: bv16, other: bv16)
    requires other & bit == 0
    ensures Has(Mark(fields, bit), other) == Has(fields, other)
  {
  }

  /** Setting one bit leaves the others as they are. */
  lemma SetBit(fields: bv16, bit: bv16)
    requires bit != 0
    ensures Has(Mark(fields, bit), bit)
    ensures forall other: bv16 :: other & bit == 0 ==> Has(Mark(fields, bit), other) == Has(fields, other)
  {
    assert Mark(fields, bit) & bit == bit;
    hide Has, Mark;
    forall other: bv16 | other & bit == 0 ensures Has(Mark(fields, bit), other) == Has(fields, other) {
      OtherBit(fields, bit, other);
    }
  }

  method CopyBytes(a: array<byte>, v: seq<byte>)
    requires |v| <= a.Length
    modifies a
    ensures a[..|v|] == v
  {
    for i := 0 to |v|
      invariant a[..i] == v[..i]
    {
      a[i] := v[i];
    }
  }

  class H9FrameComparator {
    var fieldsToCompare: bv16
    var sourceId: byte
    var broadcastGroup: u16
    var seqnum: byte
    var seqnumOverride: byte
    var typeSet1: byte
    var destinationIdSet1: byte
    var dlcSet1: nat
    const dataSet1: array<byte>
    var firstDataByteSet1: byte
    var typeSet2: byte
    var destinationIdSet2: byte
    var dlcSet2: nat
    const dataSet2: array<byte>
    var firstDataByteSet2: byte

    ghost predicate Valid() reads this {
      dataSet1.Length == 8 && dataSet2.Length == 8 && dataSet1 != dataSet2 && dlcSet1 <= 8 && dlcSet2 <= 8
    }

    function Set1(): FieldSet reads this, dataSet1 requires Valid() {
      FieldSet(When(fieldsToCompare, TYPE_SET1, typeSet1), When(fieldsToCompare, DESTINATION_ID_SET1, destinationIdSet1),
               When(fieldsToCompare, DATA_SET1, dataSet1[..dlcSet1]),
               When(fieldsToCompare, FIRST_DATA_BYTE_SET1, firstDataByteSet1))
    }

    function Set2(): FieldSet reads this, dataSet2 requires Valid() {
      FieldSet(When(fieldsToCompare, TYPE_SET2, typeSet2), When(fieldsToCompare, DESTINATION_ID_SET2, destinationIdSet2),
               When(fieldsToCompare, DATA_SET2, dataSet2[..dlcSet2]),
               When(fieldsToCompare, FIRST_DATA_BYTE_SET2, firstDataByteSet2))
    }

    function Value(): Comparator reads this, dataSet1, dataSet2 requires Valid() {
      Comparator(When(fieldsToCompare, SOURCE_ID, sourceId), When(fieldsToCompare, BROADCAST_GROUP, broadcastGroup),
                 When(fieldsToCompare, SEQNUM, seqnum), When(fieldsToCompare, SEQNUM_OVERRIDE, seqnumOverride),
                 Set1(), Set2())
    }

    constructor ()
      ensures Valid() && fresh(dataSet1) && fresh(dataSet2)
      ensures Value() == Comparator(None, None, None, None, NOTHING, NOTHING)
    {
      fieldsToCompare, sourceId, broadcastGroup, seqnum, seqnumOverride := 0, 0, 0, 0, 0;
      typeSet1, destinationIdSet1, dlcSet1, firstDataByteSet1 := 0, 0, 0, 0;
      typeSet2, destinationIdSet2, dlcSet2, firstDataByteSet2 := 0, 0, 0, 0;
      dataSet1 := new byte[8](_ => 0);
      dataSet2 := new byte[8](_ => 0);
    }

    method SetSeqnum(v: byte)
      requires Valid()
      modifies this
      ensures Valid() && Value() == old(Value()).(seqnum := Some(v))
    {
      hide Has, Mark;
      SetBit(fieldsToCompare, SEQNUM);
      seqnum := v;
      fieldsToCompare := Mark(fieldsToCompare, SEQNUM);
    }

    method SetSourceId(v: byte)
      requires Valid()
      modifies this
      ensures Valid() && Value() == old(Value()).(source := Some(v))
    {
      hide Has, Mark;
      SetBit(fieldsToCompare, SOURCE_ID);
      sourceId := v;
      fieldsToCompare := Mark(fieldsToCompare, SOURCE_ID);
    }

    method SetType(v: byte)
      requires Valid()
      modifies this
      ensures Valid() && Value() == old(Value()).(main := old(Set1()).(kind := Some(v)))
    {
      hide Has, Mark;
      SetBit(fieldsToCompare, TYPE_SET1);
      typeSet1 := v;
      fieldsToCompare := Mark(fieldsToCompare, TYPE_SET1);
    }

    method SetTypeInAlternateSet(v: byte)
      requires Valid()
      modifies this
      ensures Valid() && Value() == old(Value()).(alternate := old(Set2()).(kind := Some(v)))
    {
      hide Has, Mark;
      SetBit(fieldsToCompare, TYPE_SET2);
      typeSet2 := v;
      fieldsToCompare := Mark(fieldsToCompare, TYPE_SET2);
    }

    method SetFirstDataByte(v: byte)
      requires Valid()
      modifies this
      ensures Valid() && Value() == old(Value()).(main := old(Set1()).(first := Some(v)))
    {
      hide Has, Mark;
      SetBit(fieldsToCompare, FIRST_DATA_BYTE_SET1);
      firstDataByteSet1 := v;
      fieldsToCompare := Mark(fieldsToCompare, FIRST_DATA_BYTE_SET1);
    }

    method SetData(v: seq<byte>)
      requires Valid() && |v| <= 8
      modifies this, dataSet1
      ensures Valid() && Value() == old(Value()).(main := old(Set1()).(data := Some(v)))
    {
      hide Has, Mark;
      SetBit(fieldsToCompare, DATA_SET1);
      CopyBytes(dataSet1, v);
      dlcSet1 := |v|;
      assert dataSet1[..dlcSet1] == v;
      fieldsToCompare := Mark(fieldsToCompare, DATA_SET1);
    }

    method Eq(b: Frame) returns (r: bool)
      requires Valid()
      ensures r == FitsMain(Value(), b)
    {
      hide Has;
      if Has(fieldsToCompare, BROADCAST_GROUP) && broadcastGroup != b.group { return false; }
      if Has(fieldsToCompare, SEQNUM) && seqnum != b.seqnum { return false; }
      if Has(fieldsToCompare, TYPE_SET1) && typeSet1 != b.kind { return false; }
      if Has(fieldsToCompare, DESTINATION_ID_SET1) && destinationIdSet1 != b.destination { return false; }
      if Has(fieldsToCompare, DATA_SET1) {
        if dlcSet1 != b.dlc { return false; }
        var same := SameBytes(dataSet1, dlcSet1, b.data);
        if !same { return false; }
      }
      if Has(fieldsToCompare, FIRST_DATA_BYTE_SET1) {
        if b.dlc < 1 || firstDataByteSet1 != b.data[0] { return false; }
      }
      return true;
    }

    method EqAlternateSet(b: Frame) returns (r: bool)
      requires Valid()
      ensures r == FitsAlternate(Value(), b)
    {
      hide Has;
      if Has(fieldsToCompare, SEQNUM_OVERRIDE) {
        if seqnumOverride != b.seqnum { return false; }
      } else if Has(fieldsToCompare, SEQNUM) && seqnum != b.seqnum { return false; }
      if Has(fieldsToCompare, TYPE_SET2) && typeSet2 != b.kind { return false; }
      if Has(fieldsToCompare, DESTINATION_ID_SET2) && destinationIdSet2 != b.destination { return false; }
      if Has(fieldsToCompare, DATA_SET2) {
        if dlcSet2 != b.dlc { return false; }
        var same := SameBytes(dataSet2, dlcSet2, b.data);
        if !same { return false; }
      }
      if Has(fieldsToCompare, FIRST_DATA_BYTE_SET2) {
        if b.dlc < 1 || firstDataByteSet2 != b.data[0] { return false; }
      }
      AnyOf(fieldsToCompare);
      return Has(fieldsToCompare, TYPE_SET2 | DESTINATION_ID_SET2 | DATA_SET2 | FIRST_DATA_BYTE_SET2);
    }

    /** `operator==`. */
    method Equals(b: Frame) returns (r: bool)
      requires Valid()
      ensures r == Matches(Value(), b)
    {
      hide FitsMain, FitsAlternate, Has;
      if Has(fieldsToCompare, SOURCE_ID) && sourceId != b.source { return false; }
      r := Eq(b);
      if !r { r := EqAlternateSet(b); }
    }
  }

  lemma AnyOf(fields: bv16)
    ensures Has(fields, TYPE_SET2 | DESTINATION_ID_SET2 | DATA_SET2 | FIRST_DATA_BYTE_SET2)
        <==> Has(fields, TYPE_SET2) || Has(fields, DESTINATION_ID_SET2) || Has(fields, DATA_SET2)
             || Has(fields, FIRST_DATA_BYTE_SET2)
  {
  }

  /** How get_reg, set_reg and bit_operation set up their comparator. */
  method RegisterComparator(nodeId: byte, reg: byte) returns (comparator: Comparator)
    ensures comparator == Requests.RegComparator(nodeId, reg)
  {
    hide When;
    var c := new H9FrameComparator();
    c.SetSourceId(nodeId);
    c.SetType(REG_VALUE);
    c.SetFirstDataByte(reg);
    c.SetTypeInAlternateSet(COMMAND_ERROR);
    comparator := c.Value();
  }

  /** The loop that compares the data bytes. */
  method SameBytes(a: array<byte>, n: nat, d: seq<byte>) returns (r: bool)
    requires n <= a.Length && n <= |d|
    ensures r == (a[..n] <= d)
  {
    for i := 0 to n
      invariant a[..i] == d[..i]
    {
      if a[i] != d[i] { return false; }
    }
    return true;
  }

  class FramePromise {
    var comparator: Comparator
    var comparatorHasSeqnum: bool
    var frameStorage: seq<Frame>
    var promise: seq<Frame>          // the values it has been given
    ghost const created: Comparator
    ghost const birth: nat
    ghost var inSet: bool
    ghost var left: nat
    ghost var destroyed: bool

    ghost function Value(): Promise reads this {
      Promise(comparator, comparatorHasSeqnum, frameStorage, promise, inSet, created, birth, left, destroyed)
    }

    constructor (comparator: Comparator, ghost received: nat)
      ensures Value() == NewPromise(comparator, received)
    {
      this.comparator, comparatorHasSeqnum, frameStorage, promise := comparator, false, [], [];
      created, birth, inSet, left, destroyed := comparator, received, true, 0, false;
    }

    /** True on a full match. */
    method OnFrame(frame: Frame) returns (full: bool)
      modifies this`promise, this`frameStorage
      ensures full == FullMatch(old(Value()), frame) && Value() == Correlation.OnFrame(old(Value()), frame)
    {
      hide Matches;
      if Matches(comparator, frame) {
        if comparatorHasSeqnum {
          promise := promise + [frame];
          return true;
        } else {
          frameStorage := frameStorage + [frame];
        }
      }
      return false;
    }

    /** Offers the stored frames again, in order, until one matches in full. */
    method SetComparatorSeqnum(seqnum: byte, ghost received: nat) returns (full: bool)
      requires inSet && !comparatorHasSeqnum
      modifies this
      ensures Value() == Replay(Numbered(old(Value()), seqnum), received)
      ensures full == !inSet && destroyed == old(destroyed)
    {
      hide Matches;
      comparator := comparator.(seqnum := Some(seqnum));
      comparatorHasSeqnum := true;
      while frameStorage != []
        invariant inSet && comparatorHasSeqnum && destroyed == old(destroyed)
        invariant Replay(Value(), received) == Replay(Numbered(old(Value()), seqnum), received)
        decreases |frameStorage|
      {
        ghost var before := Value();
        full := OnFrame(frameStorage[0]);
        if full {
          inSet, left := false, received;
          return true;
        }
        frameStorage := frameStorage[1..];
        assert Value() == before.(storage := before.storage[1..]);
      }
      return false;
    }
  }

  ghost function Values(ps: seq<FramePromise>): (r: seq<Promise>)
    reads ps
    ensures |r| == |ps| && forall i :: 0 <= i < |r| ==> r[i] == ps[i].Value()
  {
    seq(|ps|, i requires 0 <= i < |ps| reads ps => ps[i].Value())
  }

  class RawNode {
    var framePromiseSet: set<FramePromise>
    ghost var all: seq<FramePromise>
    ghost var received: seq<Frame>

    ghost predicate Valid() reads this, all {
      && (forall i, j :: 0 <= i < j < |all| ==> all[i] != all[j])
      && (forall p :: p in framePromiseSet ==> p in all)
      && (forall i :: 0 <= i < |all| ==> all[i].inSet == (all[i] in framePromiseSet))
    }

    ghost function State(): Node reads this, all { Node(Values(all), received) }

    constructor ()
      ensures Valid() && State() == Node([], [])
    {
      framePromiseSet, all, received := {}, [], [];
    }

    method CreateFramePromise(comparator: Comparator) returns (p: FramePromise)
      requires Valid()
      modifies this
      ensures Valid() && fresh(p) && all == old(all) + [p]
      ensures State() == Step(old(State()), Create(comparator))
    {
      hide Values;
      p := new FramePromise(comparator, |received|);
      framePromiseSet := framePromiseSet + {p};
      all := all + [p];
      assert Values(all) == old(Values(all)) + [p.Value()];
    }

    method DestroyFramePromise(p: FramePromise, ghost id: nat)
      requires Valid() && id < |all| && all[id] == p
      modifies this`framePromiseSet, p
      ensures Valid() && p !in framePromiseSet && State() == Step(old(State()), Destroy(id))
    {
      hide Values;
      framePromiseSet := framePromiseSet - {p};
      if p.inSet { p.left := |received|; }
      p.inSet, p.destroyed := false, true;
      assert Values(all) == old(Values(all))[id := p.Value()];
    }

    method OfferTo(p: FramePromise, frame: Frame)
      requires Valid() && p in framePromiseSet
      modifies this`framePromiseSet, p
      ensures Valid() && p.Value() == Offered(old(p.Value()), frame, |received|)
      ensures framePromiseSet == if FullMatch(old(p.Value()), frame) then old(framePromiseSet) - {p} else old(framePromiseSet)
    {
      hide Matches;
      var full := p.OnFrame(frame);
      if full {
        framePromiseSet := framePromiseSet - {p};
        p.inSet, p.left := false, |received| + 1;
      }
    }

    /** Offers the frame to every promise in the set and erases those that took it. */
    method OfferToAll(frame: Frame)
      requires Valid()
      modifies this`framePromiseSet, framePromiseSet
      ensures Valid()
      ensures forall p :: p in all ==> p.Value() == Offered(old(p.Value()), frame, |received|)
    {
      hide Values, Matches, FullMatch, Correlation.OnFrame;
      OutsideKept(frame);
      var it := framePromiseSet;
      while it != {}
        invariant it <= framePromiseSet <= old(framePromiseSet) && Valid()
        invariant forall p :: p in all ==>
                    p.Value() == if p in it then old(p.Value()) else Offered(old(p.Value()), frame, |received|)
        decreases |it|
      {
        var p :| p in it;
        it := it - {p};
        OfferTo(p, frame);
      }
    }

    method OnFrameRecv(frame: Frame)
      requires Valid()
      modifies this`framePromiseSet, this`received, framePromiseSet
      ensures Valid() && State() == Step(old(State()), Recv(frame))
    {
      hide Values, Offered;
      OfferToAll(frame);
      forall i | 0 <= i < |all| ensures Values(all)[i] == Offered(old(Values(all))[i], frame, |received|) {
        assert all[i] in all;
      }
      label offered:
      received := received + [frame];
      assert Values(all) == old@offered(Values(all));
      assert Values(all) == OfferedAll(old(Values(all)), frame, |old(received)|);
    }

    /** A promise out of the set is offered nothing. */
    lemma OutsideKept(frame: Frame)
      requires Valid()
      ensures forall p :: p in all && p !in framePromiseSet ==> p.Value() == Offered(p.Value(), frame, |received|)
    {
    }

    method AssignSeqnum(p: FramePromise, seqnum: byte, ghost id: nat)
      requires Valid() && id < |all| && all[id] == p && p.inSet && !p.comparatorHasSeqnum
      modifies this`framePromiseSet, p
      ensures Valid() && State() == Step(old(State()), SetSeqnum(id, seqnum))
    {
      hide Values, Matches, Replay;
      var full := p.SetComparatorSeqnum(seqnum, |received|);
      if full { framePromiseSet := framePromiseSet - {p}; }
      assert Values(all) == old(Values(all))[id := p.Value()];
    }
  }
}
