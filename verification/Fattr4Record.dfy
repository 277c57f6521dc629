/**
 * The attributes of section 5.8 of RFC 7530 that the client decodes, written out: their numbers,
 * the words of each, and the fields of `Fattr4`. Nothing here refers to the decoder's own table.
 */
module Fattr4Record {
  import opened Wire
  import opened Xdr
  import opened XdrTheorems
  import opened Fattr4

  datatype Time = Time(seconds: i64, nseconds: u32)

  datatype Record = Record(
    ftype: Option<u32>,
    change: Option<u64>,
    size: Option<u64>,
    fsid: Option<(u64, u64)>,
    fileid: Option<u64>,
    filesAvail: Option<u64>,
    filesFree: Option<u64>,
    filesTotal: Option<u64>,
    mode: Option<u32>,
    numlinks: Option<u32>,
    owner: Option<Text>,
    ownerGroup: Option<Text>,
    rawdev: Option<(u32, u32)>,
    spaceAvail: Option<u64>,
    spaceFree: Option<u64>,
    spaceTotal: Option<u64>,
    spaceUsed: Option<u64>,
    timeAccess: Option<Time>,
    timeMetadata: Option<Time>,
    timeModify: Option<Time>)

  predicate Encodable(a: Record) {
    (a.owner.Some? ==> |a.owner.value| < TWO32) && (a.ownerGroup.Some? ==> |a.ownerGroup.value| < TWO32)
  }

  // --- On the wire ------------------------------------------------------------------------

  function Numbers(): (ns: seq<u32>)
    ensures |ns| == 20
  {
    [1, 3, 4, 8, 20, 21, 22, 23, 33, 35, 36, 37, 41, 42, 43, 44, 45, 47, 52, 53]
  }

  function Word(o: Option<u32>): Bytes { if o.None? then [] else PutU32(o.value) }
  function Hyper(o: Option<u64>): Bytes { if o.None? then [] else PutU64(o.value) }
  function Words2(o: Option<(u32, u32)>): Bytes { if o.None? then [] else PutU32(o.value.0) + PutU32(o.value.1) }
  function Hypers2(o: Option<(u64, u64)>): Bytes { if o.None? then [] else PutU64(o.value.0) + PutU64(o.value.1) }
  function String(o: Option<Text>): Bytes
    requires o.Some? ==> |o.value| < TWO32
  {
    if o.None? then [] else PutU32(|o.value|) + (o.value + Zeros(Padding(|o.value|)))
  }
  function TimeOf(o: Option<Time>): Bytes {
    if o.None? then []
    else PutU64(if o.value.seconds < 0 then o.value.seconds + TWO64 else o.value.seconds) + PutU32(o.value.nseconds)
  }

  /** The bytes of each attribute, none for one that is absent. */
  function Pieces(a: Record): (ps: seq<Bytes>)
    requires Encodable(a)
    ensures |ps| == 20
  {
    [Word(a.ftype), Hyper(a.change), Hyper(a.size), Hypers2(a.fsid), Hyper(a.fileid),
     Hyper(a.filesAvail), Hyper(a.filesFree), Hyper(a.filesTotal), Word(a.mode), Word(a.numlinks),
     String(a.owner), String(a.ownerGroup), Words2(a.rawdev), Hyper(a.spaceAvail), Hyper(a.spaceFree),
     Hyper(a.spaceTotal), Hyper(a.spaceUsed), TimeOf(a.timeAccess), TimeOf(a.timeMetadata), TimeOf(a.timeModify)]
  }

  /** The numbers of the attributes present. */
  function Chosen(numbers: seq<u32>, ps: seq<Bytes>): seq<u32>
    requires |numbers| == |ps|
  {
    if ps == [] then []
    else (if ps[0] == [] then [] else [numbers[0]]) + Chosen(numbers[1..], ps[1..])
  }

  // --- What is decoded --------------------------------------------------------------------

  function WordAt(m: Attrs, bit: nat): Option<u32> {
    if bit in m && m[bit].VNum? && 0 <= m[bit].n < TWO32 then Some(m[bit].n) else None
  }

  function HyperAt(m: Attrs, bit: nat): Option<u64> {
    if bit in m && m[bit].VNum? && 0 <= m[bit].n < TWO64 then Some(m[bit].n) else None
  }

  function TextAt(m: Attrs, bit: nat): Option<Text> {
    if bit in m && m[bit].VBytes? && ValidUtf8(m[bit].bytes) then Some(m[bit].bytes) else None
  }

  /** The two numbers of a pair. */
  function PairAt(m: Attrs, bit: nat): Option<(int, int)> {
    if bit in m && m[bit].VStruct? && m[bit].vals.VCons? && m[bit].vals.tail.VCons?
       && m[bit].vals.head.VNum? && m[bit].vals.tail.head.VNum?
    then Some((m[bit].vals.head.n, m[bit].vals.tail.head.n)) else None
  }

  function Words2At(m: Attrs, bit: nat): Option<(u32, u32)> {
    match PairAt(m, bit)
    case None => None
    case Some((x, y)) => if 0 <= x < TWO32 && 0 <= y < TWO32 then Some((x, y)) else None
  }

  function Hypers2At(m: Attrs, bit: nat): Option<(u64, u64)> {
    match PairAt(m, bit)
    case None => None
    case Some((x, y)) => if 0 <= x < TWO64 && 0 <= y < TWO64 then Some((x, y)) else None
  }

  function TimeAt(m: Attrs, bit: nat): Option<Time> {
    match PairAt(m, bit)
    case None => None
    case Some((x, y)) =>
      if -0x8000_0000_0000_0000 <= x < 0x8000_0000_0000_0000 && 0 <= y < TWO32 then Some(Time(x, y)) else None
  }

  /** The fields of `Fattr4`. */
  function RecordOf(m: Attrs): Record {
    Record(WordAt(m, 1), HyperAt(m, 3), HyperAt(m, 4), Hypers2At(m, 8), HyperAt(m, 20),
           HyperAt(m, 21), HyperAt(m, 22), HyperAt(m, 23), WordAt(m, 33), WordAt(m, 35),
           TextAt(m, 36), TextAt(m, 37), Words2At(m, 41), HyperAt(m, 42), HyperAt(m, 43),
           HyperAt(m, 44), HyperAt(m, 45), TimeAt(m, 47), TimeAt(m, 52), TimeAt(m, 53))
  }

  // --- The values in between --------------------------------------------------------------

  function NumV(o: Option<int>): Option<Value> { if o.None? then None else Some(VNum(o.value)) }
  function TextV(o: Option<Text>): Option<Value> { if o.None? then None else Some(VBytes(o.value)) }
  function PairV(o: Option<(int, int)>): Option<Value> {
    if o.None? then None else Some(VStruct(VCons(VNum(o.value.0), VCons(VNum(o.value.1), VNil))))
  }
  function TimeV(o: Option<Time>): Option<Value> {
    if o.None? then None else PairV(Some((o.value.seconds, o.value.nseconds)))
  }

  function Vals(a: Record): (vs: seq<Option<Value>>)
    ensures |vs| == 20
  {
    [NumV(a.ftype), NumV(a.change), NumV(a.size), PairV(a.fsid), NumV(a.fileid),
     NumV(a.filesAvail), NumV(a.filesFree), NumV(a.filesTotal), NumV(a.mode), NumV(a.numlinks),
     TextV(a.owner), TextV(a.ownerGroup), PairV(a.rawdev), NumV(a.spaceAvail), NumV(a.spaceFree),
     NumV(a.spaceTotal), NumV(a.spaceUsed), TimeV(a.timeAccess), TimeV(a.timeMetadata), TimeV(a.timeModify)]
  }

  /** The map with these values, from the `i`-th on. */
  function MapFrom(vs: seq<Option<Value>>, i: nat): Attrs
    requires |vs| == 20 && i <= 20
    decreases 20 - i
  {
    if i == 20 then map[]
    else if vs[i].None? then MapFrom(vs, i + 1)
    else MapFrom(vs, i + 1)[Numbers()[i] as nat := vs[i].value]
  }

  lemma {:induction false} Ascending(i: nat, j: nat)
    requires i < j < 20
    ensures Numbers()[i] < Numbers()[j]
  {
  }

  lemma {:induction false} MapFromHas(vs: seq<Option<Value>>, i: nat)
    requires |vs| == 20 && i <= 20
    ensures forall bit :: bit in MapFrom(vs, i) <==> exists j :: i <= j < 20 && Numbers()[j] == bit && vs[j].Some?
    ensures forall j :: i <= j < 20 && vs[j].Some? ==> Numbers()[j] in MapFrom(vs, i) && MapFrom(vs, i)[Numbers()[j]] == vs[j].value
    decreases 20 - i
  {
    hide Numbers;
    if i < 20 {
      MapFromHas(vs, i + 1);
      forall j | i < j < 20
        ensures Numbers()[i] != Numbers()[j]
      {
        Ascending(i, j);
      }
    }
  }

  // --- Each attribute is what the decoder takes it for ------------------------------------

  lemma {:induction false} WordTyped(bit: nat, n: u32)
    requires AttrSchema(bit) == Some(U32)
    ensures Typed(bit, VNum(n)) && ValueBytes(bit, VNum(n)) == PutU32(n)
  {
    hide AttrSchema, PutU32;
    SignedValue(false, false, n);
  }

  lemma {:induction false} HyperTyped(bit: nat, n: u64)
    requires AttrSchema(bit) == Some(U64)
    ensures Typed(bit, VNum(n)) && ValueBytes(bit, VNum(n)) == PutU64(n)
  {
    hide AttrSchema, PutU64;
    SignedValue(true, false, n);
  }

  lemma {:induction false} TextTyped(bit: nat, s: Text)
    requires AttrSchema(bit) == Some(Str) && |s| < TWO32
    ensures Typed(bit, VBytes(s)) && ValueBytes(bit, VBytes(s)) == PutU32(|s|) + (s + Zeros(Padding(|s|)))
  {
    hide AttrSchema, PutU32, ValidUtf8;
  }

  /** A pair of numbers is the one after the other. */
  lemma {:induction false} PairEncodes(a: Schema, b: Schema, x: int, y: int)
    requires a.Num? && b.Num? && InRange(a.wide, a.signed, x) && InRange(b.wide, b.signed, y)
    ensures var s, v := Struct(FCons(None, a, FCons(None, b, FNil))), VStruct(VCons(VNum(x), VCons(VNum(y), VNil)));
      HasType(s, v) && Encode(s, v) == Ok(PutNum(a.wide, x) + PutNum(b.wide, y))
  {
    hide PutNum;
    var fs, vs := FCons(None, b, FNil), VCons(VNum(y), VNil);
    assert EncodeFields(FNil, VNil) == Ok([]);
    assert PutNum(b.wide, y) + [] == PutNum(b.wide, y);
    assert EncodeFields(fs, vs) == Ok(PutNum(b.wide, y));
  }

  lemma {:induction false} Words2Typed(bit: nat, x: u32, y: u32)
    requires AttrSchema(bit) == Some(PAIR32)
    ensures var v := PairV(Some((x, y))).value; Typed(bit, v) && ValueBytes(bit, v) == PutU32(x) + PutU32(y)
  {
    hide AttrSchema, PutU32;
    SignedValue(false, false, x);
    SignedValue(false, false, y);
    PairEncodes(U32, U32, x, y);
  }

  lemma {:induction false} Hypers2Typed(bit: nat, x: u64, y: u64)
    requires AttrSchema(bit) == Some(PAIR64)
    ensures var v := PairV(Some((x, y))).value; Typed(bit, v) && ValueBytes(bit, v) == PutU64(x) + PutU64(y)
  {
    hide AttrSchema, PutU64;
    SignedValue(true, false, x);
    SignedValue(true, false, y);
    PairEncodes(U64, U64, x, y);
  }

  lemma {:induction false} TimeTyped(bit: nat, t: Time)
    requires AttrSchema(bit) == Some(NFSTIME4)
    ensures var v := TimeV(Some(t)).value; Typed(bit, v) && ValueBytes(bit, v) == TimeOf(Some(t))
  {
    hide AttrSchema, PutU64, PutU32;
    SignedValue(false, false, t.nseconds);
    PairEncodes(I64, U32, t.seconds, t.nseconds);
    assert ToU64(t.seconds) == if t.seconds < 0 then t.seconds + TWO64 else t.seconds;
  }

  /** A value is there exactly when its bytes are, and they are its encoding. */
  ghost predicate Matches(bit: nat, v: Option<Value>, piece: Bytes) {
    if v.None? then piece == [] else piece != [] && Typed(bit, v.value) && ValueBytes(bit, v.value) == piece
  }

  lemma {:induction false} WordMatches(bit: nat, o: Option<u32>)
    requires AttrSchema(bit) == Some(U32)
    ensures Matches(bit, NumV(o), Word(o))
  {
    hide AttrSchema, PutU32, Typed, ValueBytes;
    if o.Some? {
      WordTyped(bit, o.value);
    }
  }

  lemma {:induction false} HyperMatches(bit: nat, o: Option<u64>)
    requires AttrSchema(bit) == Some(U64)
    ensures Matches(bit, NumV(o), Hyper(o))
  {
    hide AttrSchema, PutU64, Typed, ValueBytes;
    if o.Some? {
      HyperTyped(bit, o.value);
    }
  }

  lemma {:induction false} TextMatches(bit: nat, o: Option<Text>)
    requires AttrSchema(bit) == Some(Str) && (o.Some? ==> |o.value| < TWO32)
    ensures Matches(bit, TextV(o), String(o))
  {
    hide AttrSchema, PutU32, Typed, ValueBytes, ValidUtf8;
    if o.Some? {
      TextTyped(bit, o.value);
    }
  }

  lemma {:induction false} TimeMatches(bit: nat, o: Option<Time>)
    requires AttrSchema(bit) == Some(NFSTIME4)
    ensures Matches(bit, TimeV(o), TimeOf(o))
  {
    hide AttrSchema, PutU32, PutU64, Typed, ValueBytes;
    if o.Some? {
      TimeTyped(bit, o.value);
    }
  }

  lemma {:induction false} PairsMatch(a: Record)
    requires Encodable(a)
    ensures Matches(8, PairV(a.fsid), Hypers2(a.fsid)) && Matches(41, PairV(a.rawdev), Words2(a.rawdev))
  {
    hide PutU32, PutU64, Typed, ValueBytes;
    if a.fsid.Some? {
      Hypers2Typed(8, a.fsid.value.0, a.fsid.value.1);
    }
    if a.rawdev.Some? {
      Words2Typed(41, a.rawdev.value.0, a.rawdev.value.1);
    }
  }

  lemma {:induction false} AllMatch(a: Record, i: nat)
    requires Encodable(a) && i < 20
    ensures Matches(Numbers()[i], Vals(a)[i], Pieces(a)[i])
  {
    hide Matches, NumV, TextV, PairV, TimeV, Word, Hyper, String, Words2, Hypers2, TimeOf;
    PairsMatch(a);
    WordMatches(1, a.ftype);
    HyperMatches(3, a.change);
    HyperMatches(4, a.size);
    HyperMatches(20, a.fileid);
    HyperMatches(21, a.filesAvail);
    HyperMatches(22, a.filesFree);
    HyperMatches(23, a.filesTotal);
    WordMatches(33, a.mode);
    WordMatches(35, a.numlinks);
    TextMatches(36, a.owner);
    TextMatches(37, a.ownerGroup);
    HyperMatches(42, a.spaceAvail);
    HyperMatches(43, a.spaceFree);
    HyperMatches(44, a.spaceTotal);
    HyperMatches(45, a.spaceUsed);
    TimeMatches(47, a.timeAccess);
    TimeMatches(52, a.timeMetadata);
    TimeMatches(53, a.timeModify);
  }

  // --- The attribute list -----------------------------------------------------------------

  ghost predicate AllPresent(vs: seq<Option<Value>>, ps: seq<Bytes>) {
    |vs| == |ps| == 20 && forall i :: 0 <= i < 20 ==> Matches(Numbers()[i], vs[i], ps[i])
  }

  /** The number after those of the first `i` attributes. */
  function From(i: nat): nat
    requires i <= 20
  {
    if i == 0 then 0 else Numbers()[i - 1] as int + 1
  }

  /** The attributes after the first `i` are laid out from the number after the last of those. */
  lemma {:induction false} LayoutIsFlat(vs: seq<Option<Value>>, ps: seq<Bytes>, i: nat, end: nat)
    requires AllPresent(vs, ps) && i <= 20
    requires forall j :: 0 <= j < 20 && vs[j].Some? ==> Numbers()[j] < end
    requires From(i) <= end
    ensures WellTyped(MapFrom(vs, 0))
    ensures Layout(MapFrom(vs, 0), From(i), end) == Join(ps[i..])
    decreases 20 - i
  {
    hide Numbers, Typed, ValueBytes, Layout, MapFrom;
    var m := MapFrom(vs, 0);
    MapFromHas(vs, 0);
    MapTyped(vs, ps);
    var first := From(i);
    Gap(vs, i);
    if i == 20 {
      EmptyLayout(m, first, end);
    } else if Numbers()[i] >= end {
      NoneBeyond(vs, ps, i, end);
      EmptyLayout(m, first, end);
    } else {
      var bit: nat := Numbers()[i];
      First(i);
      SkipLayout(m, first, bit, end);
      LayoutStep(m, bit, end);
      LayoutIsFlat(vs, ps, i + 1, end);
      assert ps[i..][1..] == ps[i + 1..];
      AtNumber(vs, i);
    }
  }

  lemma {:induction false} MapTyped(vs: seq<Option<Value>>, ps: seq<Bytes>)
    requires AllPresent(vs, ps)
    ensures WellTyped(MapFrom(vs, 0))
  {
    hide Numbers, Typed, ValueBytes, MapFrom;
    var m := MapFrom(vs, 0);
    MapFromHas(vs, 0);
    forall bit | bit in m
      ensures Typed(bit, m[bit])
    {
      var j :| 0 <= j < 20 && Numbers()[j] == bit && vs[j].Some?;
      assert Matches(Numbers()[j], vs[j], ps[j]);
    }
  }

  lemma {:induction false} First(i: nat)
    requires i < 20
    ensures From(i) <= Numbers()[i]
  {
    hide Numbers;
    if i > 0 {
      Ascending(i - 1, i);
    }
  }

  /** Between one number and the next there is nothing. */
  lemma {:induction false} Gap(vs: seq<Option<Value>>, i: nat)
    requires |vs| == 20 && i <= 20
    ensures forall k :: k in MapFrom(vs, 0) && From(i) <= k ==> i < 20 && k >= Numbers()[i]
  {
    hide Numbers, MapFrom;
    MapFromHas(vs, 0);
    forall k | k in MapFrom(vs, 0) && From(i) <= k
      ensures i < 20 && k >= Numbers()[i]
    {
      var j :| 0 <= j < 20 && Numbers()[j] == k && vs[j].Some?;
      if j < i - 1 {
        Ascending(j, i - 1);
      } else if j > i {
        Ascending(i, j);
      }
    }
  }

  lemma {:induction false} AtNumber(vs: seq<Option<Value>>, i: nat)
    requires |vs| == 20 && i < 20
    ensures Numbers()[i] in MapFrom(vs, 0) <==> vs[i].Some?
    ensures vs[i].Some? ==> MapFrom(vs, 0)[Numbers()[i]] == vs[i].value
  {
    hide Numbers, MapFrom;
    MapFromHas(vs, 0);
    if Numbers()[i] in MapFrom(vs, 0) {
      var j :| 0 <= j < 20 && Numbers()[j] == Numbers()[i] && vs[j].Some?;
      if j < i {
        Ascending(j, i);
      } else if i < j {
        Ascending(i, j);
      }
    }
  }

  lemma {:induction false} NoneBeyond(vs: seq<Option<Value>>, ps: seq<Bytes>, i: nat, end: nat)
    requires AllPresent(vs, ps) && i < 20 && Numbers()[i] >= end
    requires forall j :: 0 <= j < 20 && vs[j].Some? ==> Numbers()[j] < end
    ensures Join(ps[i..]) == []
    ensures forall k :: k in MapFrom(vs, 0) ==> k < end
    decreases 20 - i
  {
    hide Numbers, Typed, ValueBytes, MapFrom;
    MapFromHas(vs, 0);
    assert Matches(Numbers()[i], vs[i], ps[i]);
    assert ps[i..][1..] == ps[i + 1..];
    if i + 1 < 20 {
      Ascending(i, i + 1);
      NoneBeyond(vs, ps, i + 1, end);
    }
  }

  // --- The bitmap -------------------------------------------------------------------------

  lemma {:induction false} ChosenHas(numbers: seq<u32>, ps: seq<Bytes>, bit: u32)
    requires |numbers| == |ps|
    ensures bit in Chosen(numbers, ps) <==> exists j :: 0 <= j < |ps| && numbers[j] == bit && ps[j] != []
  {
    if ps != [] {
      ChosenHas(numbers[1..], ps[1..], bit);
      if j :| 0 <= j < |ps| && numbers[j] == bit && ps[j] != [] {
        assert j > 0 ==> numbers[1..][j - 1] == bit && ps[1..][j - 1] != [];
      }
      if j :| 0 <= j < |ps[1..]| && numbers[1..][j] == bit && ps[1..][j] != [] {
        assert numbers[j + 1] == bit && ps[j + 1] != [];
      }
    }
  }

  lemma {:induction false} ChosenIsMap(vs: seq<Option<Value>>, ps: seq<Bytes>)
    requires AllPresent(vs, ps)
    ensures forall bit: nat :: bit in MapFrom(vs, 0) <==> bit < TWO32 && bit in Chosen(Numbers(), ps)
  {
    hide Numbers, MapFrom, Typed, ValueBytes, Chosen;
    MapFromHas(vs, 0);
    forall bit: nat
      ensures bit in MapFrom(vs, 0) <==> bit < TWO32 && bit in Chosen(Numbers(), ps)
    {
      if bit < TWO32 {
        ChosenHas(Numbers(), ps, bit);
      }
      assert forall j :: 0 <= j < 20 ==> Matches(Numbers()[j], vs[j], ps[j]);
    }
  }

  /**
   * Whatever attributes are present and whatever their values, their words in ascending order
   * under the bitmap of their numbers decode to a record with exactly these fields.
   */
  lemma {:induction false} RecordDecodes(a: Record, rest: Bytes)
    requires Encodable(a)
    ensures var r := DecodeAttrs(Bitmap(Chosen(Numbers(), Pieces(a))), Join(Pieces(a)) + rest);
      r.Ok? && RecordOf(r.value) == a
  {
    hide Pieces, Vals, Numbers, MapFrom, Join, Chosen, Bitmap, DecodeAttrs, Matches, RecordOf, WellTyped, Names, Layout;
    var vs, ps := Vals(a), Pieces(a);
    forall i | 0 <= i < 20
      ensures Matches(Numbers()[i], vs[i], ps[i])
    {
      AllMatch(a, i);
    }
    var bits := Chosen(Numbers(), ps);
    var m := MapFrom(vs, 0);
    ChosenIsMap(vs, ps);
    BitmapNames(bits, m);
    var end := 32 * |Bitmap(bits)|;
    Inside(vs, Bitmap(bits));
    LayoutIsFlat(vs, ps, 0, end);
    assert ps[0..] == ps;
    AttrsRoundTrip(Bitmap(bits), m, rest);
    RecordBack(a);
  }

  lemma {:induction false} Inside(vs: seq<Option<Value>>, bitmap: seq<u32>)
    requires |vs| == 20 && Names(bitmap, MapFrom(vs, 0))
    ensures forall j :: 0 <= j < 20 && vs[j].Some? ==> Numbers()[j] < 32 * |bitmap|
  {
    hide Numbers, MapFrom, BitSet;
    MapFromHas(vs, 0);
  }

  ghost predicate At(m: Attrs, bit: nat, v: Option<Value>) {
    (bit in m <==> v.Some?) && (v.Some? ==> m[bit] == v.value)
  }

  lemma {:induction false} WordBack(m: Attrs, bit: nat, o: Option<u32>)
    requires At(m, bit, NumV(o))
    ensures WordAt(m, bit) == o
  {
  }

  lemma {:induction false} HyperBack(m: Attrs, bit: nat, o: Option<u64>)
    requires At(m, bit, NumV(o))
    ensures HyperAt(m, bit) == o
  {
  }

  lemma {:induction false} TextBack(m: Attrs, bit: nat, o: Option<Text>)
    requires At(m, bit, TextV(o))
    ensures TextAt(m, bit) == o
  {
    hide ValidUtf8;
  }

  lemma {:induction false} PairsBack(m: Attrs, bit: nat)
    ensures forall o: Option<(u64, u64)> :: At(m, bit, PairV(o)) ==> Hypers2At(m, bit) == o
    ensures forall o: Option<(u32, u32)> :: At(m, bit, PairV(o)) ==> Words2At(m, bit) == o
    ensures forall o: Option<Time> :: At(m, bit, TimeV(o)) ==> TimeAt(m, bit) == o
  {
  }

  lemma {:induction false} AtIndex(vs: seq<Option<Value>>, i: nat, bit: nat)
    requires |vs| == 20 && i < 20 && Numbers()[i] == bit
    ensures At(MapFrom(vs, 0), bit, vs[i])
  {
    hide Numbers, MapFrom;
    AtNumber(vs, i);
  }

  /** Reading the fields off the map gives them back. */
  lemma {:induction false} RecordBack(a: Record)
    ensures RecordOf(MapFrom(Vals(a), 0)) == a
  {
    hide MapFrom, ValidUtf8, At, NumV, TextV, PairV, TimeV, WordAt, HyperAt, TextAt, Words2At, Hypers2At, TimeAt;
    var m := MapFrom(Vals(a), 0);
    FirstBack(a, m);
    MiddleBack(a, m);
    SecondBack(a, m);
  }

  lemma {:induction false} FirstBack(a: Record, m: Attrs)
    requires m == MapFrom(Vals(a), 0)
    ensures WordAt(m, 1) == a.ftype && HyperAt(m, 3) == a.change && HyperAt(m, 4) == a.size && Hypers2At(m, 8) == a.fsid
  {
    hide MapFrom, At, NumV, TextV, PairV, TimeV, WordAt, HyperAt, TextAt, Words2At, Hypers2At, TimeAt;
    var vs := Vals(a);
    AtIndex(vs, 0, 1);
    WordBack(m, 1, a.ftype);
    AtIndex(vs, 1, 3);
    HyperBack(m, 3, a.change);
    AtIndex(vs, 2, 4);
    HyperBack(m, 4, a.size);
    AtIndex(vs, 3, 8);
    PairsBack(m, 8);
  }

  lemma {:induction false} MiddleBack(a: Record, m: Attrs)
    requires m == MapFrom(Vals(a), 0)
    ensures HyperAt(m, 20) == a.fileid && HyperAt(m, 21) == a.filesAvail && HyperAt(m, 22) == a.filesFree
    ensures HyperAt(m, 23) == a.filesTotal && WordAt(m, 33) == a.mode && WordAt(m, 35) == a.numlinks
  {
    hide MapFrom, ValidUtf8, At, NumV, TextV, PairV, TimeV, WordAt, HyperAt, TextAt, Words2At, Hypers2At, TimeAt;
    var vs := Vals(a);
    AtIndex(vs, 4, 20);
    HyperBack(m, 20, a.fileid);
    AtIndex(vs, 5, 21);
    HyperBack(m, 21, a.filesAvail);
    AtIndex(vs, 6, 22);
    HyperBack(m, 22, a.filesFree);
    AtIndex(vs, 7, 23);
    HyperBack(m, 23, a.filesTotal);
    AtIndex(vs, 8, 33);
    WordBack(m, 33, a.mode);
    AtIndex(vs, 9, 35);
    WordBack(m, 35, a.numlinks);
  }

  lemma {:induction false} SecondBack(a: Record, m: Attrs)
    requires m == MapFrom(Vals(a), 0)
    ensures TextAt(m, 36) == a.owner && TextAt(m, 37) == a.ownerGroup && Words2At(m, 41) == a.rawdev
    ensures HyperAt(m, 42) == a.spaceAvail && HyperAt(m, 43) == a.spaceFree && HyperAt(m, 44) == a.spaceTotal
    ensures HyperAt(m, 45) == a.spaceUsed && TimeAt(m, 47) == a.timeAccess && TimeAt(m, 52) == a.timeMetadata
    ensures TimeAt(m, 53) == a.timeModify
  {
    hide MapFrom, ValidUtf8, At, NumV, TextV, PairV, TimeV, WordAt, HyperAt, TextAt, Words2At, Hypers2At, TimeAt;
    var vs := Vals(a);
    AtIndex(vs, 10, 36);
    TextBack(m, 36, a.owner);
    AtIndex(vs, 11, 37);
    TextBack(m, 37, a.ownerGroup);
    AtIndex(vs, 12, 41);
    PairsBack(m, 41);
    AtIndex(vs, 13, 42);
    HyperBack(m, 42, a.spaceAvail);
    AtIndex(vs, 14, 43);
    HyperBack(m, 43, a.spaceFree);
    AtIndex(vs, 15, 44);
    HyperBack(m, 44, a.spaceTotal);
    AtIndex(vs, 16, 45);
    HyperBack(m, 45, a.spaceUsed);
    AtIndex(vs, 17, 47);
    PairsBack(m, 47);
    AtIndex(vs, 18, 52);
    PairsBack(m, 52);
    AtIndex(vs, 19, 53);
    PairsBack(m, 53);
  }

  /** And no other attribute is ever decoded. */
  lemma {:induction false} OnlyTheseDecode(bitmap: seq<u32>, b: Bytes, bit: nat)
    requires DecodeAttrs(bitmap, b).Ok? && BitSet(bitmap, bit)
    ensures bit in Numbers()
  {
    hide DecodeAttrs, BitSet, Encode;
    DecodeAttrsExact(bitmap, b);
    assert bit < 32 * |bitmap| by { BitInside(bitmap, bit); }
    assert Typed(bit, DecodeAttrs(bitmap, b).value[bit]);
  }

  lemma {:induction false} BitInside(bitmap: seq<u32>, bit: nat)
    requires BitSet(bitmap, bit)
    ensures bit < 32 * |bitmap|
  {
  }
}
