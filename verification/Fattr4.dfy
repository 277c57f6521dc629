/**
 * NFSv4 attribute bitmaps and `fattr4`: a set of attribute numbers packed into words, and their
 * values laid out in ascending order of number.
 */
module Fattr4 {
  import opened Wire
  import opened Xdr
  import opened XdrTheorems

  // --- Bits -------------------------------------------------------------------------------

  /** `(w >> k) & 1 == 1`, shifting one place at a time. */
  predicate BitOf(w: nat, k: nat) {
    if k == 0 then w % 2 == 1 else BitOf(w / 2, k - 1)
  }

  /** `w | 1 << k`, digit by binary digit. */
  function OrBit(w: nat, k: nat): nat {
    if k == 0 then w / 2 * 2 + 1 else OrBit(w / 2, k - 1) * 2 + w % 2
  }

  function Pow2(n: nat): nat {
    if n == 0 then 1 else 2 * Pow2(n - 1)
  }

  lemma {:induction false} OrBitSets(w: nat, k: nat, j: nat)
    ensures BitOf(OrBit(w, k), j) <==> j == k || BitOf(w, j)
  {
    if k > 0 && j > 0 {
      OrBitSets(w / 2, k - 1, j - 1);
    }
  }

  lemma {:induction false} OrBitFits(w: nat, k: nat, n: nat)
    requires w < Pow2(n) && k < n
    ensures OrBit(w, k) < Pow2(n)
  {
    if k > 0 {
      OrBitFits(w / 2, k - 1, n - 1);
    }
  }

  lemma {:induction false} NoBits(k: nat)
    ensures !BitOf(0, k)
  {
    if k > 0 {
      NoBits(k - 1);
    }
  }

  lemma {:induction false} Pow2Of32()
    ensures Pow2(32) == TWO32
  {
    assert Pow2(8) == 256;
    assert Pow2(16) == 65536;
    assert Pow2(24) == 16777216;
  }

  function OrWord(w: u32, k: nat): u32
    requires k < 32
  {
    Pow2Of32();
    OrBitFits(w, k, 32);
    OrBit(w, k)
  }

  /** `bit_set`. */
  predicate BitSet(bitmap: seq<u32>, bit: nat) {
    bit / 32 < |bitmap| && BitOf(bitmap[bit / 32], bit % 32)
  }

  function MaxWord(bits: seq<u32>): nat {
    if bits == [] then 0
    else
      var rest, last := MaxWord(bits[..|bits| - 1]), bits[|bits| - 1] / 32;
      if last > rest then last else rest
  }

  /** The words after the listed bits have been turned on, from the left. */
  function WithBits(words: seq<u32>, bits: seq<u32>): (r: seq<u32>)
    requires forall i :: 0 <= i < |bits| ==> bits[i] / 32 < |words|
    ensures |r| == |words|
  {
    if bits == [] then words
    else
      var before := WithBits(words, bits[..|bits| - 1]);
      var bit := bits[|bits| - 1];
      before[bit / 32 := OrWord(before[bit / 32], bit % 32)]
  }

  lemma {:induction false} MaxWordBounds(bits: seq<u32>)
    ensures forall i :: 0 <= i < |bits| ==> bits[i] / 32 <= MaxWord(bits)
  {
    if bits != [] {
      MaxWordBounds(bits[..|bits| - 1]);
    }
  }

  function Bitmap(bits: seq<u32>): (words: seq<u32>)
    ensures |words| == MaxWord(bits) + 1
  {
    MaxWordBounds(bits);
    WithBits(seq(MaxWord(bits) + 1, _ => 0), bits)
  }

  lemma {:induction false} WithBitsSets(words: seq<u32>, bits: seq<u32>, bit: u32)
    requires forall i :: 0 <= i < |bits| ==> bits[i] / 32 < |words|
    ensures BitSet(WithBits(words, bits), bit) <==> bit in bits || BitSet(words, bit)
  {
    if bits != [] {
      var init, last := bits[..|bits| - 1], bits[|bits| - 1];
      WithBitsSets(words, init, bit);
      assert bit in bits <==> bit in init || bit == last by {
        assert bits == init + [last];
      }
      if bit / 32 == last / 32 {
        OrBitSets(WithBits(words, init)[last / 32], last % 32, bit % 32);
      }
    }
  }

  /** `bit_set` holds of exactly the listed bits. */
  lemma {:induction false} BitmapExact(bits: seq<u32>, bit: u32)
    ensures BitSet(Bitmap(bits), bit) <==> bit in bits
  {
    MaxWordBounds(bits);
    WithBitsSets(seq(MaxWord(bits) + 1, _ => 0), bits, bit);
    NoBits(bit % 32);
  }

  /** One bit alone is a power of two, in the word that its number says. */
  lemma {:induction false} SingleBit(bit: u32)
    ensures var words := Bitmap([bit]);
      && |words| == bit / 32 + 1 && words[bit / 32] == Pow2(bit % 32)
      && forall i :: 0 <= i < bit / 32 ==> words[i] == 0
  {
    hide Pow2, OrBit;
    assert [bit][..0] == [];
    assert MaxWord([bit]) == bit / 32;
    OrZero(bit % 32);
    var zeros: seq<u32> := seq(bit / 32 + 1, _ => 0);
    assert WithBits(zeros, []) == zeros;
    assert WithBits(zeros, [bit]) == zeros[bit / 32 := OrWord(0, bit % 32)];
    assert Bitmap([bit]) == WithBits(zeros, [bit]) by {
      MaxWordBounds([bit]);
    }
  }

  lemma {:induction false} OrZero(k: nat)
    ensures OrBit(0, k) == Pow2(k)
  {
    if k > 0 {
      OrZero(k - 1);
    }
  }

  /** `build_bitmap`: the widest word decides the length, then each bit is or-ed in. */
  method BuildBitmap(bits: seq<u32>) returns (words: seq<u32>)
    ensures words == Bitmap(bits)
    ensures forall bit: u32 :: BitSet(words, bit) <==> bit in bits
  {
    var maxWord := 0;
    for i := 0 to |bits|
      invariant maxWord == MaxWord(bits[..i])
    {
      assert bits[..i + 1][..i] == bits[..i];
      if bits[i] / 32 > maxWord {
        maxWord := bits[i] / 32;
      }
    }
    assert bits[..|bits|] == bits;
    MaxWordBounds(bits);
    ghost var zeros := seq(maxWord + 1, _ => 0);
    words := seq(maxWord + 1, _ => 0);
    for i := 0 to |bits|
      invariant words == WithBits(zeros, bits[..i])
    {
      assert bits[..i + 1][..i] == bits[..i];
      words := words[bits[i] / 32 := OrWord(words[bits[i] / 32], bits[i] % 32)];
    }
    forall bit: u32
      ensures BitSet(words, bit) <==> bit in bits
    {
      BitmapExact(bits, bit);
    }
  }

  // --- Attributes -------------------------------------------------------------------------

  const PAIR64: Schema := Struct(FCons(None, U64, FCons(None, U64, FNil)))
  const PAIR32: Schema := Struct(FCons(None, U32, FCons(None, U32, FNil)))
  const NFSTIME4: Schema := Struct(FCons(None, I64, FCons(None, U32, FNil)))

  /** The attributes the client can decode, by number, and the type of each. */
  function AttrSchema(bit: nat): Option<Schema> {
    match bit
    case 1 => Some(U32) // type
    case 3 => Some(U64) // change
    case 4 => Some(U64) // size
    case 8 => Some(PAIR64) // fsid
    case 20 => Some(U64) // fileid
    case 21 => Some(U64) // files_avail
    case 22 => Some(U64) // files_free
    case 23 => Some(U64) // files_total
    case 33 => Some(U32) // mode
    case 35 => Some(U32) // numlinks
    case 36 => Some(Str) // owner
    case 37 => Some(Str) // owner_group
    case 41 => Some(PAIR32) // rawdev
    case 42 => Some(U64) // space_avail
    case 43 => Some(U64) // space_free
    case 44 => Some(U64) // space_total
    case 45 => Some(U64) // space_used
    case 47 => Some(NFSTIME4) // time_access
    case 52 => Some(NFSTIME4) // time_metadata
    case 53 => Some(NFSTIME4) // time_modify
    case _ => None
  }

  lemma {:induction false} AttrSchemasWellFormed(bit: nat)
    ensures AttrSchema(bit).Some? ==> WellFormed(AttrSchema(bit).value)
  {
  }

  /** `Fattr4`: the fields that are present, by attribute number. */
  type Attrs = map<nat, Value>

  datatype FattrError = BadAttr(xdr: XdrError) | Unsupported

  /** `decode_fattr4` from attribute `bit` on, with `out` filled in so far. */
  function DecodeFrom(bitmap: seq<u32>, bit: nat, b: Bytes, out: Attrs): Result<Attrs, FattrError>
    decreases 32 * |bitmap| - bit
  {
    if bit >= 32 * |bitmap| then Ok(out)
    else if !BitSet(bitmap, bit) then DecodeFrom(bitmap, bit + 1, b, out)
    else
      match AttrSchema(bit)
      case None => Err(Unsupported)
      case Some(s) =>
        match Decode(s, b)
        case Err(e) => Err(BadAttr(e))
        case Ok((v, rest)) => DecodeFrom(bitmap, bit + 1, rest, out[bit := v])
  }

  function DecodeAttrs(bitmap: seq<u32>, b: Bytes): Result<Attrs, FattrError> {
    DecodeFrom(bitmap, 0, b, map[])
  }

  /** `decode_fattr4`, as the loop it is. */
  method DecodeFattr4(bitmap: seq<u32>, attrs: Bytes) returns (r: Result<Attrs, FattrError>)
    ensures r == DecodeAttrs(bitmap, attrs)
  {
    hide Decode, BitSet, AttrSchema;
    var out: Attrs := map[];
    var b := attrs;
    for bit := 0 to 32 * |bitmap|
      invariant DecodeAttrs(bitmap, attrs) == DecodeFrom(bitmap, bit, b, out)
    {
      if !BitSet(bitmap, bit) {
        continue;
      }
      var s := AttrSchema(bit);
      if s.None? {
        return Err(Unsupported);
      }
      var decoded := Decode(s.value, b);
      if decoded.Err? {
        return Err(BadAttr(decoded.error));
      }
      out := out[bit := decoded.value.0];
      b := decoded.value.1;
    }
    r := Ok(out);
  }

  ghost predicate Typed(bit: nat, v: Value) {
    AttrSchema(bit).Some? && HasType(AttrSchema(bit).value, v) && Encode(AttrSchema(bit).value, v).Ok?
  }

  ghost predicate WellTyped(attrs: Attrs) {
    forall bit :: bit in attrs ==> Typed(bit, attrs[bit])
  }

  ghost function ValueBytes(bit: nat, v: Value): Bytes
    requires Typed(bit, v)
  {
    Encode(AttrSchema(bit).value, v).value
  }

  /** The values from attribute `bit` on, in ascending order. */
  ghost function Layout(attrs: Attrs, bit: nat, end: nat): Bytes
    requires WellTyped(attrs) && bit <= end
    decreases end - bit
  {
    if bit == end then []
    else (if bit in attrs then ValueBytes(bit, attrs[bit]) else []) + Layout(attrs, bit + 1, end)
  }

  /** The bitmap names exactly the attributes present. */
  ghost predicate Names(bitmap: seq<u32>, attrs: Attrs) {
    && (forall bit :: bit in attrs ==> bit < 32 * |bitmap|)
    && forall bit :: 0 <= bit < 32 * |bitmap| ==> (BitSet(bitmap, bit) <==> bit in attrs)
  }

  function Below(attrs: Attrs, bit: nat): Attrs {
    map b | b in attrs && b < bit :: attrs[b]
  }

  lemma {:induction false} DecodeLayout(bitmap: seq<u32>, attrs: Attrs, bit: nat, rest: Bytes)
    requires WellTyped(attrs) && Names(bitmap, attrs) && bit <= 32 * |bitmap|
    ensures DecodeFrom(bitmap, bit, Layout(attrs, bit, 32 * |bitmap|) + rest, Below(attrs, bit)) == Ok(attrs)
    decreases 32 * |bitmap| - bit
  {
    hide Decode, Encode, BitSet, AttrSchema;
    var end := 32 * |bitmap|;
    if bit == end {
      assert Below(attrs, bit) == attrs;
    } else {
      var tail := Layout(attrs, bit + 1, end);
      DecodeLayout(bitmap, attrs, bit + 1, rest);
      if bit in attrs {
        var v := attrs[bit];
        Assoc(ValueBytes(bit, v), tail, rest);
        AttrSchemasWellFormed(bit);
        RoundTrip(AttrSchema(bit).value, v, tail + rest);
        assert Below(attrs, bit)[bit := v] == Below(attrs, bit + 1);
      } else {
        assert [] + tail == tail;
        assert Below(attrs, bit) == Below(attrs, bit + 1);
      }
    }
  }

  /**
   * Any subset of the supported attributes, with any values, laid out in ascending order under
   * a bitmap that names it, decodes to exactly those attributes; trailing bytes are ignored.
   */
  lemma {:induction false} AttrsRoundTrip(bitmap: seq<u32>, attrs: Attrs, rest: Bytes)
    requires WellTyped(attrs) && Names(bitmap, attrs)
    ensures DecodeAttrs(bitmap, Layout(attrs, 0, 32 * |bitmap|) + rest) == Ok(attrs)
  {
    hide DecodeFrom, Layout;
    DecodeLayout(bitmap, attrs, 0, rest);
    assert Below(attrs, 0) == map[];
  }

  /** `build_bitmap` of a list of the attributes present is such a bitmap, in any order. */
  lemma {:induction false} BitmapNames(bits: seq<u32>, attrs: Attrs)
    requires forall bit: nat :: bit in attrs <==> bit < TWO32 && bit in bits
    ensures Names(Bitmap(bits), attrs)
  {
    hide Bitmap, BitSet;
    var words := Bitmap(bits);
    MaxWordBounds(bits);
    forall bit: nat | bit < 32 * |words|
      ensures BitSet(words, bit) <==> bit in attrs
    {
      MaxWordSmall(bits);
      BitmapExact(bits, bit);
    }
    forall bit | bit in attrs
      ensures bit < 32 * |words|
    {
      var i :| 0 <= i < |bits| && bits[i] == bit;
      assert bits[i] / 32 <= MaxWord(bits);
    }
  }

  lemma {:induction false} MaxWordSmall(bits: seq<u32>)
    ensures 32 * (MaxWord(bits) + 1) <= TWO32
  {
    if bits != [] {
      MaxWordSmall(bits[..|bits| - 1]);
    }
  }

  /** Conversely, success yields exactly the named attributes, each of its type. */
  lemma {:induction false} DecodedAttrs(bitmap: seq<u32>, bit: nat, b: Bytes, out: Attrs)
    requires DecodeFrom(bitmap, bit, b, out).Ok? && WellTyped(out) && bit <= 32 * |bitmap|
    requires forall k :: k in out <==> 0 <= k < bit && BitSet(bitmap, k)
    ensures var attrs := DecodeFrom(bitmap, bit, b, out).value;
      WellTyped(attrs) && Names(bitmap, attrs)
    decreases 32 * |bitmap| - bit
  {
    hide Decode, Encode, BitSet, AttrSchema, HasType;
    if bit < 32 * |bitmap| {
      if !BitSet(bitmap, bit) {
        DecodedAttrs(bitmap, bit + 1, b, out);
      } else {
        var s := AttrSchema(bit).value;
        var (v, rest) := Decode(s, b).value;
        Exactness(s, b, v, rest);
        DecodedAttrs(bitmap, bit + 1, rest, out[bit := v]);
      }
    }
  }

  lemma {:induction false} DecodeAttrsExact(bitmap: seq<u32>, b: Bytes)
    requires DecodeAttrs(bitmap, b).Ok?
    ensures WellTyped(DecodeAttrs(bitmap, b).value) && Names(bitmap, DecodeAttrs(bitmap, b).value)
  {
    hide DecodeFrom;
    DecodedAttrs(bitmap, 0, b, map[]);
  }

  // --- SETATTR ----------------------------------------------------------------------------

  const FATTR4_SIZE: u32 := 4
  const FATTR4_MODE: u32 := 33

  datatype SetAttr4 = SetAttr4(mode: Option<u32>, size: Option<u64>)

  function SetBits(a: SetAttr4): seq<u32> {
    (if a.size.Some? then [FATTR4_SIZE] else []) + (if a.mode.Some? then [FATTR4_MODE] else [])
  }

  function SetValues(a: SetAttr4): (b: Bytes)
    ensures |b| <= 12
  {
    (if a.size.Some? then PutU64(a.size.value) else []) + (if a.mode.Some? then PutU32(a.mode.value) else [])
  }

  /** The attributes a `SetAttr4` asks for. */
  function Requested(a: SetAttr4): Attrs {
    (if a.size.Some? then map[FATTR4_SIZE := VNum(a.size.value)] else map[]) +
    (if a.mode.Some? then map[FATTR4_MODE := VNum(a.mode.value)] else map[])
  }

  /** `encode_setattr_fattr4`: bitmap, then the values as an opaque attribute list. */
  function EncodeSetattr(a: SetAttr4): Bytes {
    SetBitmapSmall(a);
    PutWords(Bitmap(SetBits(a))) + (PutU32(|SetValues(a)|) + (SetValues(a) + Zeros(Padding(|SetValues(a)|))))
  }

  lemma {:induction false} SetBitmapSmall(a: SetAttr4)
    ensures |Bitmap(SetBits(a))| == if a.mode.Some? then 2 else 1
  {
    var bits := SetBits(a);
    if |bits| == 2 {
      var first := bits[..1];
      assert first == [FATTR4_SIZE] && first[..0] == [];
      assert MaxWord(first) == 0;
      assert MaxWord(bits) == bits[1] / 32;
    } else if |bits| == 1 {
      assert bits[..0] == [];
      assert MaxWord(bits) == bits[0] / 32;
    }
  }

  /** `CompoundReader::fattr4`: bitmap and attribute list, then the attributes in it. */
  function ReadFattr4(b: Bytes): Result<(Attrs, Bytes), FattrError> {
    match Decode(Array(U32), b)
    case Err(e) => Err(BadAttr(e))
    case Ok((words, rest)) =>
      match DecodeOpaque(None, rest)
      case Err(e) => Err(BadAttr(e))
      case Ok((list, end)) =>
        Exactness(Array(U32), b, words, rest);
        var attrs :- DecodeAttrs(AsWords(words.items), list);
        Ok((attrs, end))
  }

  function AsWords(items: seq<Value>): seq<u32>
    requires forall i :: 0 <= i < |items| ==> HasType(U32, items[i])
  {
    seq<u32>(|items|, i requires 0 <= i < |items| && HasType(U32, items[i]) => items[i].n)
  }

  lemma {:induction false} EmptyLayout(attrs: Attrs, bit: nat, end: nat)
    requires WellTyped(attrs) && bit <= end && forall k :: bit <= k < end ==> k !in attrs
    ensures Layout(attrs, bit, end) == []
    decreases end - bit
  {
    hide WellTyped, Typed;
    if bit < end {
      EmptyLayout(attrs, bit + 1, end);
    }
  }

  lemma {:induction false} SkipLayout(attrs: Attrs, bit: nat, mid: nat, end: nat)
    requires WellTyped(attrs) && bit <= mid <= end && forall k :: bit <= k < mid ==> k !in attrs
    ensures Layout(attrs, bit, end) == Layout(attrs, mid, end)
    decreases mid - bit
  {
    hide WellTyped, Typed;
    if bit < mid {
      SkipLayout(attrs, bit + 1, mid, end);
      assert [] + Layout(attrs, bit + 1, end) == Layout(attrs, bit + 1, end);
    }
  }

  lemma {:induction false} RequestedTyped(a: SetAttr4)
    ensures WellTyped(Requested(a))
    ensures a.size.Some? ==> ValueBytes(4, Requested(a)[4]) == PutU64(a.size.value)
    ensures a.mode.Some? ==> ValueBytes(33, Requested(a)[33]) == PutU32(a.mode.value)
  {
    if a.size.Some? {
      SignedValue(true, false, a.size.value);
    }
    if a.mode.Some? {
      SignedValue(false, false, a.mode.value);
    }
  }

  /** The two values, in ascending order of attribute number, are the layout. */
  lemma {:induction false} SetLayout(a: SetAttr4, end: nat)
    requires end == if a.mode.Some? then 64 else 32
    ensures WellTyped(Requested(a)) && Layout(Requested(a), 0, end) == SetValues(a)
  {
    hide ValueBytes, PutU32, PutU64, Layout, WellTyped;
    RequestedTyped(a);
    var attrs := Requested(a);
    SkipLayout(attrs, 0, 4, end);
    LayoutStep(attrs, 4, end);
    if a.mode.Some? {
      SkipLayout(attrs, 5, 33, end);
      LayoutStep(attrs, 33, end);
      EmptyLayout(attrs, 34, end);
      assert PutU32(a.mode.value) + [] == PutU32(a.mode.value);
    } else {
      EmptyLayout(attrs, 5, end);
    }
  }

  lemma {:induction false} LayoutStep(attrs: Attrs, bit: nat, end: nat)
    requires WellTyped(attrs) && bit < end
    ensures Layout(attrs, bit, end) ==
      (if bit in attrs then ValueBytes(bit, attrs[bit]) else []) + Layout(attrs, bit + 1, end)
  {
  }

  /** Under its bitmap, the attribute list of a `SetAttr4` holds exactly what it asks for. */
  lemma {:induction false} SetattrDecodes(a: SetAttr4)
    ensures DecodeAttrs(Bitmap(SetBits(a)), SetValues(a)) == Ok(Requested(a))
  {
    hide DecodeFrom, Bitmap, Layout, SetValues, Requested, WellTyped, Names;
    SetBitmapSmall(a);
    RequestedBits(a);
    BitmapNames(SetBits(a), Requested(a));
    SetLayout(a, 32 * |Bitmap(SetBits(a))|);
    AttrsRoundTrip(Bitmap(SetBits(a)), Requested(a), []);
    assert SetValues(a) + [] == SetValues(a);
  }

  /** Every `SetAttr4` the client writes reads back as exactly what it asks for. */
  lemma {:induction false} SetattrRoundTrip(a: SetAttr4, rest: Bytes)
    ensures ReadFattr4(EncodeSetattr(a) + rest) == Ok((Requested(a), rest))
  {
    hide Decode, DecodeOpaque, Bitmap, PutWords, Layout, DecodeFrom, SetValues, Requested, WellTyped, Names;
    var bits, values := SetBits(a), SetValues(a);
    var words := Bitmap(bits);
    SetBitmapSmall(a);
    WordsAreArray(words);
    var list := EncodeOpaque(values, None).value;
    assert list == PutU32(|values|) + Padded(values);
    Assoc(PutWords(words), list, rest);
    RoundTrip(Array(U32), VArray(Words(words)), list + rest);
    OpaqueRoundTrip(values, None, rest);
    assert AsWords(Words(words)) == words;
    SetattrDecodes(a);
  }

  lemma {:induction false} RequestedBits(a: SetAttr4)
    ensures forall bit: nat :: bit in Requested(a) <==> bit < TWO32 && bit in SetBits(a)
  {
  }
}
