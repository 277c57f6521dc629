/**
 * What the codec guarantees for every schema: decoding undoes encoding whatever follows,
 * encodings delimit themselves, a decoded value re-encodes to the bytes it came from up to
 * padding, and no strict prefix of an encoding is accepted.
 */
module XdrTheorems {
  import opened Wire
  import opened Xdr

  // --- Primitive layouts ------------------------------------------------------------------

  lemma {:induction false} SignedValue(wide: bool, signed: bool, n: int)
    requires InRange(wide, signed, n)
    ensures wide && signed ==> ToI64(ToU64(n)) == n
    ensures wide && !signed ==> ToU64(n) == n
    ensures !wide && signed ==> ToI32(ToU32(n)) == n
    ensures !wide && !signed ==> ToU32(n) == n
  {
  }

  lemma {:induction false} NumRoundTrip(wide: bool, signed: bool, n: int, rest: Bytes)
    requires InRange(wide, signed, n)
    ensures DecodeNum(wide, signed, PutNum(wide, n) + rest) == Ok((VNum(n), rest))
  {
    SignedValue(wide, signed, n);
    if wide {
      GetPutU64(ToU64(n), rest);
      assert (PutU64(ToU64(n)) + rest)[8..] == rest;
    } else {
      GetPutU32(ToU32(n), rest);
      assert (PutU32(ToU32(n)) + rest)[4..] == rest;
    }
  }

  lemma {:induction false} U32RoundTrip(n: u32, rest: Bytes)
    ensures DecodeU32(PutU32(n) + rest) == Ok((n, rest))
  {
    GetPutU32(n, rest);
    assert (PutU32(n) + rest)[4..] == rest;
  }

  lemma {:induction false} BoolRoundTrip(x: bool, rest: Bytes)
    ensures DecodeBool(PutU32(if x then 1 else 0) + rest) == Ok((x, rest))
  {
    U32RoundTrip(if x then 1 else 0, rest);
  }

  lemma {:induction false} FixedRoundTrip(data: Bytes, rest: Bytes)
    ensures DecodeFixed(|data|, Padded(data) + rest) == Ok((data, rest))
  {
    var b := Padded(data) + rest;
    assert b[..|data|] == data;
    assert b[|data| + Padding(|data|)..] == rest;
  }

  lemma {:induction false} OpaqueRoundTrip(data: Bytes, limit: Option<nat>, rest: Bytes)
    requires EncodeOpaque(data, limit).Ok?
    ensures DecodeOpaque(limit, EncodeOpaque(data, limit).value + rest) == Ok((data, rest))
  {
    hide PutU32, GetU32;
    U32RoundTrip(|data|, Padded(data) + rest);
    Assoc(PutU32(|data|), Padded(data), rest);
    FixedRoundTrip(data, rest);
  }

  /** The number that bytes spell, most significant first (section 4.1 of RFC 4506). */
  function Positional(b: Bytes): nat {
    if b == [] then 0 else Positional(b[..|b| - 1]) * 0x100 + b[|b| - 1]
  }

  lemma {:induction false} PositionalConcat(a: Bytes, b: Bytes)
    requires |b| == 4
    ensures Positional(a + b) == Positional(a) * TWO32 + Positional(b)
  {
    var c := a + b;
    assert c[..|c| - 1] == a + b[..3] && (a + b[..3])[..|a| + 2] == a + b[..2];
    assert (a + b[..2])[..|a| + 1] == a + b[..1] && (a + b[..1])[..|a|] == a;
    assert b[..3][..2] == b[..2] && b[..2][..1] == b[..1] && b[..1][..0] == [];
    assert Positional(a + b[..1]) == Positional(a) * 0x100 + b[0];
    assert Positional(a + b[..2]) == Positional(a + b[..1]) * 0x100 + b[1];
    assert Positional(a + b[..3]) == Positional(a + b[..2]) * 0x100 + b[2];
    assert Positional(b[..1]) == b[0];
    assert Positional(b[..2]) == Positional(b[..1]) * 0x100 + b[1];
    assert Positional(b[..3]) == Positional(b[..2]) * 0x100 + b[2];
  }

  lemma {:induction false} WordLayout(n: u32)
    ensures Positional(PutU32(n)) == n
  {
    var b := PutU32(n);
    assert b[..3][..2] == b[..2] && b[..2][..1] == b[..1] && b[..1][..0] == [];
    assert Positional(b[..1]) == b[0];
    assert Positional(b[..2]) == Positional(b[..1]) * 0x100 + b[1];
    assert Positional(b[..3]) == Positional(b[..2]) * 0x100 + b[2];
    assert Positional(b) == Positional(b[..3]) * 0x100 + b[3];
  }

  /** Integers are big-endian, and negative ones two's complement. */
  lemma {:induction false} IntegerLayout(wide: bool, signed: bool, n: int)
    requires InRange(wide, signed, n)
    ensures var r := Encode(Num(wide, signed), VNum(n));
      && r.Ok? && |r.value| == (if wide then 8 else 4)
      && Positional(r.value) == if n >= 0 then n else n + if wide then TWO64 else TWO32
  {
    hide PutU32, Positional;
    if wide {
      var u := ToU64(n);
      WordLayout(u / TWO32);
      WordLayout(u % TWO32);
      PositionalConcat(PutU32(u / TWO32), PutU32(u % TWO32));
    } else {
      WordLayout(ToU32(n));
    }
  }

  /** Opaque data comes after its length and before the zeros that fill the last unit. */
  lemma {:induction false} OpaqueLayout(data: Bytes)
    requires |data| < TWO32
    ensures var e := EncodeOpaque(data, None).value;
      && |e| % 4 == 0 && 4 + |data| <= |e| < 4 + |data| + 4
      && Positional(e[..4]) == |data|
      && e[4..4 + |data|] == data
      && forall i :: 4 + |data| <= i < |e| ==> e[i] == 0
  {
    hide PutU32, Positional;
    WordLayout(|data|);
    var e := EncodeOpaque(data, None).value;
    SumAligned(4, |Padded(data)|);
    assert e[..4] == PutU32(|data|);
    assert e[4..4 + |data|] == data;
    assert forall i :: 4 + |data| <= i < |e| ==> e[i] == Zeros(Padding(|data|))[i - 4 - |data|];
  }

  /** `false` and `true` are the words 0 and 1. */
  lemma {:induction false} BoolLayout(x: bool)
    ensures Encode(Bool, VBool(x)) == Ok(PutU32(if x then 1 else 0))
  {
  }

  /** Optional data is `false`, or `true` and the data. */
  lemma {:induction false} OptionalLayout(elem: Schema, v: Value)
    requires HasType(elem, v)
    ensures Encode(Optional(elem), VNone) == Ok(PutU32(0))
    ensures match Encode(elem, v)
      case Ok(b) => Encode(Optional(elem), VSome(v)) == Ok(PutU32(1) + b)
      case Err(e) => Encode(Optional(elem), VSome(v)) == Err(e)
  {
    hide PutU32, HasType;
    assert HasType(Optional(elem), VSome(v)) && HasType(Optional(elem), VNone) by { OptionalTyped(elem, v); }
  }

  lemma {:induction false} OptionalTyped(elem: Schema, v: Value)
    requires HasType(elem, v)
    ensures HasType(Optional(elem), VSome(v)) && HasType(Optional(elem), VNone)
  {
  }

  /** The encodings of the elements, in order. */
  ghost predicate Parts(elem: Schema, items: seq<Value>, parts: seq<Bytes>) {
    |parts| == |items| && forall i :: 0 <= i < |items| ==> HasType(elem, items[i]) && Encode(elem, items[i]) == Ok(parts[i])
  }

  lemma {:induction false} ItemsLayout(elem: Schema, items: seq<Value>, parts: seq<Bytes>)
    requires Parts(elem, items, parts)
    ensures EncodeItems(elem, items) == Ok(Join(parts))
  {
    hide Encode, HasType;
    if items != [] {
      ItemsLayout(elem, items[1..], parts[1..]);
    }
  }

  /** An array is its count and then its elements in order. */
  lemma {:induction false} ArrayLayout(elem: Schema, items: seq<Value>, parts: seq<Bytes>)
    requires Parts(elem, items, parts) && |items| < TWO32
    ensures HasType(Array(elem), VArray(items)) && Encode(Array(elem), VArray(items)) == Ok(PutU32(|items|) + Join(parts))
  {
    hide PutU32;
    ItemsLayout(elem, items, parts);
  }

  /** A linked list is `true` and an element for each, and `false`. */
  function Nodes(parts: seq<Bytes>): Bytes {
    if parts == [] then PutU32(0) else PutU32(1) + (parts[0] + Nodes(parts[1..]))
  }

  lemma {:induction false} LinkedLayout(elem: Schema, items: seq<Value>, parts: seq<Bytes>)
    requires Parts(elem, items, parts)
    ensures EncodeLinked(elem, items) == Ok(Nodes(parts))
  {
    hide Encode, HasType, PutU32;
    if items != [] {
      LinkedLayout(elem, items[1..], parts[1..]);
    }
  }

  /** An enum is the word of its value. */
  lemma {:induction false} EnumLayout(discs: seq<i32>, i: nat)
    requires i < |discs|
    ensures Encode(Enum32(discs), VEnum(i)) == Encode(I32, VNum(discs[i]))
  {
    hide PutU32;
  }

  /** A struct is its fields in order, each within its limit. */
  lemma {:induction false} StructLayout(limit: Option<nat>, s: Schema, v: Value, fs: Fields, vs: Values)
    requires HasType(s, v) && HaveTypes(fs, vs)
    ensures var len := if v.VBytes? then |v.bytes| else if v.VArray? then |v.items| else 0;
      var r := EncodeFields(FCons(limit, s, fs), VCons(v, vs));
      && (limit.Some? && len > limit.value ==> r == Err(LimitExceeded(len, limit.value)))
      && (!(limit.Some? && len > limit.value) ==>
            match (Encode(s, v), EncodeFields(fs, vs))
            case (Ok(a), Ok(b)) => r == Ok(a + b)
            case (Err(e), _) => r == Err(e)
            case (_, Err(e)) => r == Err(e))
  {
    hide Encode, HasType;
  }

  // Fields one after the other, for types that are written out.

  lemma {:induction false} OneField(s: Schema, v: Value, e: Bytes)
    requires HasType(s, v) && Encode(s, v) == Ok(e)
    ensures HaveTypes(FCons(None, s, FNil), VCons(v, VNil)) && EncodeFields(FCons(None, s, FNil), VCons(v, VNil)) == Ok(e)
  {
    hide Encode, HasType;
    assert HaveTypes(FNil, VNil) && EncodeFields(FNil, VNil) == Ok([]);
    assert e + [] == e;
  }

  lemma {:induction false} MoreFields(s: Schema, v: Value, e: Bytes, fs: Fields, vs: Values, tail: Bytes)
    requires HasType(s, v) && Encode(s, v) == Ok(e) && HaveTypes(fs, vs) && EncodeFields(fs, vs) == Ok(tail)
    ensures HaveTypes(FCons(None, s, fs), VCons(v, vs)) && EncodeFields(FCons(None, s, fs), VCons(v, vs)) == Ok(e + tail)
  {
    hide Encode, HasType;
  }

  lemma {:induction false} StructIs(fs: Fields, vs: Values)
    requires HaveTypes(fs, vs)
    ensures HasType(Struct(fs), VStruct(vs)) && Encode(Struct(fs), VStruct(vs)) == EncodeFields(fs, vs)
  {
  }

  lemma {:induction false} WordIs(n: u32)
    ensures HasType(U32, VNum(n)) && Encode(U32, VNum(n)) == Ok(PutU32(n))
  {
    hide PutU32;
    SignedValue(false, false, n);
  }

  lemma {:induction false} HyperIs(n: u64)
    ensures HasType(U64, VNum(n)) && Encode(U64, VNum(n)) == Ok(PutU64(n))
  {
    hide PutU64;
    SignedValue(true, false, n);
  }

  /** Data as an opaque or a string: its length, itself, and padding. */
  function Counted(data: Bytes): Bytes
    requires |data| < TWO32
  {
    PutU32(|data|) + (data + Zeros(Padding(|data|)))
  }

  lemma {:induction false} CountedIs(data: Bytes)
    requires |data| < TWO32
    ensures HasType(Opaque, VBytes(data)) && Encode(Opaque, VBytes(data)) == Ok(Counted(data))
    ensures ValidUtf8(data) ==> HasType(Str, VBytes(data)) && Encode(Str, VBytes(data)) == Ok(Counted(data))
  {
    hide PutU32, ValidUtf8;
  }

  /** What is rejected, and as what. */
  lemma {:induction false} Rejections(w: u32, discs: seq<i32>, arms: Arms, rest: Bytes)
    ensures w > 1 ==> Decode(Bool, PutU32(w) + rest) == Err(InvalidBool(w))
    ensures ToI32(w) !in discs ==> Decode(Enum32(discs), PutU32(w) + rest) == Err(InvalidEnum(ToI32(w)))
    ensures !HasCase(arms, ToI32(w)) ==> Decode(Union(arms), PutU32(w) + rest) == Err(InvalidUnion(w))
    ensures w > |rest| ==> Decode(Array(U32), PutU32(w) + rest) == Err(Truncated(w, |rest|))
  {
    hide PutU32, GetU32, ToI32;
    U32RoundTrip(w, rest);
    if ToI32(w) !in discs {
      var found := FindDisc(discs, ToI32(w));
      assert found.None?;
    }
    if !HasCase(arms, ToI32(w)) {
      NoArm(arms, 0, ToI32(w), rest);
      SignBits32(w);
    }
  }

  lemma {:induction false} NoArm(arms: Arms, skipped: nat, d: i32, b: Bytes)
    requires !HasCase(arms, d)
    ensures DecodeArm(arms, skipped, d, b) == Err(InvalidUnion(ToU32(d)))
  {
    hide ToI32, ToU32;
    if arms.ACons? {
      NoArm(arms.tail, skipped + 1, d, b);
    }
  }

  lemma {:induction false} DataRejections(data: Bytes, limit: nat, rest: Bytes)
    requires |data| < TWO32
    ensures !ValidUtf8(data) ==> Decode(Str, EncodeOpaque(data, None).value + rest) == Err(InvalidUtf8)
    ensures |data| > limit ==> DecodeOpaque(Some(limit), EncodeOpaque(data, None).value + rest) == Err(LimitExceeded(|data|, limit))
    ensures |data| > limit ==>
      DecodeFields(FCons(Some(limit), Opaque, FNil), EncodeOpaque(data, None).value + rest) == Err(LimitExceeded(|data|, limit))
  {
    hide PutU32, GetU32, ValidUtf8;
    OpaqueRoundTrip(data, None, rest);
    Assoc(PutU32(|data|), Padded(data), rest);
    U32RoundTrip(|data|, Padded(data) + rest);
  }

  // --- Round trip with any suffix ---------------------------------------------------------

  lemma {:induction false} EnumRoundTrip(discs: seq<i32>, i: nat, rest: Bytes)
    requires WellFormed(Enum32(discs)) && i < |discs|
    ensures Decode(Enum32(discs), PutU32(ToU32(discs[i])) + rest) == Ok((VEnum(i), rest))
  {
    U32RoundTrip(ToU32(discs[i]), rest);
    SignedValue(false, true, discs[i]);
    var found := FindDisc(discs, discs[i]);
    assert found.Some? && found.value <= i;
  }

  predicate Leaf(s: Schema) {
    s.Void? || s.Num? || s.Bool? || s.Fixed? || s.Opaque? || s.Str? || s.Enum32?
  }

  lemma {:induction false} RoundTripLeaf(s: Schema, v: Value, rest: Bytes)
    requires Leaf(s) && WellFormed(s) && HasType(s, v) && Encode(s, v).Ok?
    ensures Decode(s, Encode(s, v).value + rest) == Ok((v, rest))
  {
    match s
    case Void => assert [] + rest == rest;
    case Num(wide, signed) => NumRoundTrip(wide, signed, v.n, rest);
    case Bool => BoolRoundTrip(v.b, rest);
    case Fixed(_) => FixedRoundTrip(v.bytes, rest);
    case Opaque => OpaqueRoundTrip(v.bytes, None, rest);
    case Str => OpaqueRoundTrip(v.bytes, None, rest);
    case Enum32(discs) => EnumRoundTrip(discs, v.variant, rest);
  }

  /** Decoding what was encoded yields the value and leaves exactly what followed. */
  lemma {:induction false} RoundTrip(s: Schema, v: Value, rest: Bytes)
    requires WellFormed(s) && HasType(s, v) && Encode(s, v).Ok?
    ensures Decode(s, Encode(s, v).value + rest) == Ok((v, rest))
    decreases s, 0, 0
  {
    hide PutU32, GetU32;
    match s
    case Array(elem) =>
      RoundTripItems(elem, v.items, rest);
      ArrayHeader(elem, v.items, EncodeItems(elem, v.items).value, rest);
    case Optional(elem) =>
      if v.VSome? {
        RoundTrip(elem, v.some, rest);
        BoolRoundTrip(true, Encode(elem, v.some).value + rest);
        Assoc(PutU32(1), Encode(elem, v.some).value, rest);
      } else {
        BoolRoundTrip(false, rest);
      }
    case Linked(elem) => RoundTripLinked(elem, v.items, rest);
    case Struct(fields) => RoundTripFields(fields, v.vals, rest);
    case Union(arms) =>
      var w, body := RoundTripArm(arms, 0, v.arm, v.vals, rest);
      U32RoundTrip(w, body);
    case _ => RoundTripLeaf(s, v, rest);
  }

  /** The count in front of an array passes the early check and leaves the elements. */
  lemma {:induction false} ArrayHeader(elem: Schema, items: seq<Value>, body: Bytes, rest: Bytes)
    requires |items| < TWO32 && |items| <= |body + rest|
    requires DecodeItems(elem, |items|, body + rest) == Ok((items, rest))
    ensures Decode(Array(elem), (PutU32(|items|) + body) + rest) == Ok((VArray(items), rest))
  {
    hide PutU32, GetU32;
    Assoc(PutU32(|items|), body, rest);
    U32RoundTrip(|items|, body + rest);
  }

  lemma {:induction false} RoundTripItems(elem: Schema, items: seq<Value>, rest: Bytes)
    requires WellFormed(elem) && forall i :: 0 <= i < |items| ==> HasType(elem, items[i])
    requires EncodeItems(elem, items).Ok?
    ensures DecodeItems(elem, |items|, EncodeItems(elem, items).value + rest) == Ok((items, rest))
    decreases elem, 1, |items|
  {
    hide PutU32, GetU32, Encode, Decode, HasType, WellFormed;
    if items == [] {
      assert [] + rest == rest;
    } else {
      var first, tail := Encode(elem, items[0]).value, EncodeItems(elem, items[1..]).value;
      Assoc(first, tail, rest);
      RoundTrip(elem, items[0], tail + rest);
      RoundTripItems(elem, items[1..], rest);
      HeadTail(items);
    }
  }

  /** One unfolding of the list grammar after `TRUE`. */
  lemma {:induction false} LinkedNode(elem: Schema, body: Bytes)
    ensures DecodeLinked(elem, PutU32(1) + body) ==
      var node := Decode(elem, body);
      if node.Err? then Err(node.error)
      else
        var tail := DecodeLinked(elem, node.value.1);
        if tail.Err? then Err(tail.error) else Ok(([node.value.0] + tail.value.0, tail.value.1))
  {
    hide PutU32, GetU32;
    BoolRoundTrip(true, body);
  }

  lemma {:induction false} RoundTripLinked(elem: Schema, items: seq<Value>, rest: Bytes)
    requires WellFormed(elem) && forall i :: 0 <= i < |items| ==> HasType(elem, items[i])
    requires EncodeLinked(elem, items).Ok?
    ensures DecodeLinked(elem, EncodeLinked(elem, items).value + rest) == Ok((items, rest))
    decreases elem, 1, |items|
  {
    hide PutU32, GetU32, Encode, Decode, HasType, WellFormed;
    if items == [] {
      BoolRoundTrip(false, rest);
    } else {
      var first, tail := Encode(elem, items[0]).value, EncodeLinked(elem, items[1..]).value;
      RoundTrip(elem, items[0], tail + rest);
      RoundTripLinked(elem, items[1..], rest);
      LinkedNode(elem, first + (tail + rest));
      Assoc(PutU32(1), first + tail, rest);
      Assoc(first, tail, rest);
      HeadTail(items);
    }
  }

  lemma {:induction false} RoundTripFields(fs: Fields, vs: Values, rest: Bytes)
    requires WellFormedFields(fs) && HaveTypes(fs, vs) && EncodeFields(fs, vs).Ok?
    ensures DecodeFields(fs, EncodeFields(fs, vs).value + rest) == Ok((vs, rest))
    decreases fs, 0, 0
  {
    hide PutU32, GetU32, Encode, Decode, HasType, WellFormed;
    match fs
    case FNil => assert [] + rest == rest;
    case FCons(_, s, tail) =>
      var first, others := Encode(s, vs.head).value, EncodeFields(tail, vs.tail).value;
      Assoc(first, others, rest);
      RoundTrip(s, vs.head, others + rest);
      RoundTripFields(tail, vs.tail, rest);
  }

  /** The discriminant word and the bytes after it, and that they select arm `i`. */
  lemma {:induction false} RoundTripArm(arms: Arms, skipped: nat, i: nat, vs: Values, rest: Bytes)
    returns (w: u32, after: Bytes)
    requires WellFormedArms(arms) && ArmHasType(arms, i, vs) && EncodeArm(arms, i, vs).Ok?
    ensures EncodeArm(arms, i, vs).value + rest == PutU32(w) + after
    ensures HasCase(arms, ToI32(w))
    ensures DecodeArm(arms, skipped, ToI32(w), after) == Ok((VUnion(skipped + i, vs), rest))
    decreases arms, 0, 0
  {
    hide PutU32, GetU32, ToI32, ToU32;
    SignedValue(false, true, ToI32(arms.attr));
    if i > 0 {
      w, after := RoundTripArm(arms.tail, skipped + 1, i - 1, vs, rest);
    } else {
      var body := EncodeFields(arms.body, vs).value;
      w, after := ToU32(ToI32(arms.attr)), body + rest;
      Assoc(PutU32(w), body, rest);
      RoundTripFields(arms.body, vs, rest);
    }
  }

  /** Encodings are injective and self-delimiting: one stream splits in one way. */
  lemma {:induction false} SelfDelimiting(s: Schema, v: Value, w: Value, after: Bytes, other: Bytes)
    requires WellFormed(s) && HasType(s, v) && HasType(s, w)
    requires Encode(s, v).Ok? && Encode(s, w).Ok?
    requires Encode(s, v).value + after == Encode(s, w).value + other
    ensures v == w && after == other
  {
    hide Encode, Decode, HasType, WellFormed;
    RoundTrip(s, v, after);
    RoundTrip(s, w, other);
  }

  /** `from_bytes` undoes `to_bytes`, and reports exactly the bytes that are left over. */
  lemma {:induction false} WholeMessage(s: Schema, v: Value, extra: Bytes)
    requires WellFormed(s) && HasType(s, v) && Encode(s, v).Ok?
    ensures FromBytes(s, Encode(s, v).value) == Ok(v)
    ensures extra != [] ==> FromBytes(s, Encode(s, v).value + extra) == Err(TrailingData(|extra|))
  {
    hide Encode, Decode, HasType, WellFormed;
    RoundTrip(s, v, extra);
    RoundTrip(s, v, []);
    assert Encode(s, v).value + [] == Encode(s, v).value;
  }

  /**
   * Why array elements must not be empty: a `Vec` of `n` elements that encode to nothing reads
   * back exactly when at least `n` unrelated bytes happen to follow it.
   */
  lemma {:induction false} EmptyElements(elem: Schema, n: nat, v: Value, rest: Bytes)
    requires WellFormed(elem) && HasType(elem, v) && Encode(elem, v) == Ok([]) && n < TWO32
    ensures var items := seq(n, _ => v);
      && Encode(Array(elem), VArray(items)) == Ok(PutU32(n))
      && (Decode(Array(elem), PutU32(n) + rest) == Ok((VArray(items), rest)) <==> n <= |rest|)
  {
    hide PutU32, GetU32;
    var items := seq(n, _ => v);
    EmptyItems(elem, n, v);
    assert PutU32(n) + [] == PutU32(n);
    U32RoundTrip(n, rest);
    RoundTripItems(elem, items, rest);
    assert [] + rest == rest;
  }

  lemma {:induction false} EmptyItems(elem: Schema, n: nat, v: Value)
    requires HasType(elem, v) && Encode(elem, v) == Ok([])
    ensures EncodeItems(elem, seq(n, _ => v)) == Ok([])
  {
    if n > 0 {
      assert seq(n, _ => v)[1..] == seq(n - 1, _ => v);
      EmptyItems(elem, n - 1, v);
    }
  }

  // --- Exactness of the decoder -----------------------------------------------------------

  /** Which bytes of an encoding carry data; the others are padding. */
  ghost function Mask(s: Schema, v: Value): (m: seq<bool>)
    requires HasType(s, v)
    decreases s, 0, 0
  {
    match s
    case Void => []
    case Num(wide, _) => All(if wide then 8 else 4)
    case Bool => All(4)
    case Fixed(_) => PaddedMask(|v.bytes|)
    case Opaque => All(4) + PaddedMask(|v.bytes|)
    case Str => All(4) + PaddedMask(|v.bytes|)
    case Array(elem) => All(4) + MaskItems(elem, v.items)
    case Optional(elem) => if v.VNone? then All(4) else All(4) + Mask(elem, v.some)
    case Linked(elem) => MaskLinked(elem, v.items)
    case Struct(fields) => MaskFields(fields, v.vals)
    case Enum32(_) => All(4)
    case Union(arms) => MaskArm(arms, v.arm, v.vals)
  }

  ghost function All(n: nat): (m: seq<bool>)
    ensures |m| == n && forall i :: 0 <= i < n ==> m[i]
  {
    seq(n, _ => true)
  }

  ghost function PaddedMask(n: nat): (m: seq<bool>)
    ensures |m| == n + Padding(n) && forall i :: 0 <= i < |m| ==> m[i] == (i < n)
  {
    seq(n + Padding(n), i => i < n)
  }

  ghost function MaskItems(elem: Schema, items: seq<Value>): seq<bool>
    requires forall i :: 0 <= i < |items| ==> HasType(elem, items[i])
    decreases elem, 1, |items|
  {
    if items == [] then [] else Mask(elem, items[0]) + MaskItems(elem, items[1..])
  }

  ghost function MaskLinked(elem: Schema, items: seq<Value>): seq<bool>
    requires forall i :: 0 <= i < |items| ==> HasType(elem, items[i])
    decreases elem, 1, |items|
  {
    if items == [] then All(4) else All(4) + (Mask(elem, items[0]) + MaskLinked(elem, items[1..]))
  }

  ghost function MaskFields(fs: Fields, vs: Values): seq<bool>
    requires HaveTypes(fs, vs)
    decreases fs, 0, 0
  {
    match fs
    case FNil => []
    case FCons(_, s, tail) => Mask(s, vs.head) + MaskFields(tail, vs.tail)
  }

  ghost function MaskArm(arms: Arms, i: nat, vs: Values): seq<bool>
    requires ArmHasType(arms, i, vs)
    decreases arms, 0, 0
  {
    if i > 0 then MaskArm(arms.tail, i - 1, vs) else All(4) + MaskFields(arms.body, vs)
  }

  /**
   * `enc` is the part of `wire` before `rest`, except that padding, whatever it was on the
   * wire, is zero.
   */
  ghost predicate Matches(mask: seq<bool>, enc: Bytes, wire: Bytes, rest: Bytes) {
    && |mask| == |enc| && |enc| + |rest| == |wire| && wire[|enc|..] == rest
    && forall i :: 0 <= i < |enc| ==> enc[i] == if mask[i] then wire[i] else 0
  }

  lemma {:induction false} MatchesConcat(m: seq<bool>, e: Bytes, wire: Bytes, mid: Bytes, n: seq<bool>, f: Bytes, rest: Bytes)
    requires Matches(m, e, wire, mid) && Matches(n, f, mid, rest)
    ensures Matches(m + n, e + f, wire, rest)
  {
    assert wire[|e + f|..] == mid[|f|..];
    forall i | 0 <= i < |e + f|
      ensures (e + f)[i] == if (m + n)[i] then wire[i] else 0
    {
      if i >= |e| {
        assert wire[i] == mid[i - |e|];
      }
    }
  }

  lemma {:induction false} MatchesU32(w: u32, wire: Bytes, rest: Bytes)
    requires DecodeU32(wire) == Ok((w, rest))
    ensures Matches(All(4), PutU32(w), wire, rest)
  {
    PutGetU32(wire);
  }

  lemma {:induction false} MatchesBool(x: bool, wire: Bytes, rest: Bytes)
    requires DecodeBool(wire) == Ok((x, rest))
    ensures Matches(All(4), PutU32(if x then 1 else 0), wire, rest)
  {
    MatchesU32(if x then 1 else 0, wire, rest);
  }

  lemma {:induction false} MatchesFixed(n: nat, wire: Bytes, data: Bytes, rest: Bytes)
    requires DecodeFixed(n, wire) == Ok((data, rest))
    ensures |data| == n && Matches(PaddedMask(n), Padded(data), wire, rest)
  {
  }

  lemma {:induction false} MatchesOpaque(limit: Option<nat>, wire: Bytes, data: Bytes, rest: Bytes)
    requires DecodeOpaque(limit, wire) == Ok((data, rest))
    ensures EncodeOpaque(data, limit).Ok?
    ensures Matches(All(4) + PaddedMask(|data|), EncodeOpaque(data, limit).value, wire, rest)
  {
    var (len, mid) := DecodeU32(wire).value;
    MatchesU32(len, wire, mid);
    MatchesFixed(len, mid, data, rest);
    MatchesConcat(All(4), PutU32(len), wire, mid, PaddedMask(len), Padded(data), rest);
  }

  lemma {:induction false} SignBits32(w: u32)
    ensures ToU32(ToI32(w)) == w == ToU32(w)
  {
  }

  lemma {:induction false} SignBits64(w: u64)
    ensures ToU64(ToI64(w)) == w == ToU64(w)
  {
  }

  lemma {:induction false} MatchesNum(wide: bool, signed: bool, wire: Bytes, v: Value, rest: Bytes)
    requires DecodeNum(wide, signed, wire) == Ok((v, rest))
    ensures v.VNum? && InRange(wide, signed, v.n)
    ensures Matches(All(if wide then 8 else 4), PutNum(wide, v.n), wire, rest)
  {
    if wide {
      PutGetU64(wire);
      SignBits64(GetU64(wire));
    } else {
      PutGetU32(wire);
      SignBits32(GetU32(wire));
    }
  }

  lemma {:induction false} ExactLeaf(s: Schema, wire: Bytes, v: Value, rest: Bytes)
    requires Leaf(s) && Decode(s, wire) == Ok((v, rest))
    ensures HasType(s, v) && Encode(s, v).Ok?
    ensures Matches(Mask(s, v), Encode(s, v).value, wire, rest)
  {
    match s
    case Void =>
    case Num(wide, signed) => MatchesNum(wide, signed, wire, v, rest);
    case Bool => MatchesBool(v.b, wire, rest);
    case Fixed(n) => MatchesFixed(n, wire, v.bytes, rest);
    case Opaque => MatchesOpaque(None, wire, v.bytes, rest);
    case Str => MatchesOpaque(None, wire, v.bytes, rest);
    case Enum32(discs) =>
      SignBits32(DecodeU32(wire).value.0);
      MatchesU32(DecodeU32(wire).value.0, wire, rest);
  }

  /**
   * Whatever bytes arrive, a successful decode yields a value of the schema's type whose
   * encoding succeeds, is as long as the bytes consumed and differs from them only in padding.
   */
  lemma {:induction false} Exactness(s: Schema, wire: Bytes, v: Value, rest: Bytes)
    requires Decode(s, wire) == Ok((v, rest))
    ensures HasType(s, v) && Encode(s, v).Ok?
    ensures Matches(Mask(s, v), Encode(s, v).value, wire, rest)
    decreases s, 0, 0
  {
    hide PutU32, GetU32;
    match s
    case Array(elem) =>
      var (count, mid) := DecodeU32(wire).value;
      MatchesU32(count, wire, mid);
      ExactItems(elem, count, mid, v.items, rest);
      MatchesConcat(All(4), PutU32(count), wire, mid,
                    MaskItems(elem, v.items), EncodeItems(elem, v.items).value, rest);
    case Optional(elem) =>
      var (present, mid) := DecodeBool(wire).value;
      MatchesBool(present, wire, mid);
      if present {
        Exactness(elem, mid, v.some, rest);
        MatchesConcat(All(4), PutU32(1), wire, mid,
                      Mask(elem, v.some), Encode(elem, v.some).value, rest);
      }
    case Linked(elem) => ExactLinked(elem, wire, v.items, rest);
    case Struct(fields) => ExactFields(fields, wire, v.vals, rest);
    case Union(arms) =>
      var (w, mid) := DecodeU32(wire).value;
      SignBits32(w);
      ExactArm(arms, 0, ToI32(w), wire, mid, v, rest);
    case _ => ExactLeaf(s, wire, v, rest);
  }

  /** What putting a node in front of a list does to its encoding and to its mask. */
  lemma {:induction false} LinkedCons(elem: Schema, v: Value, tail: seq<Value>)
    requires HasType(elem, v) && Encode(elem, v).Ok?
    requires forall i :: 0 <= i < |tail| ==> HasType(elem, tail[i])
    requires EncodeLinked(elem, tail).Ok?
    ensures forall i :: 0 <= i < |[v] + tail| ==> HasType(elem, ([v] + tail)[i])
    ensures EncodeLinked(elem, [v] + tail)
         == Ok(PutU32(1) + (Encode(elem, v).value + EncodeLinked(elem, tail).value))
    ensures MaskLinked(elem, [v] + tail) == All(4) + (Mask(elem, v) + MaskLinked(elem, tail))
  {
    hide PutU32, GetU32, Encode, Decode, HasType, Mask, Matches;
    ConsTail(v, tail);
  }

  lemma {:induction false} ExactItems(elem: Schema, count: nat, wire: Bytes, items: seq<Value>, rest: Bytes)
    requires DecodeItems(elem, count, wire) == Ok((items, rest))
    ensures forall i :: 0 <= i < |items| ==> HasType(elem, items[i])
    ensures EncodeItems(elem, items).Ok?
    ensures Matches(MaskItems(elem, items), EncodeItems(elem, items).value, wire, rest)
    decreases elem, 1, count
  {
    hide PutU32, GetU32, Encode, Decode, HasType, Mask;
    if count > 0 {
      var (v, mid) := Decode(elem, wire).value;
      Exactness(elem, wire, v, mid);
      var tail := DecodeItems(elem, count - 1, mid).value.0;
      ConsTail(v, tail);
      ExactItems(elem, count - 1, mid, tail, rest);
      MatchesConcat(Mask(elem, v), Encode(elem, v).value, wire, mid,
                    MaskItems(elem, tail), EncodeItems(elem, tail).value, rest);
    }
  }

  lemma {:induction false} ExactLinked(elem: Schema, wire: Bytes, items: seq<Value>, rest: Bytes)
    requires DecodeLinked(elem, wire) == Ok((items, rest))
    ensures forall i :: 0 <= i < |items| ==> HasType(elem, items[i])
    ensures EncodeLinked(elem, items).Ok?
    ensures Matches(MaskLinked(elem, items), EncodeLinked(elem, items).value, wire, rest)
    decreases elem, 1, |wire|
  {
    hide PutU32, GetU32, Encode, Decode, HasType, Mask, Matches;
    // The bytes are TRUE, a node and a shorter list, or just FALSE.
    var (present, body) := DecodeBool(wire).value;
    MatchesBool(present, wire, body);
    if present {
      var (v, mid) := Decode(elem, body).value;
      Exactness(elem, body, v, mid);
      var tail := DecodeLinked(elem, mid).value.0;
      ExactLinked(elem, mid, tail, rest);
      LinkedCons(elem, v, tail);
      var m, n := Mask(elem, v), MaskLinked(elem, tail);
      var e, f := Encode(elem, v).value, EncodeLinked(elem, tail).value;
      MatchesConcat(m, e, body, mid, n, f, rest);
      MatchesConcat(All(4), PutU32(1), wire, body, m + n, e + f, rest);
    }
  }

  lemma {:induction false} ExactFields(fs: Fields, wire: Bytes, vs: Values, rest: Bytes)
    requires DecodeFields(fs, wire) == Ok((vs, rest))
    ensures HaveTypes(fs, vs) && EncodeFields(fs, vs).Ok?
    ensures Matches(MaskFields(fs, vs), EncodeFields(fs, vs).value, wire, rest)
    decreases fs, 0, 0
  {
    hide PutU32, GetU32, Encode, Decode, HasType, Mask;
    match fs
    case FNil =>
    case FCons(_, s, tail) =>
      var (v, mid) := Decode(s, wire).value;
      Exactness(s, wire, v, mid);
      ExactFields(tail, mid, vs.tail, rest);
      MatchesConcat(Mask(s, v), Encode(s, v).value, wire, mid,
                    MaskFields(tail, vs.tail), EncodeFields(tail, vs.tail).value, rest);
  }

  lemma {:induction false} ExactArm(arms: Arms, skipped: nat, d: i32, wire: Bytes, mid: Bytes, v: Value, rest: Bytes)
    requires DecodeU32(wire) == Ok((ToU32(d), mid))
    requires DecodeArm(arms, skipped, d, mid) == Ok((v, rest))
    ensures v.VUnion? && v.arm >= skipped && ArmHasType(arms, v.arm - skipped, v.vals)
    ensures EncodeArm(arms, v.arm - skipped, v.vals).Ok?
    ensures Matches(MaskArm(arms, v.arm - skipped, v.vals),
                    EncodeArm(arms, v.arm - skipped, v.vals).value, wire, rest)
    decreases arms, 0, 0
  {
    hide PutU32, GetU32;
    if ToI32(arms.attr) == d {
      MatchesU32(ToU32(d), wire, mid);
      ExactFields(arms.body, mid, v.vals, rest);
      MatchesConcat(All(4), PutU32(ToU32(d)), wire, mid,
                    MaskFields(arms.body, v.vals), EncodeFields(arms.body, v.vals).value, rest);
    } else {
      ExactArm(arms.tail, skipped + 1, d, wire, mid, v, rest);
    }
  }

  // --- Alignment --------------------------------------------------------------------------

  lemma {:induction false} SumAligned(a: int, b: int)
    requires a % 4 == 0 && b % 4 == 0
    ensures (a + b) % 4 == 0
  {
  }

  /** Every encoding is a whole number of 4-byte units. */
  lemma {:induction false} Aligned(s: Schema, v: Value)
    requires HasType(s, v) && Encode(s, v).Ok?
    ensures |Encode(s, v).value| % 4 == 0
    decreases s, 0, 0
  {
    hide PutU32, GetU32, PutNum, Padded, Padding, EncodeOpaque, EncodeItems, EncodeLinked, EncodeFields, EncodeArm;
    match s
    case Array(elem) =>
      AlignedItems(elem, v.items);
      SumAligned(4, |EncodeItems(elem, v.items).value|);
    case Optional(elem) =>
      if v.VSome? {
        Aligned(elem, v.some);
        SumAligned(4, |Encode(elem, v.some).value|);
      }
    case Linked(elem) => AlignedLinked(elem, v.items);
    case Struct(fields) => AlignedFields(fields, v.vals);
    case Union(arms) => AlignedArm(arms, v.arm, v.vals);
    case _ => AlignedLeaf(s, v);
  }

  lemma {:induction false} AlignedLeaf(s: Schema, v: Value)
    requires Leaf(s) && HasType(s, v) && Encode(s, v).Ok?
    ensures |Encode(s, v).value| % 4 == 0
  {
    hide PutU32, PutU64, ToU32, ToU64, Padded, Padding, ValidUtf8;
    if s.Opaque? || s.Str? {
      SumAligned(4, |Padded(v.bytes)|);
    }
  }

  lemma {:induction false} AlignedItems(elem: Schema, items: seq<Value>)
    requires forall i :: 0 <= i < |items| ==> HasType(elem, items[i])
    requires EncodeItems(elem, items).Ok?
    ensures |EncodeItems(elem, items).value| % 4 == 0
    decreases elem, 1, |items|
  {
    hide PutU32, GetU32, Encode, HasType;
    if items != [] {
      Aligned(elem, items[0]);
      AlignedItems(elem, items[1..]);
      SumAligned(|Encode(elem, items[0]).value|, |EncodeItems(elem, items[1..]).value|);
    }
  }

  lemma {:induction false} AlignedLinked(elem: Schema, items: seq<Value>)
    requires forall i :: 0 <= i < |items| ==> HasType(elem, items[i])
    requires EncodeLinked(elem, items).Ok?
    ensures |EncodeLinked(elem, items).value| % 4 == 0
    decreases elem, 1, |items|
  {
    hide PutU32, GetU32, Encode, HasType;
    if items != [] {
      Aligned(elem, items[0]);
      AlignedLinked(elem, items[1..]);
      var first, tail := Encode(elem, items[0]).value, EncodeLinked(elem, items[1..]).value;
      SumAligned(|first|, |tail|);
      SumAligned(4, |first + tail|);
    }
  }

  lemma {:induction false} AlignedFields(fs: Fields, vs: Values)
    requires HaveTypes(fs, vs) && EncodeFields(fs, vs).Ok?
    ensures |EncodeFields(fs, vs).value| % 4 == 0
    decreases fs, 0, 0
  {
    hide PutU32, GetU32, Encode, HasType;
    if fs.FCons? {
      Aligned(fs.head, vs.head);
      AlignedFields(fs.tail, vs.tail);
      SumAligned(|Encode(fs.head, vs.head).value|, |EncodeFields(fs.tail, vs.tail).value|);
    }
  }

  lemma {:induction false} AlignedArm(arms: Arms, i: nat, vs: Values)
    requires ArmHasType(arms, i, vs) && EncodeArm(arms, i, vs).Ok?
    ensures |EncodeArm(arms, i, vs).value| % 4 == 0
    decreases arms, 0, 0
  {
    hide PutU32, GetU32, ToU32, ToI32, EncodeFields, HaveTypes;
    if i > 0 {
      AlignedArm(arms.tail, i - 1, vs);
    } else {
      AlignedFields(arms.body, vs);
      SumAligned(4, |EncodeFields(arms.body, vs).value|);
    }
  }

  // --- Arrays of words --------------------------------------------------------------------

  function Words(ns: seq<u32>): seq<Value> {
    seq(|ns|, i requires 0 <= i < |ns| => VNum(ns[i]))
  }

  lemma {:induction false} WordsEncoding(ns: seq<u32>)
    ensures forall i :: 0 <= i < |Words(ns)| ==> HasType(U32, Words(ns)[i])
    ensures EncodeItems(U32, Words(ns)).Ok? && |EncodeItems(U32, Words(ns)).value| == 4 * |ns|
  {
    if ns != [] {
      assert Words(ns)[1..] == Words(ns[1..]);
      WordsEncoding(ns[1..]);
    }
  }

  /** What a `Vec<u32>` becomes on the wire. */
  function PutWords(ns: seq<u32>): Bytes
    requires |ns| < TWO32
  {
    WordsEncoding(ns);
    PutU32(|ns|) + EncodeItems(U32, Words(ns)).value
  }

  lemma {:induction false} WordsAreArray(ns: seq<u32>)
    requires |ns| < TWO32
    ensures HasType(Array(U32), VArray(Words(ns)))
    ensures Encode(Array(U32), VArray(Words(ns))) == Ok(PutWords(ns))
  {
    WordsEncoding(ns);
  }

  // --- Strict prefixes --------------------------------------------------------------------

  predicate IsTruncated<T>(r: Decoded<T>) {
    r.Err? && r.error.Truncated?
  }

  lemma {:induction false} PrefixOpaque(data: Bytes, cut: Bytes)
    requires EncodeOpaque(data, None).Ok? && cut < EncodeOpaque(data, None).value
    ensures IsTruncated(DecodeOpaque(None, cut))
  {
    hide PutU32, GetU32;
    var more := PrefixSplit(PutU32(|data|), Padded(data), cut);
    if |cut| >= 4 {
      U32RoundTrip(|data|, more);
    }
  }

  /** Every strict prefix of a valid encoding is rejected, and always as truncated. */
  lemma {:induction false} StrictPrefix(s: Schema, v: Value, cut: Bytes)
    requires WellFormed(s) && HasType(s, v) && Encode(s, v).Ok?
    requires cut < Encode(s, v).value
    ensures IsTruncated(Decode(s, cut))
    decreases s, 0, 0
  {
    hide PutU32, GetU32;
    match s
    case Opaque => PrefixOpaque(v.bytes, cut);
    case Str => PrefixOpaque(v.bytes, cut);
    case Array(elem) =>
      if |cut| >= 4 {
        var more := PrefixSplit(PutU32(|v.items|), EncodeItems(elem, v.items).value, cut);
        U32RoundTrip(|v.items|, more);
        PrefixItems(elem, v.items, more);
      }
    case Optional(elem) =>
      if |cut| >= 4 {
        var more := PrefixSplit(PutU32(1), Encode(elem, v.some).value, cut);
        BoolRoundTrip(true, more);
        StrictPrefix(elem, v.some, more);
      }
    case Linked(elem) => PrefixLinked(elem, v.items, cut);
    case Struct(fields) => PrefixFields(fields, v.vals, cut);
    case Union(arms) =>
      if |cut| >= 4 {
        var w, more := PrefixArm(arms, 0, v.arm, v.vals, cut);
        U32RoundTrip(w, more);
      }
    case _ =>
  }

  /** A truncated element, or truncated elements after a whole one, truncate the array. */
  lemma {:induction false} ItemsTruncated(elem: Schema, count: nat, b: Bytes)
    requires count > 0
    requires var node := Decode(elem, b);
      IsTruncated(node) || (node.Ok? && IsTruncated(DecodeItems(elem, count - 1, node.value.1)))
    ensures IsTruncated(DecodeItems(elem, count, b))
  {
    hide PutU32, GetU32;
  }

  lemma {:induction false} PrefixItems(elem: Schema, items: seq<Value>, cut: Bytes)
    requires WellFormed(elem) && forall i :: 0 <= i < |items| ==> HasType(elem, items[i])
    requires EncodeItems(elem, items).Ok? && cut < EncodeItems(elem, items).value
    ensures IsTruncated(DecodeItems(elem, |items|, cut))
    decreases elem, 1, |items|
  {
    hide PutU32, GetU32, Encode, Decode, HasType, WellFormed;
    var first := Encode(elem, items[0]).value;
    var more := PrefixSplit(first, EncodeItems(elem, items[1..]).value, cut);
    if |cut| < |first| {
      StrictPrefix(elem, items[0], cut);
    } else {
      RoundTrip(elem, items[0], more);
      PrefixItems(elem, items[1..], more);
      assert |items[1..]| == |items| - 1;
    }
    ItemsTruncated(elem, |items|, cut);
  }

  lemma {:induction false} LinkedTruncated(elem: Schema, body: Bytes)
    requires var node := Decode(elem, body);
      IsTruncated(node) || (node.Ok? && IsTruncated(DecodeLinked(elem, node.value.1)))
    ensures IsTruncated(DecodeLinked(elem, PutU32(1) + body))
  {
    hide PutU32, GetU32;
    LinkedNode(elem, body);
  }

  lemma {:induction false} PrefixLinked(elem: Schema, items: seq<Value>, cut: Bytes)
    requires WellFormed(elem) && forall i :: 0 <= i < |items| ==> HasType(elem, items[i])
    requires EncodeLinked(elem, items).Ok? && cut < EncodeLinked(elem, items).value
    ensures IsTruncated(DecodeLinked(elem, cut))
    decreases elem, 1, |items|
  {
    hide PutU32, GetU32, Encode, Decode, HasType, WellFormed;
    if |cut| >= 4 {
      var first, tail := Encode(elem, items[0]).value, EncodeLinked(elem, items[1..]).value;
      var body := PrefixSplit(PutU32(1), first + tail, cut);
      var more := PrefixSplit(first, tail, body);
      if |body| < |first| {
        StrictPrefix(elem, items[0], body);
      } else {
        RoundTrip(elem, items[0], more);
        PrefixLinked(elem, items[1..], more);
      }
      LinkedTruncated(elem, body);
    }
  }

  lemma {:induction false} PrefixFields(fs: Fields, vs: Values, cut: Bytes)
    requires WellFormedFields(fs) && HaveTypes(fs, vs)
    requires EncodeFields(fs, vs).Ok? && cut < EncodeFields(fs, vs).value
    ensures IsTruncated(DecodeFields(fs, cut))
    decreases fs, 0, 0
  {
    hide PutU32, GetU32, Encode, Decode, HasType, WellFormed;
    var first := Encode(fs.head, vs.head).value;
    var more := PrefixSplit(first, EncodeFields(fs.tail, vs.tail).value, cut);
    if |cut| < |first| {
      StrictPrefix(fs.head, vs.head, cut);
    } else {
      RoundTrip(fs.head, vs.head, more);
      PrefixFields(fs.tail, vs.tail, more);
    }
  }

  lemma {:induction false} PrefixArm(arms: Arms, skipped: nat, i: nat, vs: Values, cut: Bytes)
    returns (w: u32, more: Bytes)
    requires WellFormedArms(arms) && ArmHasType(arms, i, vs) && EncodeArm(arms, i, vs).Ok?
    requires cut < EncodeArm(arms, i, vs).value && |cut| >= 4
    ensures cut == PutU32(w) + more && HasCase(arms, ToI32(w))
    ensures IsTruncated(DecodeArm(arms, skipped, ToI32(w), more))
    decreases arms, 0, 0
  {
    hide PutU32, GetU32, ToI32, ToU32;
    SignedValue(false, true, ToI32(arms.attr));
    if i > 0 {
      w, more := PrefixArm(arms.tail, skipped + 1, i - 1, vs, cut);
    } else {
      w := ToU32(ToI32(arms.attr));
      more := PrefixSplit(PutU32(w), EncodeFields(arms.body, vs).value, cut);
      PrefixFields(arms.body, vs, more);
    }
  }
}
