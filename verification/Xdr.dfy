/**
 * The XDR codec of `nfs-xdr` and the code its derive macro generates, read as an
 * interpreter of schemas.
 *
 * A `Schema` is what a Rust type means to `XdrEncode`/`XdrDecode`: the primitives and
 * containers of `impls.rs`, and the structs, `enum32`s and unions of the derive macro.
 * `Linked` is the recursive optional-data list of section 4.19 of RFC 4506, which the
 * protocol crates decode by hand.
 */
module Xdr {
  import opened Wire

  datatype XdrError =
    | Truncated(needed: nat, had: nat)
    | LimitExceeded(len: nat, limit: nat)
    | LengthOverflow(length: nat)
    | InvalidBool(word: u32)
    | InvalidEnum(disc: i32)
    | InvalidUnion(tag: u32)
    | InvalidUtf8
    | TrailingData(extra: nat)

  datatype Schema =
    | Void
    | Num(wide: bool, signed: bool) // 4 or 8 bytes; floats are their unsigned bit patterns
    | Bool
    | Fixed(size: nat)
    | Opaque
    | Str
    | Array(elem: Schema)
    | Optional(elem: Schema)
    | Linked(elem: Schema)
    | Struct(fields: Fields)
    | Enum32(discs: seq<i32>)
    | Union(arms: Arms)

  /** Struct or variant fields in declaration order; `limit` is `#[xdr(limit = N)]`. */
  datatype Fields = FNil | FCons(limit: Option<nat>, head: Schema, tail: Fields)

  /** Union variants in declaration order; `attr` is the 64-bit literal of `#[xdr(case = N)]`. */
  datatype Arms = ANil | ACons(attr: int, body: Fields, tail: Arms)

  datatype Value =
    | VVoid
    | VNum(n: int)
    | VBool(b: bool)
    | VBytes(bytes: Bytes)
    | VArray(items: seq<Value>)
    | VNone
    | VSome(some: Value)
    | VStruct(vals: Values)
    | VEnum(variant: nat)
    | VUnion(arm: nat, vals: Values)

  datatype Values = VNil | VCons(head: Value, tail: Values)

  const U32: Schema := Num(false, false)
  const I32: Schema := Num(false, true)
  const U64: Schema := Num(true, false)
  const I64: Schema := Num(true, true)

  type Encoded = Result<Bytes, XdrError>
  type Decoded<+T> = Result<(T, Bytes), XdrError>

  // --- Typing -----------------------------------------------------------------------------

  predicate Continuation(b: byte) {
    0x80 <= b < 0xC0
  }

  /** Well-formed UTF-8, as in section 4 of RFC 3629 (what `core::str::from_utf8` accepts). */
  predicate ValidUtf8(s: Bytes) {
    if s == [] then true
    else if s[0] < 0x80 then ValidUtf8(s[1..])
    else if 0xC2 <= s[0] < 0xE0 then
      |s| >= 2 && Continuation(s[1]) && ValidUtf8(s[2..])
    else if 0xE0 <= s[0] < 0xF0 then
      && |s| >= 3 && Continuation(s[1]) && Continuation(s[2])
      && (s[0] == 0xE0 ==> s[1] >= 0xA0)
      && (s[0] == 0xED ==> s[1] < 0xA0)
      && ValidUtf8(s[3..])
    else if 0xF0 <= s[0] < 0xF5 then
      && |s| >= 4 && Continuation(s[1]) && Continuation(s[2]) && Continuation(s[3])
      && (s[0] == 0xF0 ==> s[1] >= 0x90)
      && (s[0] == 0xF4 ==> s[1] < 0x90)
      && ValidUtf8(s[4..])
    else false
  }

  /** A Rust `String`. */
  type Text = s: Bytes | ValidUtf8(s) witness []

  predicate InRange(wide: bool, signed: bool, n: int) {
    if wide then
      if signed then -0x8000_0000_0000_0000 <= n < 0x8000_0000_0000_0000 else 0 <= n < TWO64
    else
      if signed then -0x8000_0000 <= n < 0x8000_0000 else 0 <= n < TWO32
  }

  /** `v` is a value of the Rust type that `s` describes. */
  predicate HasType(s: Schema, v: Value)
    decreases s
  {
    match s
    case Void => v.VVoid?
    case Num(wide, signed) => v.VNum? && InRange(wide, signed, v.n)
    case Bool => v.VBool?
    case Fixed(n) => v.VBytes? && |v.bytes| == n
    case Opaque => v.VBytes?
    case Str => v.VBytes? && ValidUtf8(v.bytes)
    case Array(elem) => v.VArray? && forall i :: 0 <= i < |v.items| ==> HasType(elem, v.items[i])
    case Optional(elem) => v.VNone? || (v.VSome? && HasType(elem, v.some))
    case Linked(elem) => v.VArray? && forall i :: 0 <= i < |v.items| ==> HasType(elem, v.items[i])
    case Struct(fields) => v.VStruct? && HaveTypes(fields, v.vals)
    case Enum32(discs) => v.VEnum? && v.variant < |discs|
    case Union(arms) => v.VUnion? && ArmHasType(arms, v.arm, v.vals)
  }

  predicate HaveTypes(fs: Fields, vs: Values)
    decreases fs
  {
    match fs
    case FNil => vs.VNil?
    case FCons(_, s, tail) => vs.VCons? && HasType(s, vs.head) && HaveTypes(tail, vs.tail)
  }

  predicate ArmHasType(arms: Arms, i: nat, vs: Values)
    decreases arms
  {
    match arms
    case ANil => false
    case ACons(_, body, tail) => if i == 0 then HaveTypes(body, vs) else ArmHasType(tail, i - 1, vs)
  }

  // --- Well-formed schemas ----------------------------------------------------------------

  /** Every value of the schema occupies at least one XDR unit. */
  predicate NonVoid(s: Schema)
    decreases s
  {
    match s
    case Void => false
    case Fixed(n) => n > 0
    case Struct(fields) => SomeNonVoid(fields)
    case _ => true
  }

  predicate SomeNonVoid(fs: Fields)
    decreases fs
  {
    fs.FCons? && (NonVoid(fs.head) || SomeNonVoid(fs.tail))
  }

  /** The discriminant the generated code compares: the literal cast with `as i32`. */
  predicate HasCase(arms: Arms, d: i32) {
    arms.ACons? && (ToI32(arms.attr) == d || HasCase(arms.tail, d))
  }

  /** Array elements are never empty, and enum and union discriminants are distinct. */
  predicate WellFormed(s: Schema)
    decreases s
  {
    match s
    case Array(elem) => NonVoid(elem) && WellFormed(elem)
    case Optional(elem) => WellFormed(elem)
    case Linked(elem) => WellFormed(elem)
    case Struct(fields) => WellFormedFields(fields)
    case Enum32(discs) => forall i, j :: 0 <= i < j < |discs| ==> discs[i] != discs[j]
    case Union(arms) => WellFormedArms(arms)
    case _ => true
  }

  predicate WellFormedFields(fs: Fields)
    decreases fs
  {
    fs.FNil? || (WellFormed(fs.head) && WellFormedFields(fs.tail))
  }

  predicate WellFormedArms(arms: Arms)
    decreases arms
  {
    || arms.ANil?
    || (!HasCase(arms.tail, ToI32(arms.attr)) && WellFormedFields(arms.body) && WellFormedArms(arms.tail))
  }

  // --- Encoding ---------------------------------------------------------------------------

  function Padding(len: nat): (p: nat)
    ensures p < 4 && (len + p) % 4 == 0
    ensures len > 0 ==> len + p >= 4
  {
    (4 - len % 4) % 4
  }

  function PutNum(wide: bool, n: int): Bytes {
    if wide then PutU64(ToU64(n)) else PutU32(ToU32(n))
  }

  function Padded(data: Bytes): (b: Bytes)
    ensures |b| == |data| + Padding(|data|)
  {
    data + Zeros(Padding(|data|))
  }

  /** `encode_opaque`: length prefix, data, padding. */
  function EncodeOpaque(data: Bytes, limit: Option<nat>): (r: Encoded)
    ensures r.Ok? <==> (limit.Some? ==> |data| <= limit.value) && |data| < TWO32
  {
    if limit.Some? && |data| > limit.value then Err(LimitExceeded(|data|, limit.value))
    else if |data| >= TWO32 then Err(LengthOverflow(|data|))
    else Ok(PutU32(|data|) + Padded(data))
  }

  /** `XdrLen::xdr_len`. */
  function Len(v: Value): nat {
    match v
    case VBytes(b) => |b|
    case VArray(items) => |items|
    case _ => 0
  }

  function Encode(s: Schema, v: Value): (r: Encoded)
    requires HasType(s, v)
    ensures r.Ok? && NonVoid(s) ==> |r.value| >= 4
    decreases s, 0, 0
  {
    match s
    case Void => Ok([])
    case Num(wide, _) => Ok(PutNum(wide, v.n))
    case Bool => Ok(PutU32(if v.b then 1 else 0))
    case Fixed(_) => Ok(Padded(v.bytes))
    case Opaque => EncodeOpaque(v.bytes, None)
    case Str => EncodeOpaque(v.bytes, None)
    case Array(elem) =>
      if |v.items| >= TWO32 then Err(LengthOverflow(|v.items|))
      else
        var body :- EncodeItems(elem, v.items);
        Ok(PutU32(|v.items|) + body)
    case Optional(elem) =>
      if v.VNone? then Ok(PutU32(0))
      else
        var body :- Encode(elem, v.some);
        Ok(PutU32(1) + body)
    case Linked(elem) => EncodeLinked(elem, v.items)
    case Struct(fields) => EncodeFields(fields, v.vals)
    case Enum32(discs) => Ok(PutU32(ToU32(discs[v.variant])))
    case Union(arms) => EncodeArm(arms, v.arm, v.vals)
  }

  function EncodeItems(elem: Schema, items: seq<Value>): (r: Encoded)
    requires forall i :: 0 <= i < |items| ==> HasType(elem, items[i])
    ensures r.Ok? && NonVoid(elem) ==> |r.value| >= 4 * |items|
    decreases elem, 1, |items|
  {
    if items == [] then Ok([])
    else
      var first :- Encode(elem, items[0]);
      var rest :- EncodeItems(elem, items[1..]);
      Ok(first + rest)
  }

  /** Each node is preceded by `TRUE`; `FALSE` ends the list. */
  function EncodeLinked(elem: Schema, items: seq<Value>): (r: Encoded)
    requires forall i :: 0 <= i < |items| ==> HasType(elem, items[i])
    ensures r.Ok? ==> |r.value| >= 4
    decreases elem, 1, |items|
  {
    if items == [] then Ok(PutU32(0))
    else
      var first :- Encode(elem, items[0]);
      var rest :- EncodeLinked(elem, items[1..]);
      Ok(PutU32(1) + (first + rest))
  }

  function EncodeFields(fs: Fields, vs: Values): (r: Encoded)
    requires HaveTypes(fs, vs)
    ensures r.Ok? && SomeNonVoid(fs) ==> |r.value| >= 4
    decreases fs, 0, 0
  {
    match fs
    case FNil => Ok([])
    case FCons(limit, s, tail) =>
      if limit.Some? && Len(vs.head) > limit.value then Err(LimitExceeded(Len(vs.head), limit.value))
      else
        var first :- Encode(s, vs.head);
        var rest :- EncodeFields(tail, vs.tail);
        Ok(first + rest)
  }

  function EncodeArm(arms: Arms, i: nat, vs: Values): (r: Encoded)
    requires ArmHasType(arms, i, vs)
    ensures r.Ok? ==> |r.value| >= 4
    decreases arms, 0, 0
  {
    if i > 0 then EncodeArm(arms.tail, i - 1, vs)
    else
      var body :- EncodeFields(arms.body, vs);
      Ok(PutU32(ToU32(ToI32(arms.attr))) + body)
  }

  // --- Decoding ---------------------------------------------------------------------------

  function DecodeU32(b: Bytes): (r: Decoded<u32>)
    ensures r.Ok? <==> |b| >= 4
    ensures r.Ok? ==> r.value.1 == b[4..]
    ensures r.Err? ==> r.error == Truncated(4, |b|)
  {
    if |b| < 4 then Err(Truncated(4, |b|)) else Ok((GetU32(b), b[4..]))
  }

  function DecodeNum(wide: bool, signed: bool, b: Bytes): (r: Decoded<Value>)
    ensures r.Ok? ==> |r.value.1| < |b|
  {
    if wide then
      if |b| < 8 then Err(Truncated(8, |b|))
      else Ok((VNum(if signed then ToI64(GetU64(b)) else GetU64(b)), b[8..]))
    else
      if |b| < 4 then Err(Truncated(4, |b|))
      else Ok((VNum(if signed then ToI32(GetU32(b)) else GetU32(b)), b[4..]))
  }

  function DecodeFixed(n: nat, b: Bytes): (r: Decoded<Bytes>)
    ensures r.Ok? ==> |r.value.1| <= |b|
  {
    if |b| < n + Padding(n) then Err(Truncated(n + Padding(n), |b|))
    else Ok((b[..n], b[n + Padding(n)..]))
  }

  /** `decode_opaque`: the length is checked against the limit, then against the bytes left. */
  function DecodeOpaque(limit: Option<nat>, b: Bytes): (r: Decoded<Bytes>)
    ensures r.Ok? ==> |r.value.1| + 4 <= |b|
  {
    var (len, rest) :- DecodeU32(b);
    if limit.Some? && len > limit.value then Err(LimitExceeded(len, limit.value))
    else DecodeFixed(len, rest)
  }

  function DecodeStr(b: Bytes): (r: Decoded<Bytes>)
    ensures r.Ok? ==> |r.value.1| + 4 <= |b|
  {
    var (raw, rest) :- DecodeOpaque(None, b);
    if ValidUtf8(raw) then Ok((raw, rest)) else Err(InvalidUtf8)
  }

  function DecodeBool(b: Bytes): (r: Decoded<bool>)
    ensures r.Ok? ==> |r.value.1| + 4 == |b|
  {
    var (w, rest) :- DecodeU32(b);
    if w == 0 then Ok((false, rest)) else if w == 1 then Ok((true, rest)) else Err(InvalidBool(w))
  }

  function FindDisc(discs: seq<i32>, d: i32): (r: Option<nat>)
    ensures r.Some? ==> r.value < |discs| && discs[r.value] == d
    ensures r.None? ==> d !in discs
    ensures r.Some? ==> forall i :: 0 <= i < r.value ==> discs[i] != d
  {
    if discs == [] then None
    else if discs[0] == d then Some(0)
    else
      match FindDisc(discs[1..], d)
      case None => None
      case Some(i) => Some(i + 1)
  }

  function Decode(s: Schema, b: Bytes): (r: Decoded<Value>)
    ensures r.Ok? ==> |r.value.1| <= |b|
    decreases s, 0, 0
  {
    match s
    case Void => Ok((VVoid, b))
    case Num(wide, signed) => DecodeNum(wide, signed, b)
    case Bool =>
      var (x, rest) :- DecodeBool(b);
      Ok((VBool(x), rest))
    case Fixed(n) =>
      var (data, rest) :- DecodeFixed(n, b);
      Ok((VBytes(data), rest))
    case Opaque =>
      var (data, rest) :- DecodeOpaque(None, b);
      Ok((VBytes(data), rest))
    case Str =>
      var (data, rest) :- DecodeStr(b);
      Ok((VBytes(data), rest))
    case Array(elem) =>
      var (count, rest) :- DecodeU32(b);
      if count > |rest| then Err(Truncated(count, |rest|))
      else
        var (items, end) :- DecodeItems(elem, count, rest);
        Ok((VArray(items), end))
    case Optional(elem) =>
      var (present, rest) :- DecodeBool(b);
      if !present then Ok((VNone, rest))
      else
        var (v, end) :- Decode(elem, rest);
        Ok((VSome(v), end))
    case Linked(elem) =>
      var (items, rest) :- DecodeLinked(elem, b);
      Ok((VArray(items), rest))
    case Struct(fields) =>
      var (vals, rest) :- DecodeFields(fields, b);
      Ok((VStruct(vals), rest))
    case Enum32(discs) =>
      var (w, rest) :- DecodeU32(b);
      var d := ToI32(w);
      (match FindDisc(discs, d)
       case None => Err(InvalidEnum(d))
       case Some(i) => Ok((VEnum(i), rest)))
    case Union(arms) =>
      var (w, rest) :- DecodeU32(b);
      DecodeArm(arms, 0, ToI32(w), rest)
  }

  function DecodeItems(elem: Schema, count: nat, b: Bytes): (r: Decoded<seq<Value>>)
    ensures r.Ok? ==> |r.value.1| <= |b| && |r.value.0| == count
    decreases elem, 1, count
  {
    if count == 0 then Ok(([], b))
    else
      var (v, rest) :- Decode(elem, b);
      var (vs, end) :- DecodeItems(elem, count - 1, rest);
      Ok(([v] + vs, end))
  }

  /** The recursive grammar: nothing, or an element followed by the rest of the list. */
  function DecodeLinked(elem: Schema, b: Bytes): (r: Decoded<seq<Value>>)
    ensures r.Ok? ==> |r.value.1| <= |b|
    decreases elem, 1, |b|
  {
    var (present, body) :- DecodeBool(b);
    if !present then Ok(([], body))
    else
      var (v, rest) :- Decode(elem, body);
      var (vs, end) :- DecodeLinked(elem, rest);
      Ok(([v] + vs, end))
  }

  function DecodeFields(fs: Fields, b: Bytes): (r: Decoded<Values>)
    ensures r.Ok? ==> |r.value.1| <= |b|
    decreases fs, 0, 0
  {
    match fs
    case FNil => Ok((VNil, b))
    case FCons(limit, s, tail) =>
      var (v, rest) :- Decode(s, b);
      if limit.Some? && Len(v) > limit.value then Err(LimitExceeded(Len(v), limit.value))
      else
        var (vs, end) :- DecodeFields(tail, rest);
        Ok((VCons(v, vs), end))
  }

  /** Variants are tried in declaration order; `skipped` of them have already failed. */
  function DecodeArm(arms: Arms, skipped: nat, d: i32, b: Bytes): (r: Decoded<Value>)
    ensures r.Ok? ==> |r.value.1| <= |b|
    decreases arms, 0, 0
  {
    match arms
    case ANil => Err(InvalidUnion(ToU32(d)))
    case ACons(attr, body, tail) =>
      if ToI32(attr) == d then
        var (vals, rest) :- DecodeFields(body, b);
        Ok((VUnion(skipped, vals), rest))
      else DecodeArm(tail, skipped + 1, d, b)
  }

  /** `from_bytes`: a whole message, with nothing left over. */
  function FromBytes(s: Schema, b: Bytes): Result<Value, XdrError> {
    var (v, rest) :- Decode(s, b);
    if |rest| > 0 then Err(TrailingData(|rest|)) else Ok(v)
  }
}
