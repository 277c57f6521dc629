/**
 * The codec as the source runs it: decoders advance a cursor over received bytes, encoders
 * append to a growing buffer, and arrays and linked lists are loops. Every method is proved
 * to compute the function of the same schema in module `Xdr`.
 */
module XdrCodec {
  import opened Wire
  import opened Xdr

  /** `bytes::Bytes` used as a read cursor. */
  class Cursor {
    var rest: Bytes

    constructor (data: Bytes)
      ensures rest == data
    {
      rest := data;
    }
  }

  /** `bytes::BytesMut` used as an output buffer. */
  class Buffer {
    var data: Bytes

    constructor ()
      ensures data == []
    {
      data := [];
    }
  }

  /** `r` is the outcome of `spec`, and on success the cursor stands where `spec` stopped. */
  ghost predicate Reads<T>(spec: Decoded<T>, r: Result<T, XdrError>, rest: Bytes) {
    match spec
    case Ok((v, b)) => r == Ok(v) && rest == b
    case Err(e) => r == Err(e)
  }

  /** On success exactly the encoding was appended; on failure whatever was there is intact. */
  ghost predicate Appends(spec: Encoded, r: Result<(), XdrError>, before: Bytes, after: Bytes) {
    match spec
    case Ok(b) => r == Ok(()) && after == before + b
    case Err(e) => r == Err(e) && before <= after
  }

  // --- Decoding ---------------------------------------------------------------------------

  method ReadU32(buf: Cursor) returns (r: Result<u32, XdrError>)
    modifies buf
    ensures Reads(DecodeU32(old(buf.rest)), r, buf.rest)
    ensures r.Err? ==> buf.rest == old(buf.rest)
  {
    if |buf.rest| < 4 {
      return Err(Truncated(4, |buf.rest|));
    }
    r := Ok(GetU32(buf.rest));
    buf.rest := buf.rest[4..];
  }

  method ReadBool(buf: Cursor) returns (r: Result<bool, XdrError>)
    modifies buf
    ensures Reads(DecodeBool(old(buf.rest)), r, buf.rest)
  {
    var w :- ReadU32(buf);
    if w == 0 {
      r := Ok(false);
    } else if w == 1 {
      r := Ok(true);
    } else {
      r := Err(InvalidBool(w));
    }
  }

  method ReadNum(wide: bool, signed: bool, buf: Cursor) returns (r: Result<Value, XdrError>)
    modifies buf
    ensures Reads(DecodeNum(wide, signed, old(buf.rest)), r, buf.rest)
  {
    var n := if wide then 8 else 4;
    if |buf.rest| < n {
      return Err(Truncated(n, |buf.rest|));
    }
    if wide {
      var x := GetU64(buf.rest);
      r := Ok(VNum(if signed then ToI64(x) else x));
    } else {
      var x := GetU32(buf.rest);
      r := Ok(VNum(if signed then ToI32(x) else x));
    }
    buf.rest := buf.rest[n..];
  }

  method ReadFixed(n: nat, buf: Cursor) returns (r: Result<Bytes, XdrError>)
    modifies buf
    ensures Reads(DecodeFixed(n, old(buf.rest)), r, buf.rest)
  {
    var pad := Padding(n);
    if |buf.rest| < n + pad {
      return Err(Truncated(n + pad, |buf.rest|));
    }
    r := Ok(buf.rest[..n]);
    buf.rest := buf.rest[n..];
    buf.rest := buf.rest[pad..];
  }

  method ReadOpaque(limit: Option<nat>, buf: Cursor) returns (r: Result<Bytes, XdrError>)
    modifies buf
    ensures Reads(DecodeOpaque(limit, old(buf.rest)), r, buf.rest)
  {
    var len :- ReadU32(buf);
    if limit.Some? && len > limit.value {
      return Err(LimitExceeded(len, limit.value));
    }
    r := ReadFixed(len, buf);
  }

  method ReadStr(buf: Cursor) returns (r: Result<Bytes, XdrError>)
    modifies buf
    ensures Reads(DecodeStr(old(buf.rest)), r, buf.rest)
  {
    var raw :- ReadOpaque(None, buf);
    r := if ValidUtf8(raw) then Ok(raw) else Err(InvalidUtf8);
  }

  method ReadValue(s: Schema, buf: Cursor) returns (r: Result<Value, XdrError>)
    modifies buf
    ensures Reads(Decode(s, old(buf.rest)), r, buf.rest)
    decreases s, 0
  {
    hide PutU32, GetU32;
    match s
    case Void => r := Ok(VVoid);
    case Num(wide, signed) => r := ReadNum(wide, signed, buf);
    case Bool =>
      var x :- ReadBool(buf);
      r := Ok(VBool(x));
    case Fixed(n) =>
      var data :- ReadFixed(n, buf);
      r := Ok(VBytes(data));
    case Opaque =>
      var data :- ReadOpaque(None, buf);
      r := Ok(VBytes(data));
    case Str =>
      var data :- ReadStr(buf);
      r := Ok(VBytes(data));
    case Array(elem) =>
      var items :- ReadVec(elem, buf);
      r := Ok(VArray(items));
    case Optional(elem) =>
      var present :- ReadBool(buf);
      if !present {
        return Ok(VNone);
      }
      var v :- ReadValue(elem, buf);
      r := Ok(VSome(v));
    case Linked(elem) =>
      var items :- ReadLinked(elem, buf);
      r := Ok(VArray(items));
    case Struct(fields) =>
      var vals :- ReadFields(fields, buf);
      r := Ok(VStruct(vals));
    case Enum32(discs) =>
      var w :- ReadU32(buf);
      var found := FindDisc(discs, ToI32(w));
      r := if found.Some? then Ok(VEnum(found.value)) else Err(InvalidEnum(ToI32(w)));
    case Union(arms) =>
      var w :- ReadU32(buf);
      r := ReadArm(arms, 0, ToI32(w), buf);
  }

  /** What is left of a list decode once `done` elements are in hand. */
  ghost function After(done: seq<Value>, tail: Decoded<seq<Value>>): (r: Decoded<seq<Value>>)
    ensures done == [] ==> r == tail
    ensures tail.Ok? && tail.value.0 == [] ==> r == Ok((done, tail.value.1))
  {
    match tail
    case Ok((vs, b)) =>
      assert [] + vs == vs && done + [] == done;
      Ok((done + vs, b))
    case Err(e) => Err(e)
  }

  lemma {:induction false} AfterSnoc(done: seq<Value>, v: Value, tail: Decoded<seq<Value>>)
    ensures After(done, After([v], tail)) == After(done + [v], tail)
  {
    if tail.Ok? {
      Assoc(done, [v], tail.value.0);
    }
  }

  /** One round of the element loop. */
  lemma {:induction false} ItemsStep(elem: Schema, n: nat, b: Bytes)
    ensures DecodeItems(elem, n, b) ==
      if n == 0 then Ok(([], b))
      else
        var node := Decode(elem, b);
        if node.Err? then Err(node.error)
        else After([node.value.0], DecodeItems(elem, n - 1, node.value.1))
  {
    hide Decode;
  }

  /** The `Vec<T>` decoder: the count is checked against the bytes left, then elements loop. */
  method ReadVec(elem: Schema, buf: Cursor) returns (r: Result<seq<Value>, XdrError>)
    modifies buf
    ensures
      var head := DecodeU32(old(buf.rest));
      if head.Err? then r == Err(head.error)
      else if head.value.0 > |head.value.1| then r == Err(Truncated(head.value.0, |head.value.1|))
      else Reads(DecodeItems(elem, head.value.0, head.value.1), r, buf.rest)
    decreases elem, 1
  {
    hide PutU32, GetU32, Decode, DecodeItems;
    var count :- ReadU32(buf);
    if count > |buf.rest| {
      return Err(Truncated(count, |buf.rest|));
    }
    ghost var body := buf.rest;
    var out: seq<Value> := [];
    for i := 0 to count
      invariant DecodeItems(elem, count, body) == After(out, DecodeItems(elem, count - i, buf.rest))
    {
      ItemsStep(elem, count - i, buf.rest);
      var v :- ReadValue(elem, buf);
      AfterSnoc(out, v, DecodeItems(elem, count - i - 1, buf.rest));
      out := out + [v];
    }
    ItemsStep(elem, 0, buf.rest);
    r := Ok(out);
  }

  /**
   * The hand-written list decoders: while a `TRUE` is read, decode one node and push it. Each
   * round consumes at least the four bytes of its boolean.
   */
  method ReadLinked(elem: Schema, buf: Cursor) returns (r: Result<seq<Value>, XdrError>)
    modifies buf
    ensures Reads(DecodeLinked(elem, old(buf.rest)), r, buf.rest)
    decreases elem, 1
  {
    hide PutU32, GetU32, Decode;
    ghost var body := buf.rest;
    var out: seq<Value> := [];
    while true
      invariant DecodeLinked(elem, body) == After(out, DecodeLinked(elem, buf.rest))
      decreases |buf.rest|
    {
      ghost var tail := buf.rest;
      var present :- ReadBool(buf);
      if !present {
        return Ok(out);
      }
      var v :- ReadValue(elem, buf);
      assert DecodeLinked(elem, tail) == After([v], DecodeLinked(elem, buf.rest));
      AfterSnoc(out, v, DecodeLinked(elem, buf.rest));
      out := out + [v];
    }
  }

  method ReadFields(fs: Fields, buf: Cursor) returns (r: Result<Values, XdrError>)
    modifies buf
    ensures Reads(DecodeFields(fs, old(buf.rest)), r, buf.rest)
    decreases fs, 0
  {
    if fs.FNil? {
      return Ok(VNil);
    }
    var v :- ReadValue(fs.head, buf);
    if fs.limit.Some? && Len(v) > fs.limit.value {
      return Err(LimitExceeded(Len(v), fs.limit.value));
    }
    var vs :- ReadFields(fs.tail, buf);
    r := Ok(VCons(v, vs));
  }

  method ReadArm(arms: Arms, skipped: nat, d: i32, buf: Cursor) returns (r: Result<Value, XdrError>)
    modifies buf
    ensures Reads(DecodeArm(arms, skipped, d, old(buf.rest)), r, buf.rest)
    decreases arms, 0
  {
    if arms.ANil? {
      return Err(InvalidUnion(ToU32(d)));
    }
    if ToI32(arms.attr) == d {
      var vals :- ReadFields(arms.body, buf);
      r := Ok(VUnion(skipped, vals));
    } else {
      r := ReadArm(arms.tail, skipped + 1, d, buf);
    }
  }

  /** `from_bytes`. */
  method ReadMessage(s: Schema, data: Bytes) returns (r: Result<Value, XdrError>)
    ensures r == FromBytes(s, data)
  {
    var buf := new Cursor(data);
    var v :- ReadValue(s, buf);
    r := if |buf.rest| > 0 then Err(TrailingData(|buf.rest|)) else Ok(v);
  }

  // --- Encoding ---------------------------------------------------------------------------

  method WriteOpaque(buf: Buffer, data: Bytes, limit: Option<nat>) returns (r: Result<(), XdrError>)
    modifies buf
    ensures Appends(EncodeOpaque(data, limit), r, old(buf.data), buf.data)
  {
    if limit.Some? && |data| > limit.value {
      return Err(LimitExceeded(|data|, limit.value));
    }
    if |data| >= TWO32 {
      return Err(LengthOverflow(|data|));
    }
    ghost var before := buf.data;
    buf.data := buf.data + PutU32(|data|);
    buf.data := buf.data + data;
    buf.data := buf.data + Zeros(Padding(|data|));
    assert buf.data == before + (PutU32(|data|) + Padded(data));
    r := Ok(());
  }

  method WriteValue(s: Schema, v: Value, buf: Buffer) returns (r: Result<(), XdrError>)
    requires HasType(s, v)
    modifies buf
    ensures Appends(Encode(s, v), r, old(buf.data), buf.data)
    decreases s, 0
  {
    hide PutU32, GetU32;
    match s
    case Void => r := Ok(());
    case Num(wide, _) => buf.data := buf.data + PutNum(wide, v.n); r := Ok(());
    case Bool => buf.data := buf.data + PutU32(if v.b then 1 else 0); r := Ok(());
    case Fixed(n) =>
      Assoc(buf.data, v.bytes, Zeros(Padding(n)));
      buf.data := buf.data + v.bytes;
      buf.data := buf.data + Zeros(Padding(n));
      r := Ok(());
    case Opaque => r := WriteOpaque(buf, v.bytes, None);
    case Str => r := WriteOpaque(buf, v.bytes, None);
    case Array(elem) => r := WriteVec(elem, v.items, buf);
    case Optional(elem) =>
      if v.VNone? {
        buf.data := buf.data + PutU32(0);
        r := Ok(());
      } else {
        ghost var before := buf.data;
        buf.data := buf.data + PutU32(1);
        r := WriteValue(elem, v.some, buf);
        if r.Ok? {
          Assoc(before, PutU32(1), Encode(elem, v.some).value);
        }
      }
    case Linked(elem) => r := WriteLinked(elem, v.items, buf);
    case Struct(fields) => r := WriteFields(fields, v.vals, buf);
    case Enum32(discs) => buf.data := buf.data + PutU32(ToU32(discs[v.variant])); r := Ok(());
    case Union(arms) => r := WriteArm(arms, v.arm, v.vals, buf);
  }

  lemma {:induction false} NoItems(elem: Schema)
    ensures EncodeItems(elem, []) == Ok([])
  {
  }

  /** One round of the element loop. */
  lemma {:induction false} EncodeStep(elem: Schema, items: seq<Value>, i: nat)
    requires i < |items| && forall k :: 0 <= k < |items| ==> HasType(elem, items[k])
    ensures EncodeItems(elem, items[i..]) ==
      var e := Encode(elem, items[i]);
      if e.Err? then Err(e.error) else Before(e.value, EncodeItems(elem, items[i + 1..]))
  {
    hide Encode, HasType;
    assert items[i..][1..] == items[i + 1..];
  }

  /** The `Vec<T>` encoder: the count, then each element in turn. */
  method WriteVec(elem: Schema, items: seq<Value>, buf: Buffer) returns (r: Result<(), XdrError>)
    requires forall i :: 0 <= i < |items| ==> HasType(elem, items[i])
    modifies buf
    ensures Appends(Encode(Array(elem), VArray(items)), r, old(buf.data), buf.data)
    decreases elem, 1
  {
    hide PutU32, GetU32, HasType, EncodeItems;
    if |items| >= TWO32 {
      return Err(LengthOverflow(|items|));
    }
    ghost var before := buf.data + PutU32(|items|);
    buf.data := buf.data + PutU32(|items|);
    ghost var done: Bytes := [];
    assert items[0..] == items;
    for i := 0 to |items|
      invariant buf.data == before + done
      invariant EncodeItems(elem, items) == Before(done, EncodeItems(elem, items[i..]))
    {
      EncodeStep(elem, items, i);
      ghost var spec := Encode(elem, items[i]);
      ghost var tail := EncodeItems(elem, items[i + 1..]);
      var _ :- WriteValue(elem, items[i], buf);
      BeforeConcat(done, spec.value, tail);
      Assoc(before, done, spec.value);
      done := done + spec.value;
    }
    assert items[|items|..] == [];
    NoItems(elem);
    Assoc(old(buf.data), PutU32(|items|), done);
    r := Ok(());
  }

  ghost function Before(done: Bytes, tail: Encoded): (r: Encoded)
    ensures done == [] ==> r == tail
    ensures tail == Ok([]) ==> r == Ok(done)
  {
    match tail
    case Ok(b) =>
      assert [] + b == b && done + [] == done;
      Ok(done + b)
    case Err(e) => Err(e)
  }

  lemma {:induction false} BeforeConcat(done: Bytes, more: Bytes, tail: Encoded)
    ensures Before(done, Before(more, tail)) == Before(done + more, tail)
  {
    if tail.Ok? {
      Assoc(done, more, tail.value);
    }
  }

  /** The server's side of a linked list; the client only decodes them. */
  method WriteLinked(elem: Schema, items: seq<Value>, buf: Buffer) returns (r: Result<(), XdrError>)
    requires forall i :: 0 <= i < |items| ==> HasType(elem, items[i])
    modifies buf
    ensures Appends(EncodeLinked(elem, items), r, old(buf.data), buf.data)
    decreases elem, 1, |items|
  {
    hide PutU32, GetU32, HasType;
    ghost var before := buf.data;
    if items == [] {
      buf.data := buf.data + PutU32(0);
      return Ok(());
    }
    buf.data := buf.data + PutU32(1);
    var _ :- WriteValue(elem, items[0], buf);
    r := WriteLinked(elem, items[1..], buf);
    if r.Ok? {
      ghost var e, f := Encode(elem, items[0]).value, EncodeLinked(elem, items[1..]).value;
      Assoc(before + PutU32(1), e, f);
      Assoc(before, PutU32(1), e + f);
    }
  }

  method WriteFields(fs: Fields, vs: Values, buf: Buffer) returns (r: Result<(), XdrError>)
    requires HaveTypes(fs, vs)
    modifies buf
    ensures Appends(EncodeFields(fs, vs), r, old(buf.data), buf.data)
    decreases fs, 0
  {
    if fs.FNil? {
      return Ok(());
    }
    if fs.limit.Some? && Len(vs.head) > fs.limit.value {
      return Err(LimitExceeded(Len(vs.head), fs.limit.value));
    }
    ghost var before := buf.data;
    var _ :- WriteValue(fs.head, vs.head, buf);
    r := WriteFields(fs.tail, vs.tail, buf);
    if r.Ok? {
      Assoc(before, Encode(fs.head, vs.head).value, EncodeFields(fs.tail, vs.tail).value);
    }
  }

  method WriteArm(arms: Arms, i: nat, vs: Values, buf: Buffer) returns (r: Result<(), XdrError>)
    requires ArmHasType(arms, i, vs)
    modifies buf
    ensures Appends(EncodeArm(arms, i, vs), r, old(buf.data), buf.data)
    decreases arms, 0
  {
    if i > 0 {
      r := WriteArm(arms.tail, i - 1, vs, buf);
    } else {
      ghost var before := buf.data;
      ghost var tag := PutU32(ToU32(ToI32(arms.attr)));
      buf.data := buf.data + PutU32(ToU32(ToI32(arms.attr)));
      r := WriteFields(arms.body, vs, buf);
      if r.Ok? {
        Assoc(before, tag, EncodeFields(arms.body, vs).value);
      }
    }
  }
}
