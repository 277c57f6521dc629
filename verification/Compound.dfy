/**
 * The `COMPOUND` builder of the NFSv4 client and the reader a server applies to its output.
 *
 * The builder appends each operation's arguments one primitive after another. The reader knows
 * the nested grammar of section 15.2 and chapter 16 of RFC 7530: structs inside structs, and
 * unions for what to create, how to open and who locks. The theorems say that they agree.
 */
module Compound {
  import opened Wire
  import opened Xdr
  import opened XdrTheorems
  import opened XdrCodec
  import opened Fattr4

  type Other = b: Bytes | |b| == 12 witness seq(12, _ => 0)
  type Verifier = b: Bytes | |b| == 8 witness seq(8, _ => 0)
  type SessionId = b: Bytes | |b| == 16 witness seq(16, _ => 0)

  datatype Stateid = Stateid(seqid: u32, other: Other)

  /** One call of the builder. */
  datatype Op =
    | PutRootFh
    | PutFh(fh: Bytes)
    | GetFh
    | SaveFh
    | GetAttr(bits: seq<u32>)
    | Lookup(name: Text)
    | Access(mask: u32)
    | ReadLink
    | Read(stateid: Stateid, offset: u64, count: u32)
    | Write(stateid: Stateid, offset: u64, stable: u32, data: Bytes)
    | Commit(offset: u64, count: u32)
    | Remove(name: Text)
    | Rename(oldName: Text, name: Text)
    | Link(name: Text)
    | Renew(clientid: u64)
    | CreateDir(name: Text)
    | CreateSymlink(name: Text, target: Text)
    | Open(seqid: u32, clientid: u64, owner: Bytes, access: u32, create: bool, name: Text)
    | OpenConfirm(stateid: Stateid, seqid: u32)
    | Close(seqid: u32, stateid: Stateid)
    | LockNew(locktype: u32, offset: u64, length: u64, seqid: u32, stateid: Stateid, lockSeqid: u32, clientid: u64, owner: Bytes)
    | Locku(locktype: u32, seqid: u32, stateid: Stateid, offset: u64, length: u64)
    | Lockt(locktype: u32, offset: u64, length: u64, clientid: u64, owner: Bytes)
    | SetAttr(stateid: Stateid, attrs: SetAttr4)
    | ReadDir(cookie: u64, verf: Verifier, dircount: u32, maxcount: u32, bits: seq<u32>)
    | Sequence(session: SessionId, seqid: u32, slot: u32, highest: u32, cache: bool)

  function OpNum(op: Op): u32 {
    match op
    case Access(_) => 3
    case Close(_, _) => 4
    case Commit(_, _) => 5
    case CreateDir(_) => 6
    case CreateSymlink(_, _) => 6
    case GetAttr(_) => 9
    case GetFh => 10
    case Link(_) => 11
    case LockNew(_, _, _, _, _, _, _, _) => 12
    case Lockt(_, _, _, _, _) => 13
    case Locku(_, _, _, _, _) => 14
    case Lookup(_) => 15
    case Open(_, _, _, _, _, _) => 18
    case OpenConfirm(_, _) => 20
    case PutFh(_) => 22
    case PutRootFh => 24
    case Read(_, _, _) => 25
    case ReadDir(_, _, _, _, _) => 26
    case ReadLink => 27
    case Remove(_) => 28
    case Rename(_, _) => 29
    case Renew(_) => 30
    case SaveFh => 32
    case SetAttr(_, _) => 34
    case Write(_, _, _, _) => 38
    case Sequence(_, _, _, _, _) => 53
  }

  // --- What the builder writes ------------------------------------------------------------

  const STATEID: Schema := Struct(F2(U32, Fixed(12)))
  const BITMAP: Schema := Array(U32)

  function StateidValue(st: Stateid): Value {
    VStruct(V2(VNum(st.seqid), VBytes(st.other)))
  }

  function BitmapValue(bits: seq<u32>): Value {
    VArray(Words(Bitmap(bits)))
  }

  // Short argument lists, and longer ones as a head in front of a tail.

  function FF2(a: Schema, b: Schema, tail: Fields): Fields { FCons(None, a, FCons(None, b, tail)) }
  function FF3(a: Schema, b: Schema, c: Schema, tail: Fields): Fields { FCons(None, a, FF2(b, c, tail)) }
  function FF4(a: Schema, b: Schema, c: Schema, d: Schema, tail: Fields): Fields { FCons(None, a, FF3(b, c, d, tail)) }
  function FF5(a: Schema, b: Schema, c: Schema, d: Schema, e: Schema, tail: Fields): Fields { FCons(None, a, FF4(b, c, d, e, tail)) }

  function F1(a: Schema): Fields { FCons(None, a, FNil) }
  function F2(a: Schema, b: Schema): Fields { FF2(a, b, FNil) }
  function F3(a: Schema, b: Schema, c: Schema): Fields { FF3(a, b, c, FNil) }
  function F4(a: Schema, b: Schema, c: Schema, d: Schema): Fields { FF4(a, b, c, d, FNil) }
  function F5(a: Schema, b: Schema, c: Schema, d: Schema, e: Schema): Fields { FF5(a, b, c, d, e, FNil) }

  function VV2(a: Value, b: Value, tail: Values): Values { VCons(a, VCons(b, tail)) }
  function VV3(a: Value, b: Value, c: Value, tail: Values): Values { VCons(a, VV2(b, c, tail)) }
  function VV4(a: Value, b: Value, c: Value, d: Value, tail: Values): Values { VCons(a, VV3(b, c, d, tail)) }
  function VV5(a: Value, b: Value, c: Value, d: Value, e: Value, tail: Values): Values { VCons(a, VV4(b, c, d, e, tail)) }

  function V1(a: Value): Values { VCons(a, VNil) }
  function V2(a: Value, b: Value): Values { VV2(a, b, VNil) }
  function V3(a: Value, b: Value, c: Value): Values { VV3(a, b, c, VNil) }
  function V4(a: Value, b: Value, c: Value, d: Value): Values { VV4(a, b, c, d, VNil) }
  function V5(a: Value, b: Value, c: Value, d: Value, e: Value): Values { VV5(a, b, c, d, e, VNil) }

  const CREATE_DIR: Fields := F4(U32, Str, BITMAP, U32)
  const CREATE_LINK: Fields := F5(U32, Str, Str, BITMAP, U32)
  const OPEN_NEW: Fields := FF4(U32, U32, BITMAP, U32, F2(U32, Str))
  const OPEN_OLD: Fields := F3(U32, U32, Str)
  const LOCK_FLAT: Fields := FF5(U32, Bool, U64, U64, Bool, F5(U32, STATEID, U32, U64, Opaque))

  /** The types of the values a builder method encodes, in the order it encodes them. */
  function FlatFields(op: Op): Fields {
    match op
    case PutRootFh => FNil
    case PutFh(_) => FCons(Some(128), Opaque, FNil)
    case GetFh => FNil
    case SaveFh => FNil
    case GetAttr(_) => F1(BITMAP)
    case Lookup(_) => F1(Str)
    case Access(_) => F1(U32)
    case ReadLink => FNil
    case Read(_, _, _) => F3(STATEID, U64, U32)
    case Write(_, _, _, _) => F4(STATEID, U64, U32, Opaque)
    case Commit(_, _) => F2(U64, U32)
    case Remove(_) => F1(Str)
    case Rename(_, _) => F2(Str, Str)
    case Link(_) => F1(Str)
    case Renew(_) => F1(U64)
    case CreateDir(_) => CREATE_DIR
    case CreateSymlink(_, _) => CREATE_LINK
    case Open(_, _, _, _, create, _) => FF5(U32, U32, U32, U64, Opaque, if create then OPEN_NEW else OPEN_OLD)
    case OpenConfirm(_, _) => F2(STATEID, U32)
    case Close(_, _) => F2(U32, STATEID)
    case LockNew(_, _, _, _, _, _, _, _) => LOCK_FLAT
    case Locku(_, _, _, _, _) => F5(U32, U32, STATEID, U64, U64)
    case Lockt(_, _, _, _, _) => F5(U32, U64, U64, U64, Opaque)
    case SetAttr(_, _) => F3(STATEID, BITMAP, Opaque)
    case ReadDir(_, _, _, _, _) => F5(U64, Fixed(8), U32, U32, BITMAP)
    case Sequence(_, _, _, _, _) => F5(Fixed(16), U32, U32, U32, Bool)
  }

  /** The flag, mode, empty attributes and claim that end an OPEN. */
  function OpenTail(create: bool, name: Text): Values {
    if create then VV4(VNum(1), VNum(0), BitmapValue([]), VNum(0), V2(VNum(0), VBytes(name)))
    else V3(VNum(0), VNum(0), VBytes(name))
  }

  function LockTail(seqid: u32, st: Stateid, lockSeqid: u32, clientid: u64, owner: Bytes): Values {
    V5(VNum(seqid), StateidValue(st), VNum(lockSeqid), VNum(clientid), VBytes(owner))
  }

  /** The values themselves; constants are those the source writes. */
  function FlatValues(op: Op): Values {
    match op
    case PutRootFh => VNil
    case PutFh(fh) => V1(VBytes(fh))
    case GetFh => VNil
    case SaveFh => VNil
    case GetAttr(bits) => V1(BitmapValue(bits))
    case Lookup(name) => V1(VBytes(name))
    case Access(mask) => V1(VNum(mask))
    case ReadLink => VNil
    case Read(st, offset, count) => V3(StateidValue(st), VNum(offset), VNum(count))
    case Write(st, offset, stable, data) => V4(StateidValue(st), VNum(offset), VNum(stable), VBytes(data))
    case Commit(offset, count) => V2(VNum(offset), VNum(count))
    case Remove(name) => V1(VBytes(name))
    case Rename(from, to) => V2(VBytes(from), VBytes(to))
    case Link(name) => V1(VBytes(name))
    case Renew(clientid) => V1(VNum(clientid))
    case CreateDir(name) => V4(VNum(2), VBytes(name), BitmapValue([]), VNum(0))
    case CreateSymlink(name, target) => V5(VNum(5), VBytes(target), VBytes(name), BitmapValue([]), VNum(0))
    case Open(seqid, clientid, owner, access, create, name) =>
      VV5(VNum(seqid), VNum(access), VNum(0), VNum(clientid), VBytes(owner), OpenTail(create, name))
    case OpenConfirm(st, seqid) => V2(StateidValue(st), VNum(seqid))
    case Close(seqid, st) => V2(VNum(seqid), StateidValue(st))
    case LockNew(locktype, offset, length, seqid, st, lockSeqid, clientid, owner) =>
      VV5(VNum(locktype), VBool(false), VNum(offset), VNum(length), VBool(true),
          LockTail(seqid, st, lockSeqid, clientid, owner))
    case Locku(locktype, seqid, st, offset, length) =>
      V5(VNum(locktype), VNum(seqid), StateidValue(st), VNum(offset), VNum(length))
    case Lockt(locktype, offset, length, clientid, owner) =>
      V5(VNum(locktype), VNum(offset), VNum(length), VNum(clientid), VBytes(owner))
    case SetAttr(st, attrs) => V3(StateidValue(st), BitmapValue(SetBits(attrs)), VBytes(SetValues(attrs)))
    case ReadDir(cookie, verf, dircount, maxcount, bits) =>
      V5(VNum(cookie), VBytes(verf), VNum(dircount), VNum(maxcount), BitmapValue(bits))
    case Sequence(session, seqid, slot, highest, cache) =>
      V5(VBytes(session), VNum(seqid), VNum(slot), VNum(highest), VBool(cache))
  }

  function AppF(a: Fields, b: Fields): Fields {
    match a
    case FNil => b
    case FCons(limit, s, tail) => FCons(limit, s, AppF(tail, b))
  }

  function AppV(a: Values, b: Values): Values {
    match a
    case VNil => b
    case VCons(v, tail) => VCons(v, AppV(tail, b))
  }

  lemma {:induction false} BitmapTyped(bits: seq<u32>)
    ensures HasType(BITMAP, BitmapValue(bits))
  {
    WordsEncoding(Bitmap(bits));
  }

  lemma {:induction false} StateidTyped(st: Stateid)
    ensures HasType(STATEID, StateidValue(st))
  {
  }

  lemma {:induction false} LeavesTyped()
    ensures forall n: u32 :: HasType(U32, VNum(n))
    ensures forall n: u64 :: HasType(U64, VNum(n))
    ensures forall b: Bytes :: HasType(Opaque, VBytes(b))
    ensures forall x: bool :: HasType(Bool, VBool(x))
    ensures forall s: Text :: HasType(Str, VBytes(s))
    ensures forall b: Bytes :: HasType(Fixed(|b|), VBytes(b))
  {
  }

  lemma {:induction false} OpenTyped(op: Op)
    requires op.Open?
    ensures HaveTypes(FlatFields(op), FlatValues(op))
  {
    hide BitmapValue, ValidUtf8, HasType;
    LeavesTyped();
    BitmapTyped([]);
  }

  lemma {:induction false} LockTyped(op: Op)
    requires op.LockNew?
    ensures HaveTypes(FlatFields(op), FlatValues(op))
  {
    hide StateidValue, HasType;
    LeavesTyped();
    StateidTyped(op.stateid);
    assert HaveTypes(F5(U32, STATEID, U32, U64, Opaque), LockTail(op.seqid, op.stateid, op.lockSeqid, op.clientid, op.owner));
  }

  lemma {:induction false} StatefulTyped(op: Op)
    requires op.Read? || op.Write? || op.OpenConfirm? || op.Close? || op.Locku? || op.SetAttr?
    ensures HaveTypes(FlatFields(op), FlatValues(op))
  {
    hide BitmapValue, StateidValue, SetValues, HasType;
    LeavesTyped();
    StateidTyped(op.stateid);
    if op.SetAttr? {
      BitmapTyped(SetBits(op.attrs));
    }
  }

  lemma {:induction false} StatelessTyped(op: Op)
    requires op.GetAttr? || op.ReadDir? || op.CreateDir? || op.CreateSymlink? || op.Lockt? || op.Sequence? || op.Rename? || op.Commit?
    ensures HaveTypes(FlatFields(op), FlatValues(op))
  {
    hide BitmapValue, ValidUtf8, HasType;
    LeavesTyped();
    if op.GetAttr? || op.ReadDir? {
      BitmapTyped(op.bits);
    }
    BitmapTyped([]);
  }

  lemma {:induction false} ShortTyped(op: Op)
    requires op.PutRootFh? || op.PutFh? || op.GetFh? || op.SaveFh? || op.Lookup? || op.Access? || op.ReadLink? || op.Remove? || op.Link? || op.Renew?
    ensures HaveTypes(FlatFields(op), FlatValues(op))
  {
    hide ValidUtf8;
  }

  lemma {:induction false} FlatTyped(op: Op)
    ensures HaveTypes(FlatFields(op), FlatValues(op))
  {
    hide HaveTypes, FlatFields, FlatValues;
    if op.Open? {
      OpenTyped(op);
    } else if op.LockNew? {
      LockTyped(op);
    } else if op.Read? || op.Write? || op.OpenConfirm? || op.Close? || op.Locku? || op.SetAttr? {
      StatefulTyped(op);
    } else if op.PutRootFh? || op.PutFh? || op.GetFh? || op.SaveFh? || op.Lookup? || op.Access? || op.ReadLink? || op.Remove? || op.Link? || op.Renew? {
      ShortTyped(op);
    } else {
      StatelessTyped(op);
    }
  }

  /** The arguments of one operation, or the first error its builder method runs into. */
  function ArgBytes(op: Op): Encoded {
    FlatTyped(op);
    EncodeFields(FlatFields(op), FlatValues(op))
  }

  /** A file handle is the only argument with a limit. */
  lemma {:induction false} HandleLimit(fh: Bytes)
    ensures |fh| <= 128 ==> ArgBytes(PutFh(fh)).Ok?
    ensures |fh| > 128 ==> ArgBytes(PutFh(fh)) == Err(LimitExceeded(|fh|, 128))
  {
    assert EncodeFields(FNil, VNil) == Ok([]);
  }

  function OpBytes(op: Op): Encoded {
    Seq2(Ok(PutU32(OpNum(op))), ArgBytes(op))
  }

  function OpsBytes(log: seq<Op>): Encoded {
    if log == [] then Ok([]) else Seq2(OpBytes(log[0]), OpsBytes(log[1..]))
  }

  function Seq2(a: Encoded, b: Encoded): Encoded {
    if a.Err? then a else if b.Err? then b else Ok(a.value + b.value)
  }

  lemma {:induction false} Seq2Assoc(a: Encoded, b: Encoded, c: Encoded)
    ensures Seq2(Seq2(a, b), c) == Seq2(a, Seq2(b, c))
  {
    if a.Ok? && b.Ok? && c.Ok? {
      Assoc(a.value, b.value, c.value);
    }
  }

  lemma {:induction false} OpsSnoc(log: seq<Op>, op: Op)
    ensures OpsBytes(log + [op]) == Seq2(OpsBytes(log), OpBytes(op))
  {
    hide OpBytes;
    if log == [] {
      assert [op][1..] == [];
      var e := OpBytes(op);
      assert e.Ok? ==> e.value + [] == e.value && [] + e.value == e.value;
    } else {
      assert (log + [op])[1..] == log[1..] + [op];
      OpsSnoc(log[1..], op);
      Seq2Assoc(OpBytes(log[0]), OpsBytes(log[1..]), OpBytes(op));
    }
  }

  // --- Every operation, written out -------------------------------------------------------

  lemma {:induction false} Args1(a: Schema, x: Value, ea: Bytes)
    requires HasType(a, x) && Encode(a, x) == Ok(ea)
    ensures EncodeFields(F1(a), V1(x)) == Ok(ea)
  {
    hide Encode, HasType, EncodeFields, HaveTypes;
    OneField(a, x, ea);
  }

  lemma {:induction false} Args2(a: Schema, x: Value, ea: Bytes, b: Schema, y: Value, eb: Bytes)
    requires HasType(a, x) && Encode(a, x) == Ok(ea) && HasType(b, y) && Encode(b, y) == Ok(eb)
    ensures HaveTypes(F2(a, b), V2(x, y)) && EncodeFields(F2(a, b), V2(x, y)) == Ok(ea + eb)
  {
    hide Encode, HasType, EncodeFields, HaveTypes;
    OneField(b, y, eb);
    MoreFields(a, x, ea, F1(b), V1(y), eb);
  }

  lemma {:induction false} Args3(a: Schema, x: Value, ea: Bytes, b: Schema, y: Value, eb: Bytes, c: Schema, z: Value, ec: Bytes)
    requires HasType(a, x) && Encode(a, x) == Ok(ea) && HasType(b, y) && Encode(b, y) == Ok(eb)
    requires HasType(c, z) && Encode(c, z) == Ok(ec)
    ensures HaveTypes(F3(a, b, c), V3(x, y, z)) && EncodeFields(F3(a, b, c), V3(x, y, z)) == Ok(ea + (eb + ec))
  {
    hide Encode, HasType, EncodeFields, HaveTypes;
    Args2(b, y, eb, c, z, ec);
    MoreFields(a, x, ea, F2(b, c), V2(y, z), eb + ec);
  }

  lemma {:induction false} Args4(a: Schema, x: Value, ea: Bytes, b: Schema, y: Value, eb: Bytes, c: Schema, z: Value, ec: Bytes, d: Schema, u: Value, ed: Bytes)
    requires HasType(a, x) && Encode(a, x) == Ok(ea) && HasType(b, y) && Encode(b, y) == Ok(eb)
    requires HasType(c, z) && Encode(c, z) == Ok(ec) && HasType(d, u) && Encode(d, u) == Ok(ed)
    ensures HaveTypes(F4(a, b, c, d), V4(x, y, z, u)) && EncodeFields(F4(a, b, c, d), V4(x, y, z, u)) == Ok(ea + (eb + (ec + ed)))
  {
    hide Encode, HasType, EncodeFields, HaveTypes;
    Args3(b, y, eb, c, z, ec, d, u, ed);
    MoreFields(a, x, ea, F3(b, c, d), V3(y, z, u), eb + (ec + ed));
  }

  lemma {:induction false} Args5(a: Schema, x: Value, ea: Bytes, b: Schema, y: Value, eb: Bytes, c: Schema, z: Value, ec: Bytes, d: Schema, u: Value, ed: Bytes, e: Schema, w: Value, ee: Bytes)
    requires HasType(a, x) && Encode(a, x) == Ok(ea) && HasType(b, y) && Encode(b, y) == Ok(eb)
    requires HasType(c, z) && Encode(c, z) == Ok(ec) && HasType(d, u) && Encode(d, u) == Ok(ed) && HasType(e, w) && Encode(e, w) == Ok(ee)
    ensures HaveTypes(F5(a, b, c, d, e), V5(x, y, z, u, w))
    ensures EncodeFields(F5(a, b, c, d, e), V5(x, y, z, u, w)) == Ok(ea + (eb + (ec + (ed + ee))))
  {
    hide Encode, HasType, EncodeFields, HaveTypes;
    Args4(b, y, eb, c, z, ec, d, u, ed, e, w, ee);
    MoreFields(a, x, ea, F4(b, c, d, e), V4(y, z, u, w), eb + (ec + (ed + ee)));
  }

  lemma {:induction false} StateidIs(st: Stateid)
    ensures HasType(STATEID, StateidValue(st)) && Encode(STATEID, StateidValue(st)) == Ok(PutU32(st.seqid) + st.other)
  {
    hide PutU32, EncodeFields, HaveTypes;
    WordIs(st.seqid);
    FixedIs(st.other, 12);
    Args2(U32, VNum(st.seqid), PutU32(st.seqid), Fixed(12), VBytes(st.other), st.other);
    StructIs(F2(U32, Fixed(12)), V2(VNum(st.seqid), VBytes(st.other)));
  }

  lemma {:induction false} FixedIs(data: Bytes, n: nat)
    requires |data| == n && n % 4 == 0
    ensures HasType(Fixed(n), VBytes(data)) && Encode(Fixed(n), VBytes(data)) == Ok(data)
  {
    assert Padded(data) == data;
  }

  lemma {:induction false} BitmapIs(bits: seq<u32>)
    ensures |Bitmap(bits)| < TWO32
    ensures HasType(BITMAP, BitmapValue(bits)) && Encode(BITMAP, BitmapValue(bits)) == Ok(PutWords(Bitmap(bits)))
  {
    hide Bitmap, PutWords;
    MaxWordSmall(bits);
    WordsAreArray(Bitmap(bits));
  }

  lemma {:induction false} FlagIs(x: bool)
    ensures HasType(Bool, VBool(x)) && Encode(Bool, VBool(x)) == Ok(PutU32(if x then 1 else 0))
  {
  }

  /** Names and handles. */
  lemma {:induction false} NameLayouts(name: Text, other: Text, fh: Bytes, mask: u32, clientid: u64)
    requires |name| < TWO32 && |other| < TWO32 && |fh| <= 128
    ensures OpBytes(PutFh(fh)) == Ok(PutU32(22) + Counted(fh))
    ensures OpBytes(Lookup(name)) == Ok(PutU32(15) + Counted(name))
    ensures OpBytes(Remove(name)) == Ok(PutU32(28) + Counted(name))
    ensures OpBytes(Link(name)) == Ok(PutU32(11) + Counted(name))
    ensures OpBytes(Rename(name, other)) == Ok(PutU32(29) + (Counted(name) + Counted(other)))
    ensures OpBytes(Access(mask)) == Ok(PutU32(3) + PutU32(mask))
    ensures OpBytes(Renew(clientid)) == Ok(PutU32(30) + PutU64(clientid))
  {
    hide PutU32, PutU64, Encode, HasType, EncodeFields, HaveTypes, ValidUtf8, Counted;
    CountedIs(name);
    CountedIs(other);
    CountedIs(fh);
    WordIs(mask);
    HyperIs(clientid);
    HandleIs(fh);
    Args1(Str, VBytes(name), Counted(name));
    Args2(Str, VBytes(name), Counted(name), Str, VBytes(other), Counted(other));
    Args1(U32, VNum(mask), PutU32(mask));
    Args1(U64, VNum(clientid), PutU64(clientid));
  }

  lemma {:induction false} HandleIs(fh: Bytes)
    requires |fh| <= 128
    ensures HaveTypes(FCons(Some(128), Opaque, FNil), V1(VBytes(fh)))
    ensures EncodeFields(FCons(Some(128), Opaque, FNil), V1(VBytes(fh))) == Ok(Counted(fh))
  {
    hide PutU32, Counted;
    CountedIs(fh);
    assert HaveTypes(FNil, VNil) && EncodeFields(FNil, VNil) == Ok([]);
    assert Counted(fh) + [] == Counted(fh);
  }

  /** Operations without arguments, and the attributes and pages asked for. */
  lemma {:induction false} QueryLayouts(bits: seq<u32>, cookie: u64, verf: Verifier, dircount: u32, maxcount: u32)
    ensures |Bitmap(bits)| < TWO32
    ensures OpBytes(PutRootFh) == Ok(PutU32(24)) && OpBytes(GetFh) == Ok(PutU32(10))
    ensures OpBytes(SaveFh) == Ok(PutU32(32)) && OpBytes(ReadLink) == Ok(PutU32(27))
    ensures OpBytes(GetAttr(bits)) == Ok(PutU32(9) + PutWords(Bitmap(bits)))
    ensures OpBytes(ReadDir(cookie, verf, dircount, maxcount, bits)) ==
      Ok(PutU32(26) + (PutU64(cookie) + (verf + (PutU32(dircount) + (PutU32(maxcount) + PutWords(Bitmap(bits)))))))
  {
    hide PutU32, PutU64, Encode, HasType, EncodeFields, HaveTypes, BitmapValue, PutWords;
    BitmapIs(bits);
    HyperIs(cookie);
    FixedIs(verf, 8);
    WordIs(dircount);
    WordIs(maxcount);
    NoArgs(24);
    NoArgs(10);
    NoArgs(32);
    NoArgs(27);
    Args1(BITMAP, BitmapValue(bits), PutWords(Bitmap(bits)));
    Args5(U64, VNum(cookie), PutU64(cookie), Fixed(8), VBytes(verf), verf, U32, VNum(dircount), PutU32(dircount),
          U32, VNum(maxcount), PutU32(maxcount), BITMAP, BitmapValue(bits), PutWords(Bitmap(bits)));
  }

  lemma {:induction false} NoArgs(n: u32)
    ensures EncodeFields(FNil, VNil) == Ok([]) && PutU32(n) + [] == PutU32(n)
  {
  }

  /** Reading, writing, closing and unlocking. */
  lemma {:induction false} StateLayouts(st: Stateid, offset: u64, length: u64, count: u32, stable: u32, data: Bytes, seqid: u32, locktype: u32)
    requires |data| < TWO32
    ensures OpBytes(Read(st, offset, count)) == Ok(PutU32(25) + ((PutU32(st.seqid) + st.other) + (PutU64(offset) + PutU32(count))))
    ensures OpBytes(Write(st, offset, stable, data)) ==
      Ok(PutU32(38) + ((PutU32(st.seqid) + st.other) + (PutU64(offset) + (PutU32(stable) + Counted(data)))))
    ensures OpBytes(Commit(offset, count)) == Ok(PutU32(5) + (PutU64(offset) + PutU32(count)))
    ensures OpBytes(OpenConfirm(st, seqid)) == Ok(PutU32(20) + ((PutU32(st.seqid) + st.other) + PutU32(seqid)))
    ensures OpBytes(Close(seqid, st)) == Ok(PutU32(4) + (PutU32(seqid) + (PutU32(st.seqid) + st.other)))
    ensures OpBytes(Locku(locktype, seqid, st, offset, length)) ==
      Ok(PutU32(14) + (PutU32(locktype) + (PutU32(seqid) + ((PutU32(st.seqid) + st.other) + (PutU64(offset) + PutU64(length))))))
  {
    hide PutU32, PutU64, Encode, HasType, EncodeFields, HaveTypes, StateidValue, Counted;
    var sid, v := PutU32(st.seqid) + st.other, StateidValue(st);
    StateidIs(st);
    HyperIs(offset);
    HyperIs(length);
    WordIs(count);
    WordIs(stable);
    WordIs(seqid);
    WordIs(locktype);
    CountedIs(data);
    Args3(STATEID, v, sid, U64, VNum(offset), PutU64(offset), U32, VNum(count), PutU32(count));
    Args4(STATEID, v, sid, U64, VNum(offset), PutU64(offset), U32, VNum(stable), PutU32(stable), Opaque, VBytes(data), Counted(data));
    Args2(U64, VNum(offset), PutU64(offset), U32, VNum(count), PutU32(count));
    Args2(STATEID, v, sid, U32, VNum(seqid), PutU32(seqid));
    Args2(U32, VNum(seqid), PutU32(seqid), STATEID, v, sid);
    Args5(U32, VNum(locktype), PutU32(locktype), U32, VNum(seqid), PutU32(seqid), STATEID, v, sid,
          U64, VNum(offset), PutU64(offset), U64, VNum(length), PutU64(length));
  }

  /** Locking and opening. */
  lemma {:induction false} OwnerLayouts(locktype: u32, offset: u64, length: u64, seqid: u32, st: Stateid, lockSeqid: u32, clientid: u64, owner: Bytes)
    requires |owner| < TWO32
    ensures OpBytes(Lockt(locktype, offset, length, clientid, owner)) ==
      Ok(PutU32(13) + (PutU32(locktype) + (PutU64(offset) + (PutU64(length) + (PutU64(clientid) + Counted(owner))))))
    ensures OpBytes(LockNew(locktype, offset, length, seqid, st, lockSeqid, clientid, owner)) ==
      Ok(PutU32(12) + (PutU32(locktype) + (PutU32(0) + (PutU64(offset) + (PutU64(length) + (PutU32(1)
         + (PutU32(seqid) + ((PutU32(st.seqid) + st.other) + (PutU32(lockSeqid) + (PutU64(clientid) + Counted(owner)))))))))))
  {
    hide PutU32, PutU64, Encode, HasType, EncodeFields, HaveTypes, StateidValue, Counted;
    var sid, v, o := PutU32(st.seqid) + st.other, StateidValue(st), Counted(owner);
    StateidIs(st);
    WordIs(locktype);
    WordIs(seqid);
    WordIs(lockSeqid);
    HyperIs(offset);
    HyperIs(length);
    HyperIs(clientid);
    CountedIs(owner);
    FlagIs(false);
    FlagIs(true);
    Args5(U32, VNum(locktype), PutU32(locktype), U64, VNum(offset), PutU64(offset), U64, VNum(length), PutU64(length),
          U64, VNum(clientid), PutU64(clientid), Opaque, VBytes(owner), o);
    Args5(U32, VNum(seqid), PutU32(seqid), STATEID, v, sid, U32, VNum(lockSeqid), PutU32(lockSeqid),
          U64, VNum(clientid), PutU64(clientid), Opaque, VBytes(owner), o);
    var tail := PutU32(seqid) + (sid + (PutU32(lockSeqid) + (PutU64(clientid) + o)));
    FiveMore(U32, VNum(locktype), PutU32(locktype), Bool, VBool(false), PutU32(0), U64, VNum(offset), PutU64(offset),
             U64, VNum(length), PutU64(length), Bool, VBool(true), PutU32(1),
             F5(U32, STATEID, U32, U64, Opaque), LockTail(seqid, st, lockSeqid, clientid, owner), tail);
  }

  lemma {:induction false} FiveMore(a: Schema, x: Value, ea: Bytes, b: Schema, y: Value, eb: Bytes, c: Schema, z: Value, ec: Bytes, d: Schema, u: Value, ed: Bytes, e: Schema, w: Value, ee: Bytes, fs: Fields, vs: Values, tail: Bytes)
    requires HasType(a, x) && Encode(a, x) == Ok(ea) && HasType(b, y) && Encode(b, y) == Ok(eb)
    requires HasType(c, z) && Encode(c, z) == Ok(ec) && HasType(d, u) && Encode(d, u) == Ok(ed) && HasType(e, w) && Encode(e, w) == Ok(ee)
    requires HaveTypes(fs, vs) && EncodeFields(fs, vs) == Ok(tail)
    ensures HaveTypes(FF5(a, b, c, d, e, fs), VV5(x, y, z, u, w, vs))
    ensures EncodeFields(FF5(a, b, c, d, e, fs), VV5(x, y, z, u, w, vs)) == Ok(ea + (eb + (ec + (ed + (ee + tail)))))
  {
    hide Encode, HasType, EncodeFields, HaveTypes;
    MoreFields(e, w, ee, fs, vs, tail);
    MoreFields(d, u, ed, FCons(None, e, fs), VCons(w, vs), ee + tail);
    MoreFields(c, z, ec, FF2(d, e, fs), VV2(u, w, vs), ed + (ee + tail));
    MoreFields(b, y, eb, FF3(c, d, e, fs), VV3(z, u, w, vs), ec + (ed + (ee + tail)));
    MoreFields(a, x, ea, FF4(b, c, d, e, fs), VV4(y, z, u, w, vs), eb + (ec + (ed + (ee + tail))));
  }

  /** OPEN, of an existing file or with UNCHECKED4 and no attributes, by name. */
  lemma {:induction false} OpenLayouts(seqid: u32, clientid: u64, owner: Bytes, access: u32, name: Text)
    requires |owner| < TWO32 && |name| < TWO32
    ensures var head := PutU32(18) + (PutU32(seqid) + (PutU32(access) + (PutU32(0) + (PutU64(clientid) + Counted(owner)))));
      && OpBytes(Open(seqid, clientid, owner, access, false, name)) == Ok(head + (PutU32(0) + (PutU32(0) + Counted(name))))
      && OpBytes(Open(seqid, clientid, owner, access, true, name)) ==
           Ok(head + (PutU32(1) + (PutU32(0) + ((PutU32(1) + PutU32(0)) + (PutU32(0) + (PutU32(0) + Counted(name)))))))
  {
    hide PutU32, PutU64, Encode, HasType, EncodeFields, HaveTypes, BitmapValue, Counted, ValidUtf8;
    var o, n := Counted(owner), Counted(name);
    var empty := PutU32(1) + PutU32(0);
    WordIs(seqid);
    WordIs(access);
    WordIs(0);
    WordIs(1);
    HyperIs(clientid);
    CountedIs(owner);
    CountedIs(name);
    NoBitsIs();
    Args3(U32, VNum(0), PutU32(0), U32, VNum(0), PutU32(0), Str, VBytes(name), n);
    Args2(U32, VNum(0), PutU32(0), Str, VBytes(name), n);
    var t1 := PutU32(0) + n;
    MoreFields(U32, VNum(0), PutU32(0), F2(U32, Str), V2(VNum(0), VBytes(name)), t1);
    var t2 := PutU32(0) + t1;
    MoreFields(BITMAP, BitmapValue([]), empty, F3(U32, U32, Str), V3(VNum(0), VNum(0), VBytes(name)), t2);
    MoreFields(U32, VNum(0), PutU32(0), FCons(None, BITMAP, F3(U32, U32, Str)), VCons(BitmapValue([]), V3(VNum(0), VNum(0), VBytes(name))), empty + t2);
    var t3 := PutU32(0) + (empty + t2);
    MoreFields(U32, VNum(1), PutU32(1), FF2(U32, BITMAP, F3(U32, U32, Str)), VV2(VNum(0), BitmapValue([]), V3(VNum(0), VNum(0), VBytes(name))), t3);
    OpenHead(seqid, access, clientid, owner, OPEN_OLD, OpenTail(false, name), PutU32(0) + t1);
    OpenHead(seqid, access, clientid, owner, OPEN_NEW, OpenTail(true, name), PutU32(1) + t3);
    var head := PutU32(seqid) + (PutU32(access) + (PutU32(0) + (PutU64(clientid) + o)));
    Assoc(PutU32(18), head, PutU32(0) + t1);
    Assoc(PutU32(18), head, PutU32(1) + t3);
  }

  lemma {:induction false} OpenHead(seqid: u32, access: u32, clientid: u64, owner: Bytes, fs: Fields, vs: Values, tail: Bytes)
    requires |owner| < TWO32 && HaveTypes(fs, vs) && EncodeFields(fs, vs) == Ok(tail)
    ensures HaveTypes(FF5(U32, U32, U32, U64, Opaque, fs), VV5(VNum(seqid), VNum(access), VNum(0), VNum(clientid), VBytes(owner), vs))
    ensures EncodeFields(FF5(U32, U32, U32, U64, Opaque, fs), VV5(VNum(seqid), VNum(access), VNum(0), VNum(clientid), VBytes(owner), vs))
         == Ok(PutU32(seqid) + (PutU32(access) + (PutU32(0) + (PutU64(clientid) + Counted(owner)))) + tail)
  {
    hide PutU32, PutU64, Encode, HasType, EncodeFields, HaveTypes, Counted;
    WordIs(seqid);
    WordIs(access);
    WordIs(0);
    HyperIs(clientid);
    CountedIs(owner);
    var a, b, c, d, e := PutU32(seqid), PutU32(access), PutU32(0), PutU64(clientid), Counted(owner);
    FiveMore(U32, VNum(seqid), a, U32, VNum(access), b, U32, VNum(0), c, U64, VNum(clientid), d, Opaque, VBytes(owner), e, fs, vs, tail);
    assert a + (b + (c + (d + e))) + tail == a + (b + (c + (d + (e + tail))));
  }

  /** An empty set of attributes is one word of zeros. */
  lemma {:induction false} NoBitsIs()
    ensures HasType(BITMAP, BitmapValue([])) && Encode(BITMAP, BitmapValue([])) == Ok(PutU32(1) + PutU32(0))
  {
    hide PutU32, Encode, HasType;
    BitmapIs([]);
    assert Bitmap([]) == [0];
    OneWord(0);
  }

  lemma {:induction false} OneWord(n: u32)
    ensures PutWords([n]) == PutU32(1) + PutU32(n)
  {
    hide PutU32, Encode, HasType;
    WordIs(n);
    WordsEncoding([n]);
    assert Words([n]) == [VNum(n)] && [VNum(n)][1..] == [];
    assert EncodeItems(U32, []) == Ok([]);
    assert PutU32(n) + [] == PutU32(n);
  }

  /** Directories and links, without attributes, and SETATTR. */
  lemma {:induction false} CreateLayouts(name: Text, target: Text, st: Stateid, attrs: SetAttr4)
    requires |name| < TWO32 && |target| < TWO32
    ensures OpBytes(CreateDir(name)) == Ok(PutU32(6) + (PutU32(2) + (Counted(name) + ((PutU32(1) + PutU32(0)) + PutU32(0)))))
    ensures OpBytes(CreateSymlink(name, target)) ==
      Ok(PutU32(6) + (PutU32(5) + (Counted(target) + (Counted(name) + ((PutU32(1) + PutU32(0)) + PutU32(0))))))
    ensures OpBytes(SetAttr(st, attrs)) == Ok(PutU32(34) + ((PutU32(st.seqid) + st.other) + EncodeSetattr(attrs)))
  {
    hide PutU32, Encode, HasType, EncodeFields, HaveTypes, BitmapValue, StateidValue, SetValues, Bitmap, PutWords, Counted, ValidUtf8;
    CountedIs(name);
    CountedIs(target);
    WordIs(0);
    WordIs(2);
    WordIs(5);
    NoBitsIs();
    var empty := PutU32(1) + PutU32(0);
    Args4(U32, VNum(2), PutU32(2), Str, VBytes(name), Counted(name), BITMAP, BitmapValue([]), empty, U32, VNum(0), PutU32(0));
    Args5(U32, VNum(5), PutU32(5), Str, VBytes(target), Counted(target), Str, VBytes(name), Counted(name),
          BITMAP, BitmapValue([]), empty, U32, VNum(0), PutU32(0));
    StateidIs(st);
    BitmapIs(SetBits(attrs));
    CountedIs(SetValues(attrs));
    Args3(STATEID, StateidValue(st), PutU32(st.seqid) + st.other, BITMAP, BitmapValue(SetBits(attrs)), PutWords(Bitmap(SetBits(attrs))),
          Opaque, VBytes(SetValues(attrs)), Counted(SetValues(attrs)));
    assert Counted(SetValues(attrs)) == PutU32(|SetValues(attrs)|) + (SetValues(attrs) + Zeros(Padding(|SetValues(attrs)|))) by {
      CountedSays(SetValues(attrs));
    }
  }

  lemma {:induction false} CountedSays(data: Bytes)
    requires |data| < TWO32
    ensures Counted(data) == PutU32(|data|) + (data + Zeros(Padding(|data|)))
  {
  }

  /** `Compound::finish`: empty tag, minor version, count and operations. */
  function FinishBytes(minor: u32, count: u32, ops: Bytes): Bytes {
    PutU32(0) + (PutU32(minor) + (PutU32(count) + ops))
  }

  class Compound {
    var ops: Bytes
    var nops: u32
    ghost var log: seq<Op>

    ghost predicate Valid()
      reads this
    {
      nops == |log| && OpsBytes(log) == Ok(ops)
    }

    constructor ()
      ensures Valid() && log == []
    {
      ops := [];
      nops := 0;
      log := [];
    }

    /** Any builder method: the opcode, the count, then each argument in turn. */
    method Add(op: Op) returns (r: Result<(), XdrError>)
      requires Valid() && nops < TWO32 - 1
      modifies this
      ensures match ArgBytes(op)
        case Ok(_) => r == Ok(()) && Valid() && log == old(log) + [op]
        case Err(e) =>
          && r == Err(e) && log == old(log)
          && nops == old(nops) + 1 && old(ops) + PutU32(OpNum(op)) <= ops // counted, but cut short
    {
      hide FlatFields, FlatValues, OpNum, PutU32, EncodeFields, OpsBytes;
      OpsSnoc(log, op);
      ghost var before := ops;
      ops := ops + PutU32(OpNum(op));
      nops := nops + 1;
      FlatTyped(op);
      var buf := new Buffer();
      buf.data := ops;
      var written := WriteFields(FlatFields(op), FlatValues(op), buf);
      ops := buf.data;
      if written.Err? {
        return Err(written.error);
      }
      Assoc(before, PutU32(OpNum(op)), ArgBytes(op).value);
      log := log + [op];
      r := Ok(());
    }

    method Finish(minor: u32) returns (b: Bytes)
      requires Valid()
      ensures b == FinishBytes(minor, |log|, ops) && OpsBytes(log) == Ok(ops)
    {
      hide OpsBytes, PutU32;
      var buf := PutU32(0);
      buf := buf + PutU32(minor);
      buf := buf + PutU32(nops);
      buf := buf + ops;
      Assoc(PutU32(0), PutU32(minor), PutU32(nops));
      Assoc(PutU32(0), PutU32(minor) + PutU32(nops), ops);
      Assoc(PutU32(minor), PutU32(nops), ops);
      b := buf;
    }
  }

  // --- What the standard says -------------------------------------------------------------

  const OWNER: Schema := Struct(F2(U64, Opaque))
  const FATTR4: Schema := Struct(F2(BITMAP, Opaque))

  /** createtype4, for the two kinds of object the client creates. */
  const CREATETYPE: Schema := Union(ACons(2, FNil, ACons(5, F1(Str), ANil)))

  /** createhow4 and openflag4. */
  const CREATEHOW: Schema := Union(ACons(0, F1(FATTR4), ACons(1, F1(FATTR4), ACons(2, F1(Fixed(8)), ANil))))
  const OPENFLAG: Schema := Union(ACons(0, FNil, ACons(1, F1(CREATEHOW), ANil)))

  /** open_claim4 with CLAIM_NULL. */
  const CLAIM: Schema := Union(ACons(0, F1(Str), ANil))

  /** locker4: a new lock owner with its open owner, or an existing one. */
  const OPEN_TO_LOCK_OWNER: Schema := Struct(F4(U32, STATEID, U32, OWNER))
  const LOCKER: Schema := Union(ACons(1, F1(OPEN_TO_LOCK_OWNER), ACons(0, F2(STATEID, U32), ANil)))

  /** The arguments of each operation the client sends (chapter 16 of RFC 7530; SEQUENCE: RFC 8881). */
  function Grammar(opnum: u32): Option<Fields> {
    match opnum
    case 3 => Some(F1(U32))
    case 4 => Some(F2(U32, STATEID))
    case 5 => Some(F2(U64, U32))
    case 6 => Some(F3(CREATETYPE, Str, FATTR4))
    case 9 => Some(F1(BITMAP))
    case 10 => Some(FNil)
    case 11 => Some(F1(Str))
    case 12 => Some(F5(U32, Bool, U64, U64, LOCKER))
    case 13 => Some(F4(U32, U64, U64, OWNER))
    case 14 => Some(F5(U32, U32, STATEID, U64, U64))
    case 15 => Some(F1(Str))
    case 18 => Some(FF3(U32, U32, U32, F3(OWNER, OPENFLAG, CLAIM)))
    case 20 => Some(F2(STATEID, U32))
    case 22 => Some(FCons(Some(128), Opaque, FNil))
    case 24 => Some(FNil)
    case 25 => Some(F3(STATEID, U64, U32))
    case 26 => Some(F5(U64, Fixed(8), U32, U32, BITMAP))
    case 27 => Some(FNil)
    case 28 => Some(F1(Str))
    case 29 => Some(F2(Str, Str))
    case 30 => Some(F1(U64))
    case 32 => Some(FNil)
    case 34 => Some(F2(STATEID, FATTR4))
    case 38 => Some(F4(STATEID, U64, U32, Opaque))
    case 53 => Some(F5(Fixed(16), U32, U32, U32, Bool))
    case _ => None
  }

  function OwnerValue(clientid: u64, owner: Bytes): Value {
    VStruct(V2(VNum(clientid), VBytes(owner)))
  }

  function Fattr4Value(bits: seq<u32>, values: Bytes): Value {
    VStruct(V2(BitmapValue(bits), VBytes(values)))
  }

  const NO_ATTRS: Value := Fattr4Value([], [])

  function HowValue(create: bool): Value {
    if create then VUnion(1, V1(VUnion(0, V1(NO_ATTRS)))) else VUnion(0, VNil)
  }

  function LockerValue(seqid: u32, st: Stateid, lockSeqid: u32, clientid: u64, owner: Bytes): Value {
    VUnion(0, V1(VStruct(V4(VNum(seqid), StateidValue(st), VNum(lockSeqid), OwnerValue(clientid, owner)))))
  }

  /** What a server should understand: the operation's arguments as a value of the grammar. */
  function Meaning(op: Op): Values {
    match op
    case CreateDir(name) => V3(VUnion(0, VNil), VBytes(name), NO_ATTRS)
    case CreateSymlink(name, target) => V3(VUnion(1, V1(VBytes(target))), VBytes(name), NO_ATTRS)
    case Open(seqid, clientid, owner, access, create, name) =>
      VV3(VNum(seqid), VNum(access), VNum(0),
          V3(OwnerValue(clientid, owner), HowValue(create), VUnion(0, V1(VBytes(name)))))
    case LockNew(locktype, offset, length, seqid, st, lockSeqid, clientid, owner) =>
      V5(VNum(locktype), VBool(false), VNum(offset), VNum(length), LockerValue(seqid, st, lockSeqid, clientid, owner))
    case Lockt(locktype, offset, length, clientid, owner) =>
      V4(VNum(locktype), VNum(offset), VNum(length), OwnerValue(clientid, owner))
    case SetAttr(st, attrs) => V2(StateidValue(st), Fattr4Value(SetBits(attrs), SetValues(attrs)))
    case _ => FlatValues(op)
  }

  // --- Flat and nested encodings are the same bytes ---------------------------------------

  lemma {:induction false} AppendEncodes(a: Fields, av: Values, b: Fields, bv: Values)
    requires HaveTypes(a, av) && HaveTypes(b, bv)
    ensures HaveTypes(AppF(a, b), AppV(av, bv))
    ensures EncodeFields(AppF(a, b), AppV(av, bv)) == Seq2(EncodeFields(a, av), EncodeFields(b, bv))
    decreases a
  {
    hide Encode, HasType;
    if a.FNil? {
      var e := EncodeFields(b, bv);
      assert e.Ok? ==> [] + e.value == e.value;
    } else {
      AppendEncodes(a.tail, av.tail, b, bv);
      if Encode(a.head, av.head).Ok? && EncodeFields(a.tail, av.tail).Ok? && EncodeFields(b, bv).Ok? {
        Assoc(Encode(a.head, av.head).value, EncodeFields(a.tail, av.tail).value, EncodeFields(b, bv).value);
      }
    }
  }

  /** A struct inside a struct is its fields in line. */
  lemma {:induction false} StructInline(inner: Fields, iv: Values, fs: Fields, vs: Values)
    requires HaveTypes(inner, iv) && HaveTypes(fs, vs)
    ensures HaveTypes(FCons(None, Struct(inner), fs), VCons(VStruct(iv), vs)) && HaveTypes(AppF(inner, fs), AppV(iv, vs))
    ensures EncodeFields(FCons(None, Struct(inner), fs), VCons(VStruct(iv), vs)) == EncodeFields(AppF(inner, fs), AppV(iv, vs))
  {
    hide HasType, AppF, AppV;
    AppendEncodes(inner, iv, fs, vs);
    assert HasType(Struct(inner), VStruct(iv)) by {
      StructTyped(inner, iv);
    }
  }

  lemma {:induction false} StructTyped(inner: Fields, iv: Values)
    requires HaveTypes(inner, iv)
    ensures HasType(Struct(inner), VStruct(iv))
    ensures Encode(Struct(inner), VStruct(iv)) == EncodeFields(inner, iv)
  {
  }

  /** The same for the two-field structs of the grammar. */
  lemma {:induction false} PairInline(a: Schema, b: Schema, x: Value, y: Value, fs: Fields, vs: Values)
    requires HasType(a, x) && HasType(b, y) && HaveTypes(fs, vs)
    ensures Agrees(FCons(None, Struct(F2(a, b)), fs), VCons(VStruct(V2(x, y)), vs), FF2(a, b, fs), VV2(x, y, vs))
  {
    hide HasType, Encode, EncodeFields;
    assert HaveTypes(FNil, VNil);
    assert HaveTypes(F1(b), V1(y));
    assert HaveTypes(F2(a, b), V2(x, y));
    StructInline(F2(a, b), V2(x, y), fs, vs);
    assert AppF(F1(b), fs) == FCons(None, b, fs) && AppV(V1(y), vs) == VCons(y, vs);
  }

  ghost predicate Agrees(gs: Fields, ms: Values, fs: Fields, vs: Values) {
    && HaveTypes(gs, ms) && HaveTypes(fs, vs)
    && EncodeFields(gs, ms) == EncodeFields(fs, vs)
  }

  lemma {:induction false} AppFNil(fs: Fields)
    ensures AppF(fs, FNil) == fs
  {
    if fs.FCons? {
      AppFNil(fs.tail);
    }
  }

  lemma {:induction false} AppVNil(vs: Values)
    ensures AppV(vs, VNil) == vs
  {
    if vs.VCons? {
      AppVNil(vs.tail);
    }
  }

  function ArmBody(arms: Arms, i: nat): Fields {
    if arms.ANil? then FNil else if i == 0 then arms.body else ArmBody(arms.tail, i - 1)
  }

  function ArmTag(arms: Arms, i: nat): int {
    if arms.ANil? then 0 else if i == 0 then arms.attr else ArmTag(arms.tail, i - 1)
  }

  lemma {:induction false} ArmEncodes(arms: Arms, i: nat, uv: Values)
    requires ArmHasType(arms, i, uv)
    ensures HaveTypes(ArmBody(arms, i), uv)
    ensures EncodeArm(arms, i, uv) ==
      Seq2(Ok(PutU32(ToU32(ToI32(ArmTag(arms, i))))), EncodeFields(ArmBody(arms, i), uv))
  {
    hide PutU32, ToU32, ToI32;
    if i > 0 {
      ArmEncodes(arms.tail, i - 1, uv);
    }
  }

  /** A union inside a struct is its discriminant and the fields of the chosen arm in line. */
  lemma {:induction false} UnionInline(arms: Arms, i: nat, uv: Values, fs: Fields, vs: Values)
    requires ArmHasType(arms, i, uv) && HaveTypes(fs, vs) && 0 <= ArmTag(arms, i) < 0x8000_0000
    ensures HaveTypes(ArmBody(arms, i), uv) && HaveTypes(FCons(None, Union(arms), fs), VCons(VUnion(i, uv), vs))
    ensures HaveTypes(FCons(None, U32, AppF(ArmBody(arms, i), fs)), VCons(VNum(ArmTag(arms, i)), AppV(uv, vs)))
    ensures EncodeFields(FCons(None, Union(arms), fs), VCons(VUnion(i, uv), vs))
         == EncodeFields(FCons(None, U32, AppF(ArmBody(arms, i), fs)), VCons(VNum(ArmTag(arms, i)), AppV(uv, vs)))
  {
    hide PutU32;
    ArmEncodes(arms, i, uv);
    AppendEncodes(ArmBody(arms, i), uv, fs, vs);
    hide ArmBody, ArmTag, AppF, AppV;
    var tag: Encoded := Ok(PutU32(ArmTag(arms, i)));
    SignedValue(false, true, ArmTag(arms, i));
    SignedValue(false, false, ArmTag(arms, i));
    Seq2Assoc(tag, EncodeFields(ArmBody(arms, i), uv), EncodeFields(fs, vs));
  }

  /** Equal tails under an equal head. */
  lemma {:induction false} SameTail(limit: Option<nat>, s: Schema, v: Value, fs: Fields, vs: Values, gs: Fields, ws: Values)
    requires HasType(s, v) && HaveTypes(fs, vs) && HaveTypes(gs, ws)
    requires EncodeFields(fs, vs) == EncodeFields(gs, ws)
    ensures HaveTypes(FCons(limit, s, fs), VCons(v, vs)) && HaveTypes(FCons(limit, s, gs), VCons(v, ws))
    ensures EncodeFields(FCons(limit, s, fs), VCons(v, vs)) == EncodeFields(FCons(limit, s, gs), VCons(v, ws))
  {
    hide Encode, HasType;
  }

  /** A union agrees with its discriminant followed by whatever its arm agrees with. */
  lemma {:induction false} UnionAgrees(arms: Arms, i: nat, uv: Values, gs: Fields, ms: Values, fs: Fields, vs: Values)
    requires ArmHasType(arms, i, uv) && HaveTypes(gs, ms) && 0 <= ArmTag(arms, i) < 0x8000_0000
    requires Agrees(AppF(ArmBody(arms, i), gs), AppV(uv, ms), fs, vs)
    ensures Agrees(FCons(None, Union(arms), gs), VCons(VUnion(i, uv), ms), FCons(None, U32, fs), VCons(VNum(ArmTag(arms, i)), vs))
  {
    hide EncodeFields, AppF, AppV, ArmBody;
    UnionInline(arms, i, uv, gs, ms);
    SameTail(None, U32, VNum(ArmTag(arms, i)), AppF(ArmBody(arms, i), gs), AppV(uv, ms), fs, vs);
  }

  /** Agreement after a common first argument. */
  lemma {:induction false} Under(s: Schema, v: Value, gs: Fields, ms: Values, fs: Fields, vs: Values)
    requires HasType(s, v) && Agrees(gs, ms, fs, vs)
    ensures Agrees(FCons(None, s, gs), VCons(v, ms), FCons(None, s, fs), VCons(v, vs))
  {
    hide EncodeFields;
    SameTail(None, s, v, gs, ms, fs, vs);
  }

  lemma {:induction false} UnderWord(n: u32, gs: Fields, ms: Values, fs: Fields, vs: Values)
    requires Agrees(gs, ms, fs, vs)
    ensures Agrees(FCons(None, U32, gs), VCons(VNum(n), ms), FCons(None, U32, fs), VCons(VNum(n), vs))
  {
    hide Agrees;
    Under(U32, VNum(n), gs, ms, fs, vs);
  }

  lemma {:induction false} UnderHyper(n: u64, gs: Fields, ms: Values, fs: Fields, vs: Values)
    requires Agrees(gs, ms, fs, vs)
    ensures Agrees(FCons(None, U64, gs), VCons(VNum(n), ms), FCons(None, U64, fs), VCons(VNum(n), vs))
  {
    hide Agrees;
    Under(U64, VNum(n), gs, ms, fs, vs);
  }

  lemma {:induction false} UnderText(s: Text, gs: Fields, ms: Values, fs: Fields, vs: Values)
    requires Agrees(gs, ms, fs, vs)
    ensures Agrees(FCons(None, Str, gs), VCons(VBytes(s), ms), FCons(None, Str, fs), VCons(VBytes(s), vs))
  {
    hide Agrees, ValidUtf8;
    Under(Str, VBytes(s), gs, ms, fs, vs);
  }

  lemma {:induction false} AgreeSame(fs: Fields, vs: Values)
    requires HaveTypes(fs, vs)
    ensures Agrees(fs, vs, fs, vs)
  {
  }

  lemma {:induction false} AgreeTrans(gs: Fields, ms: Values, hs: Fields, ns: Values, fs: Fields, vs: Values)
    requires Agrees(gs, ms, hs, ns) && Agrees(hs, ns, fs, vs)
    ensures Agrees(gs, ms, fs, vs)
  {
    hide EncodeFields, HaveTypes;
  }

  /** A struct of two fields agrees with its fields in line, under any agreement that follows. */
  lemma {:induction false} PairAgrees(a: Schema, b: Schema, x: Value, y: Value, gs: Fields, ms: Values, fs: Fields, vs: Values)
    requires HasType(a, x) && HasType(b, y) && Agrees(gs, ms, fs, vs)
    ensures Agrees(FCons(None, Struct(F2(a, b)), gs), VCons(VStruct(V2(x, y)), ms), FF2(a, b, fs), VV2(x, y, vs))
  {
    assert HaveTypes(gs, ms);
    var g2, m2 := FF2(a, b, gs), VV2(x, y, ms);
    var f2, v2 := FF2(a, b, fs), VV2(x, y, vs);
    assert g2 == FCons(None, a, FCons(None, b, gs)) && m2 == VCons(x, VCons(y, ms));
    assert f2 == FCons(None, a, FCons(None, b, fs)) && v2 == VCons(x, VCons(y, vs));
    hide Agrees, HasType, HaveTypes, EncodeFields, FF2, VV2, F2, V2;
    PairInline(a, b, x, y, gs, ms);
    Under(b, y, gs, ms, fs, vs);
    Under(a, x, FCons(None, b, gs), VCons(y, ms), FCons(None, b, fs), VCons(y, vs));
    AgreeTrans(FCons(None, Struct(F2(a, b)), gs), VCons(VStruct(V2(x, y)), ms), g2, m2, f2, v2);
  }

  lemma {:induction false} OwnerAgrees(clientid: u64, owner: Bytes, gs: Fields, ms: Values, fs: Fields, vs: Values)
    requires Agrees(gs, ms, fs, vs)
    ensures Agrees(FCons(None, OWNER, gs), VCons(OwnerValue(clientid, owner), ms),
                   FF2(U64, Opaque, fs), VV2(VNum(clientid), VBytes(owner), vs))
  {
    hide Agrees;
    PairAgrees(U64, Opaque, VNum(clientid), VBytes(owner), gs, ms, fs, vs);
  }

  /** A zero length word is an empty opaque. */
  lemma {:induction false} EmptyOpaqueAgrees(gs: Fields, ms: Values, fs: Fields, vs: Values)
    requires Agrees(gs, ms, fs, vs)
    ensures Agrees(FCons(None, Opaque, gs), VCons(VBytes([]), ms), FCons(None, U32, fs), VCons(VNum(0), vs))
  {
    hide Encode, HasType, PutU32;
    WordIs(0);
    CountedIs([]);
    assert Counted([]) == PutU32(0) by {
      assert [] + Zeros(0) == [];
    }
  }

  /** `true` and the discriminant 1 are the same word. */
  lemma {:induction false} TrueAgrees(fs: Fields, vs: Values)
    requires HaveTypes(fs, vs)
    ensures Agrees(FCons(None, U32, fs), VCons(VNum(1), vs), FCons(None, Bool, fs), VCons(VBool(true), vs))
  {
  }

  /** An empty `fattr4` is an empty bitmap and a zero length. */
  lemma {:induction false} NoAttrsAgrees(gs: Fields, ms: Values, fs: Fields, vs: Values)
    requires Agrees(gs, ms, fs, vs)
    ensures Agrees(FCons(None, FATTR4, gs), VCons(NO_ATTRS, ms),
                   FF2(BITMAP, U32, fs), VV2(BitmapValue([]), VNum(0), vs))
  {
    assert HaveTypes(gs, ms);
    hide Agrees, BitmapValue, HaveTypes;
    BitmapTyped([]);
    PairInline(BITMAP, Opaque, BitmapValue([]), VBytes([]), gs, ms);
    EmptyOpaqueAgrees(gs, ms, fs, vs);
    Under(BITMAP, BitmapValue([]), FCons(None, Opaque, gs), VCons(VBytes([]), ms), FCons(None, U32, fs), VCons(VNum(0), vs));
    AgreeTrans(FCons(None, FATTR4, gs), VCons(NO_ATTRS, ms), FF2(BITMAP, Opaque, gs), VV2(BitmapValue([]), VBytes([]), ms),
               FF2(BITMAP, U32, fs), VV2(BitmapValue([]), VNum(0), vs));
  }

  lemma {:induction false} NothingAgrees()
    ensures Agrees(FNil, VNil, FNil, VNil)
  {
  }

  /** The name and the attributes of a CREATE, whatever is created. */
  lemma {:induction false} CreateTailAgrees(name: Text)
    ensures Agrees(F2(Str, FATTR4), V2(VBytes(name), NO_ATTRS), F3(Str, BITMAP, U32), V3(VBytes(name), BitmapValue([]), VNum(0)))
  {
    hide Agrees, BitmapValue;
    NothingAgrees();
    NoAttrsAgrees(FNil, VNil, FNil, VNil);
    UnderText(name, F1(FATTR4), V1(NO_ATTRS), F2(BITMAP, U32), V2(BitmapValue([]), VNum(0)));
  }

  lemma {:induction false} CreateDirAgrees(name: Text)
    ensures Agrees(F3(CREATETYPE, Str, FATTR4), Meaning(CreateDir(name)), CREATE_DIR, FlatValues(CreateDir(name)))
  {
    hide BitmapValue, EncodeFields, HasType;
    CreateTailAgrees(name);
    UnionAgrees(CREATETYPE.arms, 0, VNil, F2(Str, FATTR4), V2(VBytes(name), NO_ATTRS),
                F3(Str, BITMAP, U32), V3(VBytes(name), BitmapValue([]), VNum(0)));
  }

  lemma {:induction false} CreateSymlinkAgrees(name: Text, target: Text)
    ensures Agrees(F3(CREATETYPE, Str, FATTR4), Meaning(CreateSymlink(name, target)),
                   CREATE_LINK, FlatValues(CreateSymlink(name, target)))
  {
    hide BitmapValue, EncodeFields, ValidUtf8;
    CreateTailAgrees(name);
    var gs, ms := F2(Str, FATTR4), V2(VBytes(name), NO_ATTRS);
    var fs, vs := F3(Str, BITMAP, U32), V3(VBytes(name), BitmapValue([]), VNum(0));
    assert Agrees(gs, ms, fs, vs);
    UnderText(target, gs, ms, fs, vs);
    assert ArmHasType(CREATETYPE.arms.tail, 0, V1(VBytes(target)));
    UnionAgrees(CREATETYPE.arms, 1, V1(VBytes(target)), gs, ms,
                FCons(None, Str, fs), VCons(VBytes(target), vs));
  }

  /** open_claim4 is CLAIM_NULL and a name. */
  lemma {:induction false} ClaimAgrees(name: Text)
    ensures Agrees(F1(CLAIM), V1(VUnion(0, V1(VBytes(name)))), F2(U32, Str), V2(VNum(0), VBytes(name)))
  {
    hide EncodeFields, ValidUtf8;
    NothingAgrees();
    UnderText(name, FNil, VNil, FNil, VNil);
    UnionAgrees(CLAIM.arms, 0, V1(VBytes(name)), FNil, VNil, F1(Str), V1(VBytes(name)));
  }

  /** createhow4 is UNCHECKED4 and no attributes. */
  lemma {:induction false} CreateHowAgrees(gs: Fields, ms: Values, fs: Fields, vs: Values)
    requires Agrees(gs, ms, fs, vs)
    ensures Agrees(FCons(None, CREATEHOW, gs), VCons(VUnion(0, V1(NO_ATTRS)), ms),
                   FF3(U32, BITMAP, U32, fs), VV3(VNum(0), BitmapValue([]), VNum(0), vs))
  {
    hide EncodeFields, BitmapValue;
    NoAttrsAgrees(gs, ms, fs, vs);
    NothingAgrees();
    NoAttrsAgrees(FNil, VNil, FNil, VNil);
    UnionAgrees(CREATEHOW.arms, 0, V1(NO_ATTRS), gs, ms, FF2(BITMAP, U32, fs), VV2(BitmapValue([]), VNum(0), vs));
  }

  /** openflag4 is OPEN4_NOCREATE alone, or OPEN4_CREATE and how. */
  lemma {:induction false} FlagAgrees(create: bool, name: Text)
    ensures Agrees(F2(OPENFLAG, CLAIM), V2(HowValue(create), VUnion(0, V1(VBytes(name)))),
                   if create then OPEN_NEW else OPEN_OLD, OpenTail(create, name))
  {
    hide EncodeFields, BitmapValue, ValidUtf8;
    ClaimAgrees(name);
    var gs, ms := F1(CLAIM), V1(VUnion(0, V1(VBytes(name))));
    var fs, vs := F2(U32, Str), V2(VNum(0), VBytes(name));
    if create {
      var how := V1(VUnion(0, V1(NO_ATTRS)));
      CreateHowAgrees(gs, ms, fs, vs);
      NothingAgrees();
      CreateHowAgrees(FNil, VNil, FNil, VNil);
      assert ArmHasType(OPENFLAG.arms.tail, 0, how);
      UnionAgrees(OPENFLAG.arms, 1, how, gs, ms,
                  FF3(U32, BITMAP, U32, fs), VV3(VNum(0), BitmapValue([]), VNum(0), vs));
    } else {
      UnionAgrees(OPENFLAG.arms, 0, VNil, gs, ms, fs, vs);
    }
  }

  lemma {:induction false} OpenAgrees(seqid: u32, clientid: u64, owner: Bytes, access: u32, create: bool, name: Text)
    ensures var op := Open(seqid, clientid, owner, access, create, name);
      Agrees(FF3(U32, U32, U32, F3(OWNER, OPENFLAG, CLAIM)), Meaning(op), FlatFields(op), FlatValues(op))
  {
    hide Agrees, OpenTail, HowValue;
    FlagAgrees(create, name);
    var gs, ms := F2(OPENFLAG, CLAIM), V2(HowValue(create), VUnion(0, V1(VBytes(name))));
    var fs, vs := if create then OPEN_NEW else OPEN_OLD, OpenTail(create, name);
    OwnerAgrees(clientid, owner, gs, ms, fs, vs);
    var gs1, ms1 := FCons(None, OWNER, gs), VCons(OwnerValue(clientid, owner), ms);
    var fs1, vs1 := FF2(U64, Opaque, fs), VV2(VNum(clientid), VBytes(owner), vs);
    UnderWord(0, gs1, ms1, fs1, vs1);
    UnderWord(access, FCons(None, U32, gs1), VCons(VNum(0), ms1), FCons(None, U32, fs1), VCons(VNum(0), vs1));
    UnderWord(seqid, FF2(U32, U32, gs1), VV2(VNum(access), VNum(0), ms1), FF2(U32, U32, fs1), VV2(VNum(access), VNum(0), vs1));
  }

  function LockInner(op: Op): Values
    requires op.LockNew?
  {
    V4(VNum(op.seqid), StateidValue(op.stateid), VNum(op.lockSeqid), OwnerValue(op.clientid, op.owner))
  }

  /** locker4 of a new lock owner: TRUE, then the open owner's and the lock owner's fields. */
  lemma {:induction false} LockerAgrees(op: Op)
    requires op.LockNew?
    ensures Agrees(F1(LOCKER), V1(VUnion(0, V1(VStruct(LockInner(op))))),
                   FCons(None, Bool, F5(U32, STATEID, U32, U64, Opaque)),
                   VCons(VBool(true), LockTail(op.seqid, op.stateid, op.lockSeqid, op.clientid, op.owner)))
  {
    hide EncodeFields, StateidValue, OwnerValue;
    var st := StateidValue(op.stateid);
    StateidTyped(op.stateid);
    NothingAgrees();
    OwnerAgrees(op.clientid, op.owner, FNil, VNil, FNil, VNil);
    var fs, vs := F5(U32, STATEID, U32, U64, Opaque), LockTail(op.seqid, op.stateid, op.lockSeqid, op.clientid, op.owner);
    UnderWord(op.lockSeqid, F1(OWNER), V1(OwnerValue(op.clientid, op.owner)), F2(U64, Opaque), V2(VNum(op.clientid), VBytes(op.owner)));
    Under(STATEID, st, F2(U32, OWNER), V2(VNum(op.lockSeqid), OwnerValue(op.clientid, op.owner)), fs.tail.tail, vs.tail.tail);
    UnderWord(op.seqid, F3(STATEID, U32, OWNER), V3(st, VNum(op.lockSeqid), OwnerValue(op.clientid, op.owner)), fs.tail, vs.tail);
    var inner, iv := F4(U32, STATEID, U32, OWNER), LockInner(op);
    assert Agrees(inner, iv, fs, vs);
    WrapAgrees(inner, iv, fs, vs);
    assert ArmHasType(LOCKER.arms, 0, V1(VStruct(iv)));
    UnionAgrees(LOCKER.arms, 0, V1(VStruct(iv)), FNil, VNil, fs, vs);
    TrueAgrees(fs, vs);
    AgreeTrans(F1(LOCKER), V1(VUnion(0, V1(VStruct(iv)))), FCons(None, U32, fs), VCons(VNum(1), vs),
               FCons(None, Bool, fs), VCons(VBool(true), vs));
  }

  /** A struct on its own agrees with whatever its fields agree with. */
  lemma {:induction false} WrapAgrees(inner: Fields, iv: Values, fs: Fields, vs: Values)
    requires Agrees(inner, iv, fs, vs)
    ensures Agrees(F1(Struct(inner)), V1(VStruct(iv)), fs, vs)
  {
    hide EncodeFields, AppF, AppV;
    StructInline(inner, iv, FNil, VNil);
    AppFNil(inner);
    AppVNil(iv);
  }

  lemma {:induction false} LockAgrees(op: Op)
    requires op.LockNew?
    ensures Agrees(F5(U32, Bool, U64, U64, LOCKER), Meaning(op), LOCK_FLAT, FlatValues(op))
  {
    hide Agrees, LockTail, StateidValue, OwnerValue;
    LockerAgrees(op);
    var gs, ms := F1(LOCKER), V1(VUnion(0, V1(VStruct(LockInner(op)))));
    var fs := FCons(None, Bool, F5(U32, STATEID, U32, U64, Opaque));
    var vs := VCons(VBool(true), LockTail(op.seqid, op.stateid, op.lockSeqid, op.clientid, op.owner));
    UnderHyper(op.length, gs, ms, fs, vs);
    UnderHyper(op.offset, FCons(None, U64, gs), VCons(VNum(op.length), ms), FCons(None, U64, fs), VCons(VNum(op.length), vs));
    var gs1, ms1 := FF2(U64, U64, gs), VV2(VNum(op.offset), VNum(op.length), ms);
    var fs1, vs1 := FF2(U64, U64, fs), VV2(VNum(op.offset), VNum(op.length), vs);
    Under(Bool, VBool(false), gs1, ms1, fs1, vs1);
    UnderWord(op.locktype, FCons(None, Bool, gs1), VCons(VBool(false), ms1), FCons(None, Bool, fs1), VCons(VBool(false), vs1));
  }

  lemma {:induction false} LocktAgrees(op: Op)
    requires op.Lockt?
    ensures Agrees(F4(U32, U64, U64, OWNER), Meaning(op), FlatFields(op), FlatValues(op))
  {
    hide Agrees, OwnerValue;
    NothingAgrees();
    OwnerAgrees(op.clientid, op.owner, FNil, VNil, FNil, VNil);
    var gs, ms := F1(OWNER), V1(OwnerValue(op.clientid, op.owner));
    var fs, vs := F2(U64, Opaque), V2(VNum(op.clientid), VBytes(op.owner));
    UnderHyper(op.length, gs, ms, fs, vs);
    UnderHyper(op.offset, FCons(None, U64, gs), VCons(VNum(op.length), ms), FCons(None, U64, fs), VCons(VNum(op.length), vs));
    UnderWord(op.locktype, FF2(U64, U64, gs), VV2(VNum(op.offset), VNum(op.length), ms),
              FF2(U64, U64, fs), VV2(VNum(op.offset), VNum(op.length), vs));
  }

  lemma {:induction false} SetAttrAgrees(op: Op)
    requires op.SetAttr?
    ensures Agrees(F2(STATEID, FATTR4), Meaning(op), FlatFields(op), FlatValues(op))
  {
    hide Agrees, BitmapValue, SetValues, StateidValue;
    BitmapTyped(SetBits(op.attrs));
    var bits, values := BitmapValue(SetBits(op.attrs)), VBytes(SetValues(op.attrs));
    NothingAgrees();
    PairAgrees(BITMAP, Opaque, bits, values, FNil, VNil, FNil, VNil);
    StateidTyped(op.stateid);
    Under(STATEID, StateidValue(op.stateid), F1(FATTR4), V1(VStruct(V2(bits, values))), F2(BITMAP, Opaque), V2(bits, values));
  }

  predicate Nested(op: Op) {
    op.CreateDir? || op.CreateSymlink? || op.Open? || op.LockNew? || op.Lockt? || op.SetAttr?
  }

  /** Where the grammar nests nothing, the builder's order is the grammar's. */
  lemma {:induction false} FlatIsGrammar(op: Op)
    requires !Nested(op)
    ensures Grammar(OpNum(op)) == Some(FlatFields(op)) && Meaning(op) == FlatValues(op)
  {
    hide BitmapValue, StateidValue, SetValues, OpenTail, LockTail;
  }

  lemma {:induction false} NestedFollowsGrammar(op: Op)
    requires Nested(op)
    ensures Grammar(OpNum(op)).Some?
    ensures Agrees(Grammar(OpNum(op)).value, Meaning(op), FlatFields(op), FlatValues(op))
  {
    hide Agrees, FlatValues, Meaning;
    if op.CreateDir? {
      CreateDirAgrees(op.name);
    } else if op.CreateSymlink? {
      CreateSymlinkAgrees(op.name, op.target);
    } else if op.Open? {
      OpenAgrees(op.seqid, op.clientid, op.owner, op.access, op.create, op.name);
    } else if op.LockNew? {
      LockAgrees(op);
    } else if op.Lockt? {
      LocktAgrees(op);
    } else {
      SetAttrAgrees(op);
    }
  }

  /** Every operation's flat arguments are the encoding of its meaning in the grammar. */
  lemma {:induction false} BuilderFollowsGrammar(op: Op)
    ensures Grammar(OpNum(op)).Some?
    ensures Agrees(Grammar(OpNum(op)).value, Meaning(op), FlatFields(op), FlatValues(op))
  {
    hide Agrees, FlatFields, FlatValues, Meaning, Grammar, OpNum;
    if Nested(op) {
      NestedFollowsGrammar(op);
    } else {
      FlatIsGrammar(op);
      FlatTyped(op);
      AgreeSame(FlatFields(op), FlatValues(op));
    }
  }

  lemma {:induction false} PrimitivesWellFormed()
    ensures WellFormed(U32) && WellFormed(U64) && WellFormed(Bool) && WellFormed(Str) && WellFormed(Opaque)
    ensures WellFormed(BITMAP) && forall n :: WellFormed(Fixed(n))
  {
  }

  lemma {:induction false} StructsWellFormed()
    ensures WellFormed(STATEID) && WellFormed(OWNER) && WellFormed(FATTR4) && WellFormed(OPEN_TO_LOCK_OWNER)
  {
    assert WellFormed(OWNER);
  }

  lemma {:induction false} UnionsWellFormed()
    ensures WellFormed(CREATETYPE) && WellFormed(CLAIM) && WellFormed(CREATEHOW) && WellFormed(OPENFLAG) && WellFormed(LOCKER)
  {
    StructsWellFormed();
    PrimitivesWellFormed();
    assert WellFormedFields(F1(FATTR4)) && WellFormedFields(F1(OPEN_TO_LOCK_OWNER)) && WellFormedFields(F2(STATEID, U32));
    assert WellFormed(CREATEHOW);
    assert WellFormedFields(F1(CREATEHOW));
  }

  lemma {:induction false} GrammarWellFormed(opnum: u32)
    ensures Grammar(opnum).Some? ==> WellFormedFields(Grammar(opnum).value)
  {
    hide WellFormed;
    PrimitivesWellFormed();
    StructsWellFormed();
    UnionsWellFormed();
  }

  // --- The reader -------------------------------------------------------------------------

  type ReadOp = (u32, Values)

  datatype CompoundArgs = CompoundArgs(tag: Bytes, minor: u32, ops: seq<ReadOp>)

  function ReadArgop(b: Bytes): Decoded<ReadOp> {
    var (opnum, rest) :- DecodeU32(b);
    match Grammar(opnum)
    case None => Err(InvalidUnion(opnum))
    case Some(fs) =>
      var (vs, end) :- DecodeFields(fs, rest);
      Ok(((opnum, vs), end))
  }

  function ReadArgops(n: nat, b: Bytes): Decoded<seq<ReadOp>> {
    if n == 0 then Ok(([], b))
    else
      var (op, rest) :- ReadArgop(b);
      var (ops, end) :- ReadArgops(n - 1, rest);
      Ok(([op] + ops, end))
  }

  /** COMPOUND4args: tag, minor version and a counted array of operations. */
  function ReadCompound(b: Bytes): Decoded<CompoundArgs> {
    var (tag, b1) :- DecodeStr(b);
    var (minor, b2) :- DecodeU32(b1);
    var (count, b3) :- DecodeU32(b2);
    var (ops, end) :- ReadArgops(count, b3);
    Ok((CompoundArgs(tag, minor, ops), end))
  }

  function Understood(log: seq<Op>): seq<ReadOp> {
    seq(|log|, i requires 0 <= i < |log| => (OpNum(log[i]), Meaning(log[i])))
  }

  lemma {:induction false} OpReadsBack(op: Op, rest: Bytes)
    requires OpBytes(op).Ok?
    ensures ReadArgop(OpBytes(op).value + rest) == Ok(((OpNum(op), Meaning(op)), rest))
  {
    hide EncodeFields, DecodeFields, Grammar, Meaning, OpNum, FlatFields, FlatValues, PutU32, HaveTypes;
    BuilderFollowsGrammar(op);
    GrammarWellFormed(OpNum(op));
    var args := ArgBytes(op).value;
    Assoc(PutU32(OpNum(op)), args, rest);
    U32RoundTrip(OpNum(op), args + rest);
    RoundTripFields(Grammar(OpNum(op)).value, Meaning(op), rest);
  }

  lemma {:induction false} OpsReadBack(log: seq<Op>, rest: Bytes)
    requires OpsBytes(log).Ok?
    ensures ReadArgops(|log|, OpsBytes(log).value + rest) == Ok((Understood(log), rest))
  {
    hide OpBytes, ReadArgop, Meaning, OpNum;
    if log == [] {
      assert [] + rest == rest;
    } else {
      var tail := OpsBytes(log[1..]).value;
      Assoc(OpBytes(log[0]).value, tail, rest);
      OpReadsBack(log[0], tail + rest);
      OpsReadBack(log[1..], rest);
      assert |log[1..]| == |log| - 1;
      assert Understood(log) == [(OpNum(log[0]), Meaning(log[0]))] + Understood(log[1..]);
    }
  }

  lemma {:induction false} HeaderReadsBack(minor: u32, count: u32, ops: Bytes)
    ensures DecodeStr(FinishBytes(minor, count, ops)) == Ok(([], PutU32(minor) + (PutU32(count) + ops)))
    ensures DecodeU32(PutU32(minor) + (PutU32(count) + ops)) == Ok((minor, PutU32(count) + ops))
    ensures DecodeU32(PutU32(count) + ops) == Ok((count, ops))
  {
    hide PutU32, GetU32;
    U32RoundTrip(minor, PutU32(count) + ops);
    U32RoundTrip(count, ops);
    var rest := PutU32(minor) + (PutU32(count) + ops);
    U32RoundTrip(0, rest);
    assert DecodeFixed(0, rest) == Ok(([], rest)) by {
      assert rest[..0] == [] && rest[0..] == rest;
    }
  }

  /**
   * Builder fidelity: what `finish` emits after any sequence of builder calls is read back as
   * exactly those operations, in order, with a matching count and nothing left over.
   */
  lemma {:induction false} CompoundReadsBack(log: seq<Op>, minor: u32)
    requires OpsBytes(log).Ok? && |log| < TWO32
    ensures ReadCompound(FinishBytes(minor, |log|, OpsBytes(log).value))
         == Ok((CompoundArgs([], minor, Understood(log)), []))
  {
    hide OpsBytes, ReadArgops, DecodeStr, DecodeU32, PutU32, Understood;
    var ops := OpsBytes(log).value;
    HeaderReadsBack(minor, |log|, ops);
    OpsReadBack(log, []);
    assert ops + [] == ops;
  }

  /** The attribute argument of SETATTR is what `encode_setattr_fattr4` writes. */
  lemma {:induction false} SetattrArgument(a: SetAttr4)
    ensures HaveTypes(F2(BITMAP, Opaque), V2(BitmapValue(SetBits(a)), VBytes(SetValues(a))))
    ensures EncodeFields(F2(BITMAP, Opaque), V2(BitmapValue(SetBits(a)), VBytes(SetValues(a)))) == Ok(EncodeSetattr(a))
  {
    hide Bitmap, SetValues, PutU32, PutWords, Encode;
    SetBitmapSmall(a);
    BitmapTyped(SetBits(a));
    WordsAreArray(Bitmap(SetBits(a)));
    var list := EncodeOpaque(SetValues(a), None).value;
    OpaqueLeaf(SetValues(a));
    assert EncodeFields(FNil, VNil) == Ok([]);
    assert list + [] == list;
    assert EncodeFields(F1(Opaque), V1(VBytes(SetValues(a)))) == Ok(list);
  }

  lemma {:induction false} OpaqueLeaf(data: Bytes)
    ensures Encode(Opaque, VBytes(data)) == EncodeOpaque(data, None)
  {
  }

  // --- NFSv4.1 ----------------------------------------------------------------------------

  /** What `assemble` writes for SEQUENCE: slot 0, highest slot 0, no caching. */
  function SequenceBytes(session: SessionId, seqid: u32): Bytes {
    PutU32(53) + (session + (PutU32(seqid) + (PutU32(0) + (PutU32(0) + PutU32(0)))))
  }

  /** One more argument in front. */
  lemma {:induction false} FirstField(s: Schema, v: Value, fs: Fields, vs: Values)
    requires HasType(s, v) && HaveTypes(fs, vs)
    ensures HaveTypes(FCons(None, s, fs), VCons(v, vs))
    ensures EncodeFields(FCons(None, s, fs), VCons(v, vs)) == Seq2(Encode(s, v), EncodeFields(fs, vs))
  {
    hide HasType, Encode;
  }

  lemma {:induction false} SequenceArguments(session: SessionId, seqid: u32)
    ensures HasType(Fixed(16), VBytes(session)) && Encode(Fixed(16), VBytes(session)) == Ok(session)
    ensures HasType(U32, VNum(seqid)) && Encode(U32, VNum(seqid)) == Ok(PutU32(seqid))
    ensures HasType(Bool, VBool(false)) && Encode(Bool, VBool(false)) == Ok(PutU32(0))
    ensures HaveTypes(FNil, VNil) && EncodeFields(FNil, VNil) == Ok([])
  {
    hide PutU32, ToU32;
    SignedValue(false, false, seqid);
    assert Padded(session) == session;
  }

  lemma {:induction false} SequenceIsOp(session: SessionId, seqid: u32)
    ensures OpBytes(Sequence(session, seqid, 0, 0, false)) == Ok(SequenceBytes(session, seqid))
  {
    var op := Sequence(session, seqid, 0, 0, false);
    var fs, vs := F5(Fixed(16), U32, U32, U32, Bool), V5(VBytes(session), VNum(seqid), VNum(0), VNum(0), VBool(false));
    assert FlatFields(op) == fs && FlatValues(op) == vs && OpNum(op) == 53;
    hide PutU32, HasType, HaveTypes, Encode, EncodeFields, FlatFields, FlatValues, OpNum;
    SequenceArguments(session, seqid);
    SequenceArguments(session, 0);
    FirstField(Bool, VBool(false), FNil, VNil);
    FirstField(U32, VNum(0), F1(Bool), V1(VBool(false)));
    FirstField(U32, VNum(0), F2(U32, Bool), V2(VNum(0), VBool(false)));
    FirstField(U32, VNum(seqid), F3(U32, U32, Bool), V3(VNum(0), VNum(0), VBool(false)));
    FirstField(Fixed(16), VBytes(session), fs.tail, vs.tail);
    assert PutU32(0) + [] == PutU32(0);
  }

  /** `assemble`: the finished compound, with SEQUENCE in front in minor versions above 0. */
  function AssembleBytes(minor: u32, session: SessionId, seqid: u32, count: u32, ops: Bytes): Bytes
    requires count < TWO32 - 1
  {
    if minor == 0 then FinishBytes(0, count, ops)
    else FinishBytes(minor, count + 1, SequenceBytes(session, seqid) + ops)
  }

  /** COMPOUND4args, written out, without and with SEQUENCE on slot 0. */
  lemma {:induction false} MessageLayouts(minor: u32, session: SessionId, seqid: u32, count: u32, ops: Bytes)
    requires count < TWO32 - 1
    ensures FinishBytes(minor, count, ops) == PutU32(0) + (PutU32(minor) + (PutU32(count) + ops))
    ensures minor > 0 ==>
      AssembleBytes(minor, session, seqid, count, ops) == PutU32(0) + (PutU32(minor) + (PutU32(count + 1)
        + (PutU32(53) + (session + (PutU32(seqid) + (PutU32(0) + (PutU32(0) + PutU32(0))))) + ops)))
    ensures minor == 0 ==> AssembleBytes(minor, session, seqid, count, ops) == FinishBytes(0, count, ops)
  {
  }

  /** `assemble` emits the same operations, with one SEQUENCE in front and one more in the count. */
  lemma {:induction false} AssembleReadsBack(log: seq<Op>, minor: u32, session: SessionId, seqid: u32)
    requires OpsBytes(log).Ok? && |log| < TWO32 - 1
    ensures ReadCompound(AssembleBytes(minor, session, seqid, |log|, OpsBytes(log).value)) ==
      Ok((CompoundArgs([], minor,
            if minor == 0 then Understood(log)
            else [(53, Meaning(Sequence(session, seqid, 0, 0, false)))] + Understood(log)), []))
  {
    hide ReadCompound, OpBytes, SequenceBytes, Meaning, FinishBytes;
    CompoundReadsBack(log, minor);
    if minor != 0 {
      var first := Sequence(session, seqid, 0, 0, false);
      SequenceIsOp(session, seqid);
      assert ([first] + log)[1..] == log;
      CompoundReadsBack([first] + log, minor);
      assert Understood([first] + log) == [(53, Meaning(first))] + Understood(log);
    }
  }
}
