/**
 * A server's view of a COMPOUND: which operation each decoded argument list is, field by field
 * in the order of chapter 16 of RFC 7530. It shares nothing with the builder but the type of
 * operations, so an argument in the wrong place would be understood as something else. The
 * client's operations leave some fields no choice; with any other value there, the arguments
 * are none of its operations.
 */
module CompoundServer {
  import opened Wire
  import opened Xdr
  import opened XdrTheorems
  import opened Fattr4
  import opened Compound

  // --- Arguments by position --------------------------------------------------------------

  function Head(vs: Values): Value { if vs.VCons? then vs.head else VVoid }
  function Tail(vs: Values): Values { if vs.VCons? then vs.tail else VNil }
  function Arg1(vs: Values): Value { Head(Tail(vs)) }
  function Arg2(vs: Values): Value { Head(Tail(Tail(vs))) }
  function Arg3(vs: Values): Value { Head(Tail(Tail(Tail(vs)))) }
  function Arg4(vs: Values): Value { Head(Tail(Tail(Tail(Tail(vs))))) }
  function Arg5(vs: Values): Value { Head(Tail(Tail(Tail(Tail(Tail(vs)))))) }

  function Word(v: Value): u32 { if v.VNum? && 0 <= v.n < TWO32 then v.n else 0 }
  function Hyper(v: Value): u64 { if v.VNum? && 0 <= v.n < TWO64 then v.n else 0 }
  function Flag(v: Value): bool { v.VBool? && v.b }
  function Data(v: Value): Bytes { if v.VBytes? then v.bytes else [] }
  function Name(v: Value): Text { if ValidUtf8(Data(v)) then Data(v) else [] }
  function Sized(v: Value, n: nat): (b: Bytes)
    ensures |b| == n
  {
    if |Data(v)| == n then Data(v) else Zeros(n)
  }
  function Parts(v: Value): Values { if v.VStruct? || v.VUnion? then v.vals else VNil }
  function Arm(v: Value): nat { if v.VUnion? then v.arm else 0 }

  function AsStateid(v: Value): Stateid {
    Stateid(Word(Head(Parts(v))), Sized(Arg1(Parts(v)), 12))
  }

  function WordsOf(v: Value): seq<u32> {
    if v.VArray? then seq(|v.items|, i requires 0 <= i < |v.items| => Word(v.items[i])) else []
  }

  /** The attribute numbers in a bitmap, ascending from `bit`. */
  function BitList(words: seq<u32>, bit: nat): seq<u32>
    decreases 32 * |words| - bit
  {
    if bit >= 32 * |words| || bit >= TWO32 then []
    else (if BitSet(words, bit) then [bit] else []) + BitList(words, bit + 1)
  }

  function AsBits(v: Value): seq<u32> {
    BitList(WordsOf(v), 0)
  }

  /** A `fattr4` holding nothing but a size and a mode. */
  function AsSetAttr(v: Value): Option<SetAttr4> {
    match DecodeAttrs(WordsOf(Head(Parts(v))), Data(Arg1(Parts(v))))
    case Err(_) => None
    case Ok(attrs) =>
      if attrs.Keys <= {4, 33} then
        Some(SetAttr4(if 33 in attrs then Some(Word(attrs[33])) else None,
                      if 4 in attrs then Some(Hyper(attrs[4])) else None))
      else None
  }

  /** A `fattr4` without attributes. */
  predicate NoAttrs(v: Value) {
    AsBits(Head(Parts(v))) == [] && Data(Arg1(Parts(v))) == []
  }

  /** openflag4: nothing is created, or UNCHECKED4 without attributes. */
  predicate OpensPlainly(how: Value) {
    Arm(how) == 0 || (Arm(Head(Parts(how))) == 0 && NoAttrs(Head(Parts(Head(Parts(how))))))
  }

  // --- Operations -------------------------------------------------------------------------

  function AsCreate(vs: Values): Option<Op> {
    if !NoAttrs(Arg2(vs)) then None
    else if Arm(Head(vs)) == 0 then Some(CreateDir(Name(Arg1(vs))))
    else Some(CreateSymlink(Name(Arg1(vs)), Name(Head(Parts(Head(vs))))))
  }

  /** OPEN4args: seqid, share_access, share_deny, owner, openhow, claim. */
  function AsOpen(vs: Values): Option<Op> {
    if Word(Arg2(vs)) != 0 || !OpensPlainly(Arg4(vs)) then None
    else
      var owner := Parts(Arg3(vs));
      Some(Open(Word(Head(vs)), Hyper(Head(owner)), Data(Arg1(owner)), Word(Arg1(vs)), Arm(Arg4(vs)) == 1, Name(Head(Parts(Arg5(vs))))))
  }

  /** LOCK4args: locktype, reclaim, offset, length, locker. */
  function AsLock(vs: Values): Option<Op> {
    if Flag(Arg1(vs)) || Arm(Arg4(vs)) != 0 then None
    else
      var locker := Parts(Head(Parts(Arg4(vs))));
      var owner := Parts(Arg3(locker));
      Some(LockNew(Word(Head(vs)), Hyper(Arg2(vs)), Hyper(Arg3(vs)), Word(Head(locker)), AsStateid(Arg1(locker)),
                   Word(Arg2(locker)), Hyper(Head(owner)), Data(Arg1(owner))))
  }

  function AsLockt(vs: Values): Op {
    var owner := Parts(Arg3(vs));
    Lockt(Word(Head(vs)), Hyper(Arg1(vs)), Hyper(Arg2(vs)), Hyper(Head(owner)), Data(Arg1(owner)))
  }

  function AsSet(vs: Values): Option<Op> {
    var attrs := AsSetAttr(Arg1(vs));
    if attrs.None? then None else Some(SetAttr(AsStateid(Head(vs)), attrs.value))
  }

  /** The operation that a server takes an opcode and its arguments for, if the client has it. */
  function Interpret(opnum: u32, vs: Values): Option<Op> {
    if Grammar(opnum).None? || !HaveTypes(Grammar(opnum).value, vs) then None else Understand(opnum, vs)
  }

  function Understand(opnum: u32, vs: Values): Option<Op> {
    match opnum
    case 3 => Some(Access(Word(Head(vs))))
    case 4 => Some(Close(Word(Head(vs)), AsStateid(Arg1(vs))))
    case 5 => Some(Commit(Hyper(Head(vs)), Word(Arg1(vs))))
    case 6 => AsCreate(vs)
    case 9 => Some(GetAttr(AsBits(Head(vs))))
    case 10 => Some(GetFh)
    case 11 => Some(Link(Name(Head(vs))))
    case 12 => AsLock(vs)
    case 13 => Some(AsLockt(vs))
    case 14 => Some(Locku(Word(Head(vs)), Word(Arg1(vs)), AsStateid(Arg2(vs)), Hyper(Arg3(vs)), Hyper(Arg4(vs))))
    case 15 => Some(Lookup(Name(Head(vs))))
    case 18 => AsOpen(vs)
    case 20 => Some(OpenConfirm(AsStateid(Head(vs)), Word(Arg1(vs))))
    case 22 => Some(PutFh(Data(Head(vs))))
    case 24 => Some(PutRootFh)
    case 25 => Some(Read(AsStateid(Head(vs)), Hyper(Arg1(vs)), Word(Arg2(vs))))
    case 26 => Some(ReadDir(Hyper(Head(vs)), Sized(Arg1(vs), 8), Word(Arg2(vs)), Word(Arg3(vs)), AsBits(Arg4(vs))))
    case 27 => Some(ReadLink)
    case 28 => Some(Remove(Name(Head(vs))))
    case 29 => Some(Rename(Name(Head(vs)), Name(Arg1(vs))))
    case 30 => Some(Renew(Hyper(Head(vs))))
    case 32 => Some(SaveFh)
    case 34 => AsSet(vs)
    case 38 => Some(Write(AsStateid(Head(vs)), Hyper(Arg1(vs)), Word(Arg2(vs)), Data(Arg3(vs))))
    case 53 => Some(Sequence(Sized(Head(vs), 16), Word(Arg1(vs)), Word(Arg2(vs)), Word(Arg3(vs)), Flag(Arg4(vs))))
    case _ => None
  }

  /** The same operation; a list of attributes is a set, in no particular order. */
  ghost predicate Same(got: Op, op: Op) {
    match op
    case GetAttr(bits) => got.GetAttr? && SameBits(got.bits, bits)
    case ReadDir(cookie, verf, dircount, maxcount, bits) =>
      got.ReadDir? && SameBits(got.bits, bits) && got == ReadDir(cookie, verf, dircount, maxcount, got.bits)
    case _ => got == op
  }

  ghost predicate SameBits(a: seq<u32>, b: seq<u32>) {
    forall bit: u32 :: bit in a <==> bit in b
  }

  lemma {:induction false} BitListExact(words: seq<u32>, from: nat, bit: u32)
    ensures bit in BitList(words, from) <==> from <= bit && BitSet(words, bit)
    decreases 32 * |words| - from
  {
    hide BitOf;
    if from < 32 * |words| && from < TWO32 {
      BitListExact(words, from + 1, bit);
    }
  }

  lemma {:induction false} WordsBack(ns: seq<u32>)
    ensures WordsOf(VArray(Words(ns))) == ns
  {
  }

  lemma {:induction false} BitsUnderstood(bits: seq<u32>)
    ensures SameBits(AsBits(BitmapValue(bits)), bits)
  {
    hide BitSet, Bitmap;
    WordsBack(Bitmap(bits));
    forall bit: u32
      ensures bit in AsBits(BitmapValue(bits)) <==> bit in bits
    {
      BitListExact(Bitmap(bits), 0, bit);
      BitmapExact(bits, bit);
    }
  }

  lemma {:induction false} StateidUnderstood(st: Stateid)
    ensures AsStateid(StateidValue(st)) == st
  {
  }

  lemma {:induction false} SetAttrUnderstood(a: SetAttr4)
    ensures AsSetAttr(Fattr4Value(SetBits(a), SetValues(a))) == Some(a)
  {
    hide DecodeAttrs, Bitmap, SetValues, SetBits;
    WordsBack(Bitmap(SetBits(a)));
    SetattrDecodes(a);
  }

  lemma {:induction false} NoAttrsUnderstood()
    ensures NoAttrs(NO_ATTRS)
  {
    hide AsBits, BitmapValue;
    BitsUnderstood([]);
    SomeBit(AsBits(BitmapValue([])));
  }

  lemma {:induction false} SomeBit(bits: seq<u32>)
    ensures bits == [] || exists bit: u32 :: bit in bits
  {
    if bits != [] {
      assert bits[0] in bits;
    }
  }

  lemma {:induction false} NestedUnderstood(op: Op)
    requires Nested(op)
    ensures Understand(OpNum(op), Meaning(op)) == Some(op)
  {
    hide StateidValue, AsStateid, Fattr4Value, AsSetAttr, ValidUtf8, NoAttrs;
    NoAttrsUnderstood();
    if op.LockNew? || op.SetAttr? {
      StateidUnderstood(op.stateid);
    }
    if op.SetAttr? {
      SetAttrUnderstood(op.attrs);
    }
  }

  lemma {:induction false} FlatUnderstood(op: Op)
    requires !Nested(op)
    ensures var got := Understand(OpNum(op), Meaning(op)); got.Some? && Same(got.value, op)
  {
    hide StateidValue, AsStateid, BitmapValue, AsBits, SameBits, ValidUtf8;
    if op.Read? || op.Write? || op.OpenConfirm? || op.Close? || op.Locku? {
      StateidUnderstood(op.stateid);
    }
    if op.GetAttr? || op.ReadDir? {
      BitsUnderstood(op.bits);
    }
  }

  /** The meaning of an operation in the grammar is understood as that operation. */
  lemma {:induction false} MeaningUnderstood(op: Op)
    ensures var got := Interpret(OpNum(op), Meaning(op)); got.Some? && Same(got.value, op)
  {
    hide Understand, OpNum, Meaning, Grammar, FlatFields, FlatValues, EncodeFields, HaveTypes;
    BuilderFollowsGrammar(op);
    if Nested(op) {
      NestedUnderstood(op);
    } else {
      FlatUnderstood(op);
    }
  }

  // --- And by no others -------------------------------------------------------------------

  /** The operations without a list of attributes. */
  predicate Plain(op: Op) {
    !(op.GetAttr? || op.ReadDir? || op.SetAttr? || op.CreateDir? || op.CreateSymlink? || (op.Open? && op.create))
  }

  lemma {:induction false} LeavesBack()
    ensures forall v :: HasType(U32, v) ==> v == VNum(Word(v))
    ensures forall v :: HasType(U64, v) ==> v == VNum(Hyper(v))
    ensures forall v :: HasType(Bool, v) ==> v == VBool(Flag(v))
    ensures forall v :: HasType(Opaque, v) ==> v == VBytes(Data(v))
    ensures forall v :: HasType(Str, v) ==> v == VBytes(Name(v))
    ensures forall v :: HasType(Fixed(8), v) ==> v == VBytes(Sized(v, 8))
    ensures forall v :: HasType(Fixed(16), v) ==> v == VBytes(Sized(v, 16))
  {
  }

  lemma {:induction false} StateidBack(v: Value)
    requires HasType(STATEID, v)
    ensures v == StateidValue(AsStateid(v))
  {
    assert HaveTypes(F1(Fixed(12)), v.vals.tail);
  }

  lemma {:induction false} OwnerBack(v: Value)
    requires HasType(OWNER, v)
    ensures v == OwnerValue(Hyper(Head(Parts(v))), Data(Arg1(Parts(v))))
  {
    assert HaveTypes(F1(Opaque), v.vals.tail);
  }

  /** An argument list of known types, taken apart. */
  lemma {:induction false} FieldsBack(limit: Option<nat>, s: Schema, fs: Fields, vs: Values)
    requires HaveTypes(FCons(limit, s, fs), vs)
    ensures vs == VCons(Head(vs), Tail(vs)) && HasType(s, Head(vs)) && HaveTypes(fs, Tail(vs))
  {
    hide HasType;
  }

  lemma {:induction false} NoneBack(vs: Values)
    requires HaveTypes(FNil, vs)
    ensures vs == VNil
  {
  }

  lemma {:induction false} Back1(limit: Option<nat>, a: Schema, vs: Values)
    requires HaveTypes(FCons(limit, a, FNil), vs)
    ensures vs == V1(Head(vs)) && HasType(a, Head(vs))
  {
    hide HasType, HaveTypes;
    FieldsBack(limit, a, FNil, vs);
    NoneBack(Tail(vs));
  }

  lemma {:induction false} Back2(a: Schema, b: Schema, vs: Values)
    requires HaveTypes(F2(a, b), vs)
    ensures vs == V2(Head(vs), Arg1(vs)) && HasType(a, Head(vs)) && HasType(b, Arg1(vs))
  {
    hide HasType, HaveTypes;
    FieldsBack(None, a, F1(b), vs);
    Back1(None, b, Tail(vs));
  }

  lemma {:induction false} Back3(a: Schema, b: Schema, c: Schema, vs: Values)
    requires HaveTypes(F3(a, b, c), vs)
    ensures vs == V3(Head(vs), Arg1(vs), Arg2(vs)) && HasType(a, Head(vs)) && HasType(b, Arg1(vs)) && HasType(c, Arg2(vs))
  {
    hide HasType, HaveTypes;
    FieldsBack(None, a, F2(b, c), vs);
    Back2(b, c, Tail(vs));
  }

  lemma {:induction false} Back4(a: Schema, b: Schema, c: Schema, d: Schema, vs: Values)
    requires HaveTypes(F4(a, b, c, d), vs)
    ensures vs == V4(Head(vs), Arg1(vs), Arg2(vs), Arg3(vs))
    ensures HasType(a, Head(vs)) && HasType(b, Arg1(vs)) && HasType(c, Arg2(vs)) && HasType(d, Arg3(vs))
  {
    hide HasType, HaveTypes;
    FieldsBack(None, a, F3(b, c, d), vs);
    Back3(b, c, d, Tail(vs));
  }

  lemma {:induction false} Back5(a: Schema, b: Schema, c: Schema, d: Schema, e: Schema, vs: Values)
    requires HaveTypes(F5(a, b, c, d, e), vs)
    ensures vs == V5(Head(vs), Arg1(vs), Arg2(vs), Arg3(vs), Arg4(vs))
    ensures HasType(a, Head(vs)) && HasType(b, Arg1(vs)) && HasType(c, Arg2(vs)) && HasType(d, Arg3(vs)) && HasType(e, Arg4(vs))
  {
    hide HasType, HaveTypes;
    FieldsBack(None, a, F4(b, c, d, e), vs);
    Back4(b, c, d, e, Tail(vs));
  }

  lemma {:induction false} OnlyShort(opnum: u32, vs: Values)
    requires opnum in {3, 10, 11, 15, 22, 24, 27, 28, 30, 32} && HaveTypes(Grammar(opnum).value, vs)
    ensures var op := Understand(opnum, vs).value; OpNum(op) == opnum && Meaning(op) == vs
  {
    hide HasType, HaveTypes, ValidUtf8, Hyper, Word, Name, Data;
    LeavesBack();
    if opnum in {10, 24, 27, 32} {
      NoneBack(vs);
    } else {
      Back1(if opnum == 22 then Some(128) else None, Grammar(opnum).value.head, vs);
    }
  }

  lemma {:induction false} OnlyStateful(opnum: u32, vs: Values)
    requires opnum in {4, 14, 20, 25, 38} && HaveTypes(Grammar(opnum).value, vs)
    ensures var op := Understand(opnum, vs).value; OpNum(op) == opnum && Meaning(op) == vs
  {
    hide HasType, HaveTypes, ValidUtf8, Hyper, Word, Name, Data, StateidValue, AsStateid;
    LeavesBack();
    if opnum == 4 {
      Back2(U32, STATEID, vs);
      StateidBack(Arg1(vs));
    } else if opnum == 14 {
      Back5(U32, U32, STATEID, U64, U64, vs);
      StateidBack(Arg2(vs));
    } else if opnum == 20 {
      Back2(STATEID, U32, vs);
      StateidBack(Head(vs));
    } else if opnum == 25 {
      Back3(STATEID, U64, U32, vs);
      StateidBack(Head(vs));
    } else {
      Back4(STATEID, U64, U32, Opaque, vs);
      StateidBack(Head(vs));
    }
  }

  lemma {:induction false} OnlyOthers(opnum: u32, vs: Values)
    requires opnum in {5, 13, 29, 53} && HaveTypes(Grammar(opnum).value, vs)
    ensures var op := Understand(opnum, vs).value; OpNum(op) == opnum && Meaning(op) == vs
  {
    hide HasType, HaveTypes, ValidUtf8, Hyper, Word, Name, Data, Sized, Flag;
    LeavesBack();
    if opnum == 5 {
      Back2(U64, U32, vs);
    } else if opnum == 13 {
      Back4(U32, U64, U64, OWNER, vs);
      OwnerBack(Arg3(vs));
    } else if opnum == 29 {
      Back2(Str, Str, vs);
    } else {
      Back5(Fixed(16), U32, U32, U32, Bool, vs);
    }
  }

  /** The locker of a LOCK for a new lock owner. */
  lemma {:induction false} LockerBack(v: Value)
    requires HasType(LOCKER, v) && Arm(v) == 0
    ensures var locker := Parts(Head(Parts(v)));
      v == VUnion(0, V1(VStruct(V4(VNum(Word(Head(locker))), StateidValue(AsStateid(Arg1(locker))), VNum(Word(Arg2(locker))), OwnerValue(Hyper(Head(Parts(Arg3(locker)))), Data(Arg1(Parts(Arg3(locker)))))))))
  {
    assert HaveTypes(F1(OPEN_TO_LOCK_OWNER), v.vals);
    hide HaveTypes, StateidValue, AsStateid, OwnerValue, Hyper, Word, Data;
    LeavesBack();
    Back1(None, OPEN_TO_LOCK_OWNER, v.vals);
    var locker := Parts(Head(v.vals));
    assert HaveTypes(F4(U32, STATEID, U32, OWNER), locker);
    Back4(U32, STATEID, U32, OWNER, locker);
    StateidBack(Arg1(locker));
    OwnerBack(Arg3(locker));
  }

  lemma {:induction false} OnlyLock(vs: Values)
    requires HaveTypes(Grammar(12).value, vs) && Understand(12, vs).Some?
    ensures var op := Understand(12, vs).value; OpNum(op) == 12 && Meaning(op) == vs
  {
    hide HasType, HaveTypes, StateidValue, AsStateid, OwnerValue, Hyper, Word, Data;
    LeavesBack();
    Back5(U32, Bool, U64, U64, LOCKER, vs);
    LockerBack(Arg4(vs));
  }

  lemma {:induction false} FlagBack(how: Value)
    requires HasType(OPENFLAG, how) && Arm(how) == 0
    ensures how == HowValue(false)
  {
  }

  lemma {:induction false} ClaimBack(claim: Value)
    requires HasType(CLAIM, claim)
    ensures claim == VUnion(0, V1(VBytes(Name(Head(Parts(claim))))))
  {
    hide ValidUtf8;
    assert HaveTypes(F1(Str), claim.vals);
  }

  lemma {:induction false} OnlyOpen(vs: Values)
    requires HaveTypes(Grammar(18).value, vs) && Understand(18, vs).Some? && !Understand(18, vs).value.create
    ensures var op := Understand(18, vs).value; OpNum(op) == 18 && Meaning(op) == vs
  {
    hide HasType, HaveTypes, OwnerValue, Hyper, Word, Data, Name, NoAttrs;
    LeavesBack();
    FieldsBack(None, U32, FF2(U32, U32, F3(OWNER, OPENFLAG, CLAIM)), vs);
    Back5(U32, U32, OWNER, OPENFLAG, CLAIM, Tail(vs));
    OwnerBack(Arg3(vs));
    TwoFlags(Arg4(vs));
    FlagBack(Arg4(vs));
    ClaimBack(Arg5(vs));
  }

  lemma {:induction false} TwoFlags(how: Value)
    requires HasType(OPENFLAG, how)
    ensures Arm(how) == 0 || Arm(how) == 1
  {
  }

  /**
   * Conversely, only its own arguments are understood as an operation: for those without a list
   * of attributes, the server's reading determines every field.
   */
  lemma {:induction false} OnlyItsMeaning(opnum: u32, vs: Values)
    requires Interpret(opnum, vs).Some? && Plain(Interpret(opnum, vs).value)
    ensures var op := Interpret(opnum, vs).value; OpNum(op) == opnum && Meaning(op) == vs
  {
    hide HaveTypes, Meaning, AsSetAttr, NoAttrs, AsBits, Word, Hyper, Name, Data, AsStateid;
    if opnum in {3, 10, 11, 15, 22, 24, 27, 28, 30, 32} {
      OnlyShort(opnum, vs);
    } else if opnum in {4, 14, 20, 25, 38} {
      OnlyStateful(opnum, vs);
    } else if opnum in {5, 13, 29, 53} {
      OnlyOthers(opnum, vs);
    } else if opnum == 12 {
      OnlyLock(vs);
    } else {
      assert opnum == 18;
      OnlyOpen(vs);
    }
  }

  /** A server that receives `bytes` would carry out exactly the operations of `log`. */
  ghost predicate CarriesOut(bytes: Bytes, minor: u32, log: seq<Op>) {
    var read := ReadCompound(bytes);
    && read.Ok? && read.value.1 == [] && read.value.0.tag == [] && read.value.0.minor == minor
    && var ops := read.value.0.ops;
    && |ops| == |log|
    && forall i :: 0 <= i < |ops| ==>
         var got := Interpret(ops[i].0, ops[i].1); got.Some? && Same(got.value, log[i])
  }

  /**
   * Builder fidelity, end to end: whatever operations are added, the finished message makes a
   * server carry out exactly those, in order.
   */
  lemma {:induction false} FinishIsCarriedOut(log: seq<Op>, minor: u32)
    requires OpsBytes(log).Ok? && |log| < TWO32
    ensures CarriesOut(FinishBytes(minor, |log|, OpsBytes(log).value), minor, log)
  {
    hide ReadCompound, FinishBytes, OpsBytes, Interpret, Same, Meaning, OpNum;
    CompoundReadsBack(log, minor);
    forall i | 0 <= i < |log|
      ensures var got := Interpret(Understood(log)[i].0, Understood(log)[i].1); got.Some? && Same(got.value, log[i])
    {
      MeaningUnderstood(log[i]);
    }
  }

  /** And what `assemble` sends in a session, the same after one SEQUENCE on slot 0. */
  lemma {:induction false} AssembledIsCarriedOut(log: seq<Op>, minor: u32, session: SessionId, seqid: u32)
    requires OpsBytes(log).Ok? && |log| < TWO32 - 1 && minor > 0
    ensures CarriesOut(AssembleBytes(minor, session, seqid, |log|, OpsBytes(log).value), minor,
                       [Sequence(session, seqid, 0, 0, false)] + log)
  {
    hide OpBytes, SequenceBytes, FinishBytes, CarriesOut;
    var first := Sequence(session, seqid, 0, 0, false);
    SequenceIsOp(session, seqid);
    assert ([first] + log)[1..] == log;
    FinishIsCarriedOut([first] + log, minor);
  }
}
