/**
 * What `Nfs4::run` makes of the bytes its RPC calls return, and what it makes of the replies
 * that section 15.2 of RFC 7530 prescribes.
 */
module Nfs4Reply {
  import opened Wire
  import opened Xdr
  import opened XdrTheorems
  import opened RpcMessage

  const NFS4_OK: u32 := 0
  const NFS4ERR_DELAY: u32 := 10008
  const NFS4ERR_GRACE: u32 := 10013
  const OP_SEQUENCE: u32 := 53

  datatype ProtoError = Nfs4(status: u32) | Rpc(rpc: RpcError) | Xdr(xdr: XdrError) | Protocol

  // --- The reader -------------------------------------------------------------------------

  /** `CompoundReader::parse`: overall status, tag and count; then the results. */
  function ParseCompound(b: Bytes): Result<Bytes, ProtoError> {
    match DecodeU32(b)
    case Err(e) => Err(Xdr(e))
    case Ok((status, b1)) =>
      match DecodeStr(b1)
      case Err(e) => Err(Xdr(e))
      case Ok((_, b2)) =>
        match DecodeU32(b2)
        case Err(e) => Err(Xdr(e))
        case Ok((_, b3)) => if status != NFS4_OK then Err(Nfs4(status)) else Ok(b3)
  }

  /** The result of SEQUENCE that `run` consumes: opcode, status, session id and five words. */
  const SEQUENCE_RESULT: Fields := FCons(None, Fixed(16), FCons(None, U32, FCons(None, U32, FCons(None, U32, FCons(None, U32, FCons(None, U32, FNil))))))

  function SkipSequence(b: Bytes): Result<Bytes, ProtoError> {
    match DecodeU32(b)
    case Err(e) => Err(Xdr(e))
    case Ok((opcode, b1)) =>
      if opcode != OP_SEQUENCE then Err(Protocol)
      else
        match DecodeU32(b1)
        case Err(e) => Err(Xdr(e))
        case Ok((status, b2)) =>
          if status != NFS4_OK then Err(Nfs4(status))
          else
            match DecodeFields(SEQUENCE_RESULT, b2)
            case Err(e) => Err(Xdr(e))
            case Ok((_, b3)) => Ok(b3)
  }

  /** What `run` returns for the bytes of its last call. */
  function ReadResults(minor: u32, data: Bytes): Result<Bytes, ProtoError> {
    var results :- ParseCompound(data);
    if minor >= 1 then SkipSequence(results) else Ok(results)
  }

  /** Only the overall status sends `run` round again. */
  predicate Backoff(data: Bytes) {
    ParseCompound(data) == Err(Nfs4(NFS4ERR_GRACE)) || ParseCompound(data) == Err(Nfs4(NFS4ERR_DELAY))
  }

  /** The status of SEQUENCE in such bytes, which `run` does not look at before it retries. */
  function SequenceStatus(data: Bytes): Option<u32> {
    match DecodeU32(data)
    case Err(_) => None
    case Ok((_, b1)) =>
      match DecodeStr(b1)
      case Err(_) => None
      case Ok((_, b2)) =>
        match DecodeFields(FCons(None, U32, FCons(None, U32, FCons(None, U32, FNil))), b2)
        case Err(_) => None
        case Ok((vs, _)) =>
          if vs.tail.head == VNum(OP_SEQUENCE) && vs.tail.tail.head.VNum? && 0 <= vs.tail.tail.head.n < TWO32
          then Some(vs.tail.tail.head.n) else None
  }

  /** SEQUENCE succeeded, so the server took the request's slot. */
  predicate SequenceTook(data: Bytes) {
    SequenceStatus(data) == Some(NFS4_OK)
  }

  /** The outcome of one RPC call: the bytes it returned, or its error. */
  type CallOutcome = Result<Bytes, RpcError>

  /** `run` goes round again after this outcome. */
  predicate Retried(outcome: CallOutcome) {
    outcome.Ok? && Backoff(outcome.value)
  }

  function FinalResult(minor: u32, outcome: CallOutcome): Result<Bytes, ProtoError> {
    match outcome
    case Err(e) => Err(Rpc(e))
    case Ok(data) => ReadResults(minor, data)
  }

  // --- Standard results -------------------------------------------------------------------

  /** COMPOUND4res as section 15.2 of RFC 7530 defines it. */
  function CompoundResult(status: u32, tag: Text, count: u32, results: Bytes): Bytes
    requires |tag| < TWO32
  {
    PutU32(status) + AfterStatus(tag, count, results)
  }

  function AfterStatus(tag: Text, count: u32, results: Bytes): Bytes
    requires |tag| < TWO32
  {
    EncodeOpaque(tag, None).value + (PutU32(count) + results)
  }

  /** The reader itself is right about such a result. */
  lemma {:induction false} ParseCompoundResult(status: u32, tag: Text, count: u32, results: Bytes)
    requires |tag| < TWO32
    ensures ParseCompound(CompoundResult(status, tag, count, results))
         == if status == NFS4_OK then Ok(results) else Err(Nfs4(status))
  {
    hide PutU32, GetU32, ValidUtf8, EncodeOpaque, DecodeOpaque;
    var tail := PutU32(count) + results;
    U32RoundTrip(status, EncodeOpaque(tag, None).value + tail);
    OpaqueRoundTrip(tag, None, tail);
    U32RoundTrip(count, results);
  }

  /**
   * But `run` asks its RPC call for a `Bytes`, which decodes as a length-prefixed opaque, and
   * the length it finds in a standard result is the status. The call succeeds exactly when at
   * least that many bytes, padded, come after it, and then yields the first of them.
   */
  lemma {:induction false} StandardResultAsOpaque(status: u32, tag: Text, count: u32, results: Bytes)
    requires |tag| < TWO32
    ensures var rest := AfterStatus(tag, count, results);
      var d := Decode(Opaque, CompoundResult(status, tag, count, results));
      && (d.Ok? <==> |rest| >= status + Padding(status))
      && (d.Ok? ==> d.value.0 == VBytes(rest[..status]))
      && (d.Err? ==> IsTruncated(d))
  {
    hide PutU32, GetU32, ValidUtf8, AfterStatus;
    U32RoundTrip(status, AfterStatus(tag, count, results));
  }

  /** A success therefore yields no bytes at all, and is reported as truncated. */
  lemma {:induction false} StandardSuccessIsRejected(minor: u32, tag: Text, count: u32, results: Bytes)
    requires |tag| < TWO32
    ensures var body := CompoundResult(NFS4_OK, tag, count, results);
      && Decode(Opaque, body).Ok? && Decode(Opaque, body).value.0 == VBytes([])
      && ReadResults(minor, []) == Err(Xdr(Truncated(4, 0)))
  {
    hide ValidUtf8, EncodeOpaque, Decode, CompoundResult;
    StandardResultAsOpaque(NFS4_OK, tag, count, results);
  }

  /** The status that the reader finds in such bytes is the length of the tag. */
  lemma {:induction false} TagIsTheStatus(tag: Text, count: u32, results: Bytes, n: nat)
    requires |tag| < TWO32 && n <= |AfterStatus(tag, count, results)|
    ensures match ParseCompound(AfterStatus(tag, count, results)[..n])
      case Ok(_) => tag == []
      case Err(Nfs4(status)) => status == |tag| > 0
      case Err(e) => e.Xdr?
  {
    hide PutU32, GetU32, ValidUtf8, DecodeStr;
    var rest := AfterStatus(tag, count, results);
    var data := rest[..n];
    if n >= 4 {
      var tail := rest[4..];
      assert rest == PutU32(|tag|) + tail by {
        Assoc(PutU32(|tag|), Padded(tag), PutU32(count) + results);
      }
      assert data == PutU32(|tag|) + tail[..n - 4];
      U32RoundTrip(|tag|, tail[..n - 4]);
    }
  }

  /** What the RPC call inside `run` returns when the server answers with this result. */
  function StandardOutcome(status: u32, tag: Text, count: u32, results: Bytes): CallOutcome
    requires |tag| < TWO32
  {
    match Decode(Opaque, CompoundResult(status, tag, count, results))
    case Ok((VBytes(data), _)) => Ok(data)
    case Ok(_) => Ok([])
    case Err(e) => Err(BadXdr(e))
  }

  /** What `run` should return for it in minor version 0. */
  function Due(status: u32, results: Bytes): Result<Bytes, ProtoError> {
    if status == NFS4_OK then Ok(results) else Err(Nfs4(status))
  }

  /**
   * The overall status of a standard result is never seen, whatever it is and however long the
   * result: the client's tag is empty and the server echoes it, so what is read as a status is
   * 0, or nothing at all.
   */
  lemma {:induction false} StandardStatusIsNeverSeen(status: u32, count: u32, results: Bytes)
    ensures var outcome := StandardOutcome(status, [], count, results);
      match outcome
      case Err(e) => e.BadXdr? && e.xdr.Truncated?
      case Ok(data) => ParseCompound(data).Ok? || ParseCompound(data).error.Xdr?
  {
    hide ParseCompound, Decode, CompoundResult, AfterStatus;
    StandardResultAsOpaque(status, [], count, results);
    if |AfterStatus([], count, results)| >= status {
      TagIsTheStatus([], count, results, status);
    }
  }

  /**
   * Hence `run` never does what it should with one: in minor version 0 no standard result,
   * success or error, is ever returned as what it is, and in no minor version is a success.
   */
  lemma {:induction false} StandardResultIsNeverRight(minor: u32, status: u32, count: u32, results: Bytes)
    ensures FinalResult(0, StandardOutcome(status, [], count, results)) != Due(status, results)
    ensures status == NFS4_OK ==> FinalResult(minor, StandardOutcome(status, [], count, results)) == Err(Xdr(Truncated(4, 0)))
  {
    hide ParseCompound, Decode, CompoundResult, AfterStatus, SkipSequence;
    StandardStatusIsNeverSeen(status, count, results);
    StandardResultAsOpaque(status, [], count, results);
    if status == NFS4_OK {
      StandardSuccessIsRejected(minor, [], count, results);
      StandardSuccessIsRejected(0, [], count, results);
    }
  }

  /** An error may even come back as success: NOTDIR, answered to PUTFH and LOOKUP. */
  lemma {:induction false} StandardErrorAsSuccess()
    ensures var results := PutU32(22) + (PutU32(NFS4_OK) + (PutU32(15) + PutU32(20)));
      FinalResult(0, StandardOutcome(20, [], 2, results)) == Ok(PutU32(15))
  {
    hide PutU32, GetU32, EncodeOpaque, Decode, CompoundResult;
    var results := PutU32(22) + (PutU32(NFS4_OK) + (PutU32(15) + PutU32(20)));
    var rest := AfterStatus([], 2, results);
    StandardResultAsOpaque(20, [], 2, results);
    assert EncodeOpaque([], None).value == PutU32(0) by {
      EmptyTag();
    }
    // Status 0; a tag as long as the count, in the opcode of PUTFH; PUTFH's status as the count.
    var data := rest[..20];
    assert rest == PutU32(0) + (PutU32(2) + (PutU32(22) + (PutU32(0) + (PutU32(15) + PutU32(20)))));
    assert data == PutU32(0) + (PutU32(2) + (PutU32(22) + (PutU32(0) + PutU32(15))));
    U32RoundTrip(0, PutU32(2) + (PutU32(22) + (PutU32(0) + PutU32(15))));
    U32RoundTrip(2, PutU32(22) + (PutU32(0) + PutU32(15)));
    U32RoundTrip(0, PutU32(15));
    ShortTag(PutU32(0) + PutU32(15));
  }

  lemma {:induction false} EmptyTag()
    ensures EncodeOpaque([], None) == Ok(PutU32(0))
  {
    assert Padded([]) == [];
    assert PutU32(0) + [] == PutU32(0);
  }

  /** The first two bytes of a small opcode are zeros, which is valid text. */
  lemma {:induction false} ShortTag(rest: Bytes)
    ensures DecodeStr(PutU32(2) + (PutU32(22) + rest)) == Ok(([0, 0], rest))
  {
    U32RoundTrip(2, PutU32(22) + rest);
    assert (PutU32(22) + rest)[..2] == [0, 0];
    assert (PutU32(22) + rest)[4..] == rest;
    assert [0, 0][1..] == [0] && [0][1..] == [];
    assert ValidUtf8([0]) && ValidUtf8([0, 0]);
  }

  /** In particular no standard result makes `run` go round again. */
  lemma {:induction false} StandardResultIsNotRetried(status: u32, count: u32, results: Bytes)
    ensures !Retried(StandardOutcome(status, [], count, results))
  {
    hide ParseCompound, StandardOutcome;
    StandardStatusIsNeverSeen(status, count, results);
  }

  /** In particular a GRACE or DELAY of less than its own status in bytes is a truncation error. */
  lemma {:induction false} StandardBackoffIsNotSeen(status: u32, tag: Text, count: u32, results: Bytes)
    requires |tag| < TWO32 && |AfterStatus(tag, count, results)| < status + Padding(status)
    ensures IsTruncated(Decode(Opaque, CompoundResult(status, tag, count, results)))
  {
    hide Decode, CompoundResult, AfterStatus;
    StandardResultAsOpaque(status, tag, count, results);
  }

  // --- What the code does understand ------------------------------------------------------

  /** The same result wrapped in an opaque. */
  lemma {:induction false} WrappedResultIsRead(status: u32, tag: Text, count: u32, results: Bytes, rest: Bytes)
    requires |tag| < TWO32 && |CompoundResult(status, tag, count, results)| < TWO32
    ensures var inner := CompoundResult(status, tag, count, results);
      && Decode(Opaque, EncodeOpaque(inner, None).value + rest) == Ok((VBytes(inner), rest))
      && ReadResults(0, inner) == if status == NFS4_OK then Ok(results) else Err(Nfs4(status))
  {
    hide CompoundResult, ParseCompound, EncodeOpaque, DecodeOpaque;
    var inner := CompoundResult(status, tag, count, results);
    OpaqueRoundTrip(inner, None, rest);
    ParseCompoundResult(status, tag, count, results);
  }

  /** So a wrapped GRACE or DELAY is retried, and shows whether SEQUENCE took the slot. */
  lemma {:induction false} WrappedBackoffIsRetried(status: u32, count: u32, sequence: u32, more: Bytes)
    requires status == NFS4ERR_GRACE || status == NFS4ERR_DELAY
    ensures var inner := CompoundResult(status, [], count, PutU32(OP_SEQUENCE) + (PutU32(sequence) + more));
      Retried(Ok(inner)) && SequenceStatus(inner) == Some(sequence)
  {
    hide PutU32, GetU32, EncodeOpaque, DecodeOpaque;
    var tail := PutU32(sequence) + more;
    var results := PutU32(OP_SEQUENCE) + tail;
    ParseCompoundResult(status, [], count, results);
    U32RoundTrip(status, AfterStatus([], count, results));
    OpaqueRoundTrip([], None, PutU32(count) + results);
    U32RoundTrip(count, results);
    U32RoundTrip(OP_SEQUENCE, tail);
    U32RoundTrip(sequence, more);
    ThreeWords(count, OP_SEQUENCE, sequence, PutU32(count) + results, results, tail, more);
  }

  /** Of wrapped results, exactly those with an overall status of GRACE or DELAY are retried. */
  lemma {:induction false} WrappedRetriedExactly(status: u32, tag: Text, count: u32, results: Bytes)
    requires |tag| < TWO32
    ensures Retried(Ok(CompoundResult(status, tag, count, results))) <==> status == 10008 || status == 10013
  {
    hide CompoundResult, ParseCompound;
    ParseCompoundResult(status, tag, count, results);
  }

  /**
   * In a session, a wrapped success whose results begin with that of SEQUENCE, a session id and
   * five words, is returned as what comes after it.
   */
  lemma {:induction false} SessionResultIsRead(minor: u32, tag: Text, count: u32, sid: Bytes, a: u32, b: u32, c: u32, d: u32, e: u32, tail: Bytes)
    requires minor >= 1 && |tag| < TWO32 && |sid| == 16
    ensures ReadResults(minor, CompoundResult(0, tag, count,
              PutU32(53) + (PutU32(0) + (sid + (PutU32(a) + (PutU32(b) + (PutU32(c) + (PutU32(d) + (PutU32(e) + tail)))))))))
         == Ok(tail)
  {
    hide PutU32, GetU32, CompoundResult, ParseCompound, DecodeFields;
    var words := PutU32(a) + (PutU32(b) + (PutU32(c) + (PutU32(d) + (PutU32(e) + tail))));
    var results := PutU32(53) + (PutU32(0) + (sid + words));
    ParseCompoundResult(0, tag, count, results);
    U32RoundTrip(53, PutU32(0) + (sid + words));
    U32RoundTrip(0, sid + words);
    var f5 := FCons(None, U32, FNil);
    var f4 := FCons(None, U32, f5);
    var f3 := FCons(None, U32, f4);
    var f2 := FCons(None, U32, f3);
    NoFields(tail);
    WordFirst(e, FNil, tail);
    WordFirst(d, f5, PutU32(e) + tail);
    WordFirst(c, f4, PutU32(d) + (PutU32(e) + tail));
    WordFirst(b, f3, PutU32(c) + (PutU32(d) + (PutU32(e) + tail)));
    WordFirst(a, f2, PutU32(b) + (PutU32(c) + (PutU32(d) + (PutU32(e) + tail))));
    SessionIdFirst(sid, FCons(None, U32, f2), words);
  }

  /** A call that failed is reported as that; in minor version 0 the results are returned as they are. */
  lemma {:induction false} OutcomeIsReturned(minor: u32, e: RpcError, status: u32, tag: Text, count: u32, results: Bytes)
    requires |tag| < TWO32
    ensures FinalResult(minor, Err(e)) == Err(Rpc(e))
    ensures FinalResult(0, Ok(CompoundResult(status, tag, count, results))) == if status == 0 then Ok(results) else Err(Nfs4(status))
    ensures status != 0 ==> FinalResult(minor, Ok(CompoundResult(status, tag, count, results))) == Err(Nfs4(status))
    ensures FinalResult(minor, Ok(CompoundResult(0, tag, count, results))) == ReadResults(minor, CompoundResult(0, tag, count, results))
  {
    hide CompoundResult, ParseCompound, SkipSequence;
    ParseCompoundResult(status, tag, count, results);
    ParseCompoundResult(0, tag, count, results);
  }

  /** The errors: another operation in its place, or a SEQUENCE that failed. */
  lemma {:induction false} SessionErrorIsRead(minor: u32, tag: Text, count: u32, opcode: u32, status: u32, tail: Bytes)
    requires minor >= 1 && |tag| < TWO32
    ensures var data := CompoundResult(0, tag, count, PutU32(opcode) + (PutU32(status) + tail));
      && (opcode != 53 ==> ReadResults(minor, data) == Err(Protocol))
      && (opcode == 53 && status != 0 ==> ReadResults(minor, data) == Err(Nfs4(status)))
  {
    hide PutU32, GetU32, CompoundResult, ParseCompound, DecodeFields;
    ParseCompoundResult(0, tag, count, PutU32(opcode) + (PutU32(status) + tail));
    U32RoundTrip(opcode, PutU32(status) + tail);
    U32RoundTrip(status, tail);
  }

  /** A word, or a session id, in front of fields that decode. */
  lemma {:induction false} WordFirst(n: u32, fs: Fields, b: Bytes)
    requires DecodeFields(fs, b).Ok?
    ensures DecodeFields(FCons(None, U32, fs), PutU32(n) + b)
         == Ok((VCons(VNum(n), DecodeFields(fs, b).value.0), DecodeFields(fs, b).value.1))
  {
    hide PutU32, GetU32;
    U32RoundTrip(n, b);
  }

  lemma {:induction false} SessionIdFirst(sid: Bytes, fs: Fields, b: Bytes)
    requires |sid| == 16 && DecodeFields(fs, b).Ok?
    ensures DecodeFields(FCons(None, Fixed(16), fs), sid + b)
         == Ok((VCons(VBytes(sid), DecodeFields(fs, b).value.0), DecodeFields(fs, b).value.1))
  {
    FixedRoundTrip(sid, b);
    assert Padded(sid) == sid;
  }

  lemma {:induction false} NoFields(b: Bytes)
    ensures DecodeFields(FNil, b) == Ok((VNil, b))
  {
  }

  /** Three words in a row, read as fields. */
  lemma {:induction false} ThreeWords(a: u32, b: u32, c: u32, b0: Bytes, b1: Bytes, b2: Bytes, b3: Bytes)
    requires DecodeU32(b0) == Ok((a, b1)) && DecodeU32(b1) == Ok((b, b2)) && DecodeU32(b2) == Ok((c, b3))
    ensures DecodeFields(FCons(None, U32, FCons(None, U32, FCons(None, U32, FNil))), b0)
         == Ok((VCons(VNum(a), VCons(VNum(b), VCons(VNum(c), VNil))), b3))
  {
    hide GetU32;
    assert DecodeFields(FNil, b3) == Ok((VNil, b3));
    assert DecodeFields(FCons(None, U32, FNil), b2) == Ok((VCons(VNum(c), VNil), b3));
    assert DecodeFields(FCons(None, U32, FCons(None, U32, FNil)), b1) == Ok((VCons(VNum(b), VCons(VNum(c), VNil)), b3));
  }
}
