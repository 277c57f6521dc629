/** `CALL` headers, `AUTH_SYS` credentials and `REPLY` parsing (RFC 5531, sections 8 and 9). */
module RpcMessage {
  import opened Wire
  import opened Xdr
  import opened XdrTheorems
  import opened XdrCodec

  datatype RpcError =
    | Io
    | BadXdr(xdr: XdrError)
    | Timeout
    | ConnectionClosed
    | RecordTooLarge
    | MalformedReply
    | RpcMismatch(low: u32, high: u32)
    | AuthError(stat: u32)
    | ProgUnavail
    | ProgMismatch(low: u32, high: u32)
    | ProcUnavail
    | GarbageArgs
    | SystemErr
    | UnknownAcceptStat(code: u32)

  const RPC_VERSION: u32 := 2
  const MSG_CALL: u32 := 0
  const MSG_REPLY: u32 := 1
  const MSG_ACCEPTED: u32 := 0
  const MSG_DENIED: u32 := 1
  const AUTH_NONE: u32 := 0
  const AUTH_SYS: u32 := 1
  const MAX_AUTH_BODY: nat := 400

  // --- Credentials ------------------------------------------------------------------------

  datatype AuthSysParams = AuthSysParams(stamp: u32, machineName: Text, uid: u32, gid: u32, gids: seq<u32>)

  datatype Credentials = NoCred | Sys(params: AuthSysParams)

  const AUTH_SYS_PARMS: Schema :=
    Struct(FCons(None, U32, FCons(Some(255), Str, FCons(None, U32, FCons(None, U32,
           FCons(Some(16), Array(U32), FNil))))))

  function ParamsValue(p: AuthSysParams): (v: Value)
    ensures HasType(AUTH_SYS_PARMS, v)
  {
    VStruct(VCons(VNum(p.stamp), VCons(VBytes(p.machineName), VCons(VNum(p.uid), VCons(VNum(p.gid),
            VCons(VArray(Words(p.gids)), VNil))))))
  }

  predicate Fits(p: AuthSysParams) {
    |p.machineName| <= 255 && |p.gids| <= 16
  }

  /**
   * The derive-generated limits decide: parameters within them encode to at most 340 bytes, so
   * the 400-byte check on the credential body can never be the one that fails.
   */
  lemma {:induction false} AuthBodyBound(p: AuthSysParams)
    ensures Encode(AUTH_SYS_PARMS, ParamsValue(p)).Ok? <==> Fits(p)
    ensures Fits(p) ==> |Encode(AUTH_SYS_PARMS, ParamsValue(p)).value| <= 340
    ensures |p.machineName| > 255 ==>
      Encode(AUTH_SYS_PARMS, ParamsValue(p)) == Err(LimitExceeded(|p.machineName|, 255))
    ensures |p.machineName| <= 255 && |p.gids| > 16 ==>
      Encode(AUTH_SYS_PARMS, ParamsValue(p)) == Err(LimitExceeded(|p.gids|, 16))
  {
    hide PutU32, ToU32;
    var v := ParamsValue(p);
    WordsEncoding(p.gids);
    var f1 := AUTH_SYS_PARMS.fields;
    var f2, v2 := f1.tail, v.vals.tail;
    var f3, v3 := f2.tail, v2.tail;
    var f4, v4 := f3.tail, v3.tail;
    var f5, v5 := f4.tail, v4.tail;
    assert EncodeFields(f5.tail, v5.tail) == Ok([]);
    if |p.gids| <= 16 {
      assert EncodeFields(f5, v5).Ok? && |EncodeFields(f5, v5).value| == 4 + 4 * |p.gids|;
      assert EncodeFields(f3, v3).Ok? && |EncodeFields(f3, v3).value| == 12 + 4 * |p.gids|;
    } else {
      assert EncodeFields(f5, v5) == Err(LimitExceeded(|p.gids|, 16));
      assert EncodeFields(f4, v4) == Err(LimitExceeded(|p.gids|, 16));
      assert EncodeFields(f3, v3) == Err(LimitExceeded(|p.gids|, 16));
    }
    if |p.machineName| <= 255 {
      assert |EncodeOpaque(p.machineName, None).value| <= 260;
    }
  }

  /** `Credentials::encode_auth`: flavor and `opaque body<400>`. */
  function EncodeAuth(cred: Credentials): Result<Bytes, RpcError> {
    match cred
    case NoCred => Ok(PutU32(AUTH_NONE) + PutU32(0))
    case Sys(p) =>
      match Encode(AUTH_SYS_PARMS, ParamsValue(p))
      case Err(e) => Err(BadXdr(e))
      case Ok(body) =>
        match EncodeOpaque(body, Some(MAX_AUTH_BODY))
        case Err(e) => Err(BadXdr(e))
        case Ok(b) => Ok(PutU32(AUTH_SYS) + b)
  }

  function Flavor(cred: Credentials): u32 {
    if cred.NoCred? then 0 else 1
  }

  predicate CredFits(cred: Credentials) {
    cred.Sys? ==> Fits(cred.params)
  }

  /** The credential body a server should find. */
  function CredBody(cred: Credentials): Bytes
    requires CredFits(cred)
  {
    match cred
    case NoCred => []
    case Sys(p) =>
      AuthBodyBound(p);
      Encode(AUTH_SYS_PARMS, ParamsValue(p)).value
  }

  lemma {:induction false} EncodeAuthIs(cred: Credentials)
    ensures EncodeAuth(cred).Ok? <==> CredFits(cred)
    ensures CredFits(cred) ==>
      && EncodeOpaque(CredBody(cred), None).Ok?
      && EncodeAuth(cred).value == PutU32(Flavor(cred)) + EncodeOpaque(CredBody(cred), None).value
      && |CredBody(cred)| <= 340
  {
    if cred.Sys? {
      AuthBodyBound(cred.params);
    } else {
      assert Padded([]) == [];
      assert PutU32(0) + [] == PutU32(0);
    }
  }

  /** The words of a list of numbers. */
  function WordsOf(ns: seq<u32>): Bytes {
    if ns == [] then [] else PutU32(ns[0]) + WordsOf(ns[1..])
  }

  lemma {:induction false} WordsEncode(ns: seq<u32>)
    ensures forall i :: 0 <= i < |Words(ns)| ==> HasType(U32, Words(ns)[i])
    ensures EncodeItems(U32, Words(ns)) == Ok(WordsOf(ns))
  {
    hide PutU32, ToU32;
    if ns != [] {
      assert Words(ns)[1..] == Words(ns[1..]);
      WordsEncode(ns[1..]);
      SignedValue(false, false, ns[0]);
    }
  }

  /** authsys_parms, written out: stamp, machinename, uid, gid, gids. */
  lemma {:induction false} CredentialLayout(p: AuthSysParams)
    requires Fits(p)
    ensures CredBody(Sys(p)) ==
      PutU32(p.stamp) + (PutU32(|p.machineName|) + (p.machineName + Zeros(Padding(|p.machineName|))) + (PutU32(p.uid)
        + (PutU32(p.gid) + (PutU32(|p.gids|) + WordsOf(p.gids)))))
  {
    hide PutU32, ToU32, WordsOf, ValidUtf8;
    AuthBodyBound(p);
    var f1, v1 := AUTH_SYS_PARMS.fields, ParamsValue(p).vals;
    var f2, v2 := f1.tail, v1.tail;
    var f3, v3 := f2.tail, v2.tail;
    var f4, v4 := f3.tail, v3.tail;
    var f5, v5 := f4.tail, v4.tail;
    WordsEncode(p.gids);
    var gids := PutU32(|p.gids|) + WordsOf(p.gids);
    assert EncodeFields(f5.tail, v5.tail) == Ok([]);
    assert gids + [] == gids;
    assert EncodeFields(f5, v5) == Ok(gids);
    WordField(p.gid, f5, v5);
    WordField(p.uid, f4, v4);
    var name := PutU32(|p.machineName|) + (p.machineName + Zeros(Padding(|p.machineName|)));
    assert Encode(Str, VBytes(p.machineName)) == Ok(name);
    assert EncodeFields(f2, v2) == Ok(name + (PutU32(p.uid) + (PutU32(p.gid) + gids)));
    WordField(p.stamp, f2, v2);
  }

  // --- CALL -------------------------------------------------------------------------------

  /** `encode_call`: everything in front of the procedure's arguments. */
  function EncodeCall(xid: u32, prog: u32, vers: u32, procedure: u32, cred: Credentials): Result<Bytes, RpcError> {
    var auth :- EncodeAuth(cred);
    var verf :- EncodeAuth(NoCred);
    Ok(PutU32(xid) + PutU32(MSG_CALL) + PutU32(RPC_VERSION) + PutU32(prog) + PutU32(vers)
       + PutU32(procedure) + auth + verf)
  }

  /** `opaque_auth` and the body of a call, as section 9 of RFC 5531 defines them. */
  const OPAQUE_AUTH: Schema := Struct(FCons(None, U32, FCons(Some(400), Opaque, FNil)))

  const CALL_HEADER: Schema := Struct(WordsThen(AUTHS))

  function AuthValue(flavor: u32, body: Bytes): Value {
    VStruct(VCons(VNum(flavor), VCons(VBytes(body), VNil)))
  }

  function CallValue(xid: u32, prog: u32, vers: u32, procedure: u32, cred: Value, verf: Value): Value {
    VStruct(VCons(VNum(xid), VCons(VNum(0), VCons(VNum(2), VCons(VNum(prog),
            VCons(VNum(vers), VCons(VNum(procedure), VCons(cred, VCons(verf, VNil)))))))))
  }

  lemma {:induction false} AuthEncoding(flavor: u32, body: Bytes)
    requires |body| <= MAX_AUTH_BODY
    ensures HasType(OPAQUE_AUTH, AuthValue(flavor, body))
    ensures Encode(OPAQUE_AUTH, AuthValue(flavor, body))
         == Ok(PutU32(flavor) + EncodeOpaque(body, None).value)
  {
    var fs, vs := OPAQUE_AUTH.fields, AuthValue(flavor, body).vals;
    var e := EncodeOpaque(body, None).value;
    assert EncodeFields(fs.tail.tail, vs.tail.tail) == Ok([]);
    assert e + [] == e;
    assert EncodeFields(fs.tail, vs.tail) == Ok(e);
    assert ToU32(flavor) == flavor;
  }

  /** One more word in front of encoded fields. */
  lemma {:induction false} WordField(n: u32, fs: Fields, vs: Values)
    requires HaveTypes(fs, vs) && EncodeFields(fs, vs).Ok?
    ensures EncodeFields(FCons(None, U32, fs), VCons(VNum(n), vs)) == Ok(PutU32(n) + EncodeFields(fs, vs).value)
  {
    hide PutU32, ToU32;
    SignedValue(false, false, n);
  }

  const AUTHS: Fields := FCons(None, OPAQUE_AUTH, FCons(None, OPAQUE_AUTH, FNil))

  /** The credential and the empty verifier at the end of a call header. */
  lemma {:induction false} AuthFields(cred: Credentials)
    requires CredFits(cred)
    ensures |CredBody(cred)| <= 340
    ensures var vs := VCons(AuthValue(Flavor(cred), CredBody(cred)), VCons(AuthValue(0, []), VNil));
      && HaveTypes(AUTHS, vs)
      && EncodeAuth(cred).Ok? && EncodeAuth(NoCred).Ok?
      && EncodeFields(AUTHS, vs) == Ok(EncodeAuth(cred).value + EncodeAuth(NoCred).value)
  {
    EncodeAuthIs(cred);
    EncodeAuthIs(NoCred);
    AuthEncoding(Flavor(cred), CredBody(cred));
    AuthEncoding(0, []);
    var n := EncodeAuth(NoCred).value;
    assert EncodeFields(FNil, VNil) == Ok([]);
    assert n + [] == n;
    assert EncodeFields(AUTHS.tail, VCons(AuthValue(0, []), VNil)) == Ok(n);
  }

  /** The bytes `encode_call` writes are the encoding of a call body. */
  lemma {:induction false} CallEncoding(xid: u32, prog: u32, vers: u32, procedure: u32, cred: Credentials)
    requires CredFits(cred)
    ensures |CredBody(cred)| <= 340
    ensures var v := CallValue(xid, prog, vers, procedure, AuthValue(Flavor(cred), CredBody(cred)), AuthValue(0, []));
      && HasType(CALL_HEADER, v)
      && EncodeCall(xid, prog, vers, procedure, cred).Ok?
      && Encode(CALL_HEADER, v) == Ok(EncodeCall(xid, prog, vers, procedure, cred).value)
  {
    AuthFields(cred);
    var vs := VCons(AuthValue(Flavor(cred), CredBody(cred)), VCons(AuthValue(0, []), VNil));
    SixWords(xid, MSG_CALL, RPC_VERSION, prog, vers, procedure, AUTHS, vs);
    CallAssoc(PutU32(xid), PutU32(MSG_CALL), PutU32(RPC_VERSION), PutU32(prog), PutU32(vers), PutU32(procedure),
              EncodeAuth(cred).value, EncodeAuth(NoCred).value);
  }

  function WordsThen(fs: Fields): Fields {
    FCons(None, U32, FCons(None, U32, FCons(None, U32, FCons(None, U32, FCons(None, U32, FCons(None, U32, fs))))))
  }

  lemma {:induction false} SixWords(a: u32, b: u32, c: u32, d: u32, e: u32, f: u32, fs: Fields, vs: Values)
    requires HaveTypes(fs, vs) && EncodeFields(fs, vs).Ok?
    ensures var ws := VCons(VNum(a), VCons(VNum(b), VCons(VNum(c), VCons(VNum(d), VCons(VNum(e), VCons(VNum(f), vs))))));
      && HaveTypes(WordsThen(fs), ws)
      && EncodeFields(WordsThen(fs), ws) == Ok(PutU32(a) + (PutU32(b) + (PutU32(c) + (PutU32(d) + (PutU32(e)
           + (PutU32(f) + EncodeFields(fs, vs).value))))))
  {
    hide PutU32;
    WordField(f, fs, vs);
    var f5, v5 := FCons(None, U32, fs), VCons(VNum(f), vs);
    WordField(e, f5, v5);
    var f4, v4 := FCons(None, U32, f5), VCons(VNum(e), v5);
    WordField(d, f4, v4);
    var f3, v3 := FCons(None, U32, f4), VCons(VNum(d), v4);
    WordField(c, f3, v3);
    var f2, v2 := FCons(None, U32, f3), VCons(VNum(c), v3);
    WordField(b, f2, v2);
    WordField(a, FCons(None, U32, f2), VCons(VNum(b), v2));
  }

  lemma {:induction false} CallAssoc(a: Bytes, b: Bytes, c: Bytes, d: Bytes, e: Bytes, f: Bytes, g: Bytes, h: Bytes)
    ensures a + b + c + d + e + f + g + h == a + (b + (c + (d + (e + (f + (g + h))))))
  {
    Assoc(a + b + c + d + e + f, g, h);
    Assoc(a + b + c + d + e, f, g + h);
    Assoc(a + b + c + d, e, f + (g + h));
    Assoc(a + b + c, d, e + (f + (g + h)));
    Assoc(a + b, c, d + (e + (f + (g + h))));
    Assoc(a, b, c + (d + (e + (f + (g + h)))));
  }

  lemma {:induction false} HeaderWellFormed()
    ensures WellFormed(CALL_HEADER) && WellFormed(AUTH_SYS_PARMS)
  {
    assert WellFormedFields(AUTHS);
  }

  /** The call body of section 9 of RFC 5531, written out. */
  lemma {:induction false} CallLayout(xid: u32, prog: u32, vers: u32, procedure: u32, cred: Credentials)
    requires CredFits(cred)
    ensures |CredBody(cred)| <= 340
    ensures var body := CredBody(cred);
      EncodeCall(xid, prog, vers, procedure, cred) ==
        Ok(PutU32(xid) + PutU32(0) + PutU32(2) + PutU32(prog) + PutU32(vers) + PutU32(procedure)
           + (PutU32(if cred.Sys? then 1 else 0) + (PutU32(|body|) + (body + Zeros(Padding(|body|))))) + (PutU32(0) + PutU32(0)))
  {
    hide PutU32;
    EncodeAuthIs(cred);
    EncodeAuthIs(NoCred);
    assert Padded([]) == [];
    assert PutU32(0) + [] == PutU32(0);
  }

  /**
   * A server that reads a call body recovers the transaction id, program, version, procedure,
   * credential and the exact start of the arguments.
   */
  lemma {:induction false} CallParsesBack(xid: u32, prog: u32, vers: u32, procedure: u32, cred: Credentials, args: Bytes)
    ensures EncodeCall(xid, prog, vers, procedure, cred).Ok? <==> CredFits(cred)
    ensures CredFits(cred) ==>
      Decode(CALL_HEADER, EncodeCall(xid, prog, vers, procedure, cred).value + args) ==
        Ok((CallValue(xid, prog, vers, procedure, AuthValue(Flavor(cred), CredBody(cred)), AuthValue(0, [])), args))
  {
    EncodeAuthIs(cred);
    EncodeAuthIs(NoCred);
    if CredFits(cred) {
      CallEncoding(xid, prog, vers, procedure, cred);
      HeaderWellFormed();
      var v := CallValue(xid, prog, vers, procedure, AuthValue(Flavor(cred), CredBody(cred)), AuthValue(0, []));
      RoundTrip(CALL_HEADER, v, args);
    }
  }

  /** A server's reading of authsys_parms: stamp, machinename, uid, gid, gids. */
  function ParamsOf(v: Value): AuthSysParams
    requires HasType(AUTH_SYS_PARMS, v)
  {
    var f := v.vals;
    var g := f.tail.tail;
    var items := g.tail.tail.head.items;
    AuthSysParams(f.head.n, f.tail.head.bytes, g.head.n, g.tail.head.n,
                  seq<u32>(|items|, i requires 0 <= i < |items| && HasType(U32, items[i]) => items[i].n))
  }

  /** The credential body decodes to the parameters it was made from, with nothing left over. */
  lemma {:induction false} CredentialParsesBack(p: AuthSysParams)
    requires Fits(p)
    ensures var r := FromBytes(AUTH_SYS_PARMS, CredBody(Sys(p))); r == Ok(ParamsValue(p)) && ParamsOf(r.value) == p
  {
    assert ParamsOf(ParamsValue(p)).gids == p.gids;
    AuthBodyBound(p);
    HeaderWellFormed();
    WholeMessage(AUTH_SYS_PARMS, ParamsValue(p), []);
  }

  /** `build_call` without the counter: header and arguments, or why there is no message. */
  function CallMessage(xid: u32, prog: u32, vers: u32, procedure: u32, cred: Credentials, args: Encoded)
    : (r: Result<Bytes, RpcError>)
    ensures r.Ok? ==> |r.value| >= 4 && GetU32(r.value) == xid
  {
    var header :- EncodeCall(xid, prog, vers, procedure, cred);
    if args.Err? then Err(BadXdr(args.error))
    else
      HeaderStarts(xid, prog, vers, procedure, cred, args.value);
      Ok(header + args.value)
  }

  /** The message of a call is read back by a server, arguments included. */
  lemma {:induction false} MessageParsesBack(xid: u32, prog: u32, vers: u32, procedure: u32, cred: Credentials, args: Encoded)
    ensures CallMessage(xid, prog, vers, procedure, cred, args).Ok? <==> CredFits(cred) && args.Ok?
    ensures CredFits(cred) && args.Ok? ==>
      Decode(CALL_HEADER, CallMessage(xid, prog, vers, procedure, cred, args).value) ==
        Ok((CallValue(xid, prog, vers, procedure, AuthValue(Flavor(cred), CredBody(cred)), AuthValue(0, [])), args.value))
    ensures CredFits(cred) && args.Err? ==> CallMessage(xid, prog, vers, procedure, cred, args) == Err(BadXdr(args.error))
  {
    hide EncodeCall, Decode, CredBody, CallValue, CredFits;
    CallParsesBack(xid, prog, vers, procedure, cred, if args.Ok? then args.value else []);
  }

  /** A call message starts with its transaction id. */
  lemma {:induction false} HeaderStarts(xid: u32, prog: u32, vers: u32, procedure: u32, cred: Credentials, args: Bytes)
    requires EncodeCall(xid, prog, vers, procedure, cred).Ok?
    ensures var m := EncodeCall(xid, prog, vers, procedure, cred).value + args;
      |m| >= 4 && GetU32(m) == xid
  {
    hide EncodeAuth, PutU32, GetU32;
    var a, n := EncodeAuth(cred).value, EncodeAuth(NoCred).value;
    CallAssoc(PutU32(xid), PutU32(MSG_CALL), PutU32(RPC_VERSION), PutU32(prog), PutU32(vers), PutU32(procedure), a, n);
    var rest := PutU32(MSG_CALL) + (PutU32(RPC_VERSION) + (PutU32(prog) + (PutU32(vers) + (PutU32(procedure) + (a + n)))));
    Assoc(PutU32(xid), rest, args);
    GetPutU32(xid, rest + args);
  }

  // --- REPLY ------------------------------------------------------------------------------

  datatype AcceptStat =
    | Success(results: Bytes)
    | ProgUnavailable
    | ProgVersions(low: u32, high: u32)
    | ProcUnavailable
    | Garbage
    | System
    | Other(code: u32)

  datatype ReplyBody =
    | Accepted(flavor: u32, verf: Bytes, stat: AcceptStat)
    | DeniedVersion(low: u32, high: u32)
    | DeniedAuth(reason: u32)

  /** A reply that section 9 of RFC 5531 allows (`Other` stands for codes it does not define). */
  predicate LegalReply(r: ReplyBody) {
    r.Accepted? ==> |r.verf| <= 400 && (r.stat.Other? ==> r.stat.code > 5)
  }

  function StatBytes(s: AcceptStat): Bytes {
    match s
    case Success(results) => PutU32(0) + results
    case ProgUnavailable => PutU32(1)
    case ProgVersions(low, high) => PutU32(2) + (PutU32(low) + PutU32(high))
    case ProcUnavailable => PutU32(3)
    case Garbage => PutU32(4)
    case System => PutU32(5)
    case Other(code) => PutU32(code)
  }

  /** What a server sends. */
  function ServerReply(xid: u32, r: ReplyBody): Bytes
    requires LegalReply(r)
  {
    PutU32(xid) + (PutU32(1) +
    match r
    case Accepted(flavor, verf, stat) =>
      PutU32(0) + (PutU32(flavor) + (EncodeOpaque(verf, None).value + StatBytes(stat)))
    case DeniedVersion(low, high) => PutU32(1) + (PutU32(0) + (PutU32(low) + PutU32(high)))
    case DeniedAuth(stat) => PutU32(1) + (PutU32(1) + PutU32(stat)))
  }

  /** What the caller should learn from it. */
  function Meaning(r: ReplyBody): Result<Bytes, RpcError> {
    match r
    case Accepted(_, _, Success(results)) => Ok(results)
    case Accepted(_, _, ProgUnavailable) => Err(ProgUnavail)
    case Accepted(_, _, ProgVersions(low, high)) => Err(ProgMismatch(low, high))
    case Accepted(_, _, ProcUnavailable) => Err(ProcUnavail)
    case Accepted(_, _, Garbage) => Err(GarbageArgs)
    case Accepted(_, _, System) => Err(SystemErr)
    case Accepted(_, _, Other(code)) => Err(UnknownAcceptStat(code))
    case DeniedVersion(low, high) => Err(RpcMismatch(low, high))
    case DeniedAuth(stat) => Err(AuthError(stat))
  }

  type Parsing<+T> = Result<(T, Bytes), RpcError>

  function Take(b: Bytes): Parsing<u32> {
    match DecodeU32(b)
    case Ok((n, rest)) => Ok((n, rest))
    case Err(e) => Err(BadXdr(e))
  }

  function TakeVerf(b: Bytes): Parsing<Bytes> {
    match DecodeOpaque(Some(MAX_AUTH_BODY), b)
    case Ok((v, rest)) => Ok((v, rest))
    case Err(e) => Err(BadXdr(e))
  }

  type Reply = (u32, Result<Bytes, RpcError>)

  /** `parse_reply`: transport-level failures outside, the call's own outcome inside. */
  function ParseReply(b: Bytes): (r: Result<Reply, RpcError>)
    ensures r.Ok? ==> |b| >= 4 && r.value.0 == GetU32(b)
  {
    var (xid, b1) :- Take(b);
    var (kind, b2) :- Take(b1);
    if kind != MSG_REPLY then Err(MalformedReply)
    else
      var (stat, b3) :- Take(b2);
      if stat == MSG_ACCEPTED then
        var (_, b4) :- Take(b3);
        var (_, b5) :- TakeVerf(b4);
        var inner :- ParseAccepted(b5);
        Ok((xid, inner))
      else if stat == MSG_DENIED then
        var inner :- ParseDenied(b3);
        Ok((xid, Err(inner)))
      else Err(MalformedReply)
  }

  function ParseAccepted(b: Bytes): Result<Result<Bytes, RpcError>, RpcError> {
    var (stat, rest) :- Take(b);
    if stat == 0 then Ok(Ok(rest))
    else if stat == 1 then Ok(Err(ProgUnavail))
    else if stat == 2 then
      var (low, b1) :- Take(rest);
      var (high, _) :- Take(b1);
      Ok(Err(ProgMismatch(low, high)))
    else if stat == 3 then Ok(Err(ProcUnavail))
    else if stat == 4 then Ok(Err(GarbageArgs))
    else if stat == 5 then Ok(Err(SystemErr))
    else Ok(Err(UnknownAcceptStat(stat)))
  }

  function ParseDenied(b: Bytes): Result<RpcError, RpcError> {
    var (stat, rest) :- Take(b);
    if stat == 0 then
      var (low, b1) :- Take(rest);
      var (high, _) :- Take(b1);
      Ok(RpcMismatch(low, high))
    else if stat == 1 then
      var (s, _) :- Take(rest);
      Ok(AuthError(s))
    else Ok(MalformedReply)
  }

  lemma {:induction false} TakePut(n: u32, rest: Bytes)
    ensures Take(PutU32(n) + rest) == Ok((n, rest))
  {
    U32RoundTrip(n, rest);
  }

  lemma {:induction false} TakeLast(n: u32)
    ensures Take(PutU32(n)) == Ok((n, []))
  {
    TakePut(n, []);
    assert PutU32(n) + [] == PutU32(n);
  }

  lemma {:induction false} StatParses(s: AcceptStat)
    requires s.Other? ==> s.code > 5
    ensures ParseAccepted(StatBytes(s)) == Ok(Meaning(Accepted(0, [], s)))
  {
    match s
    case Success(results) => TakePut(0, results);
    case ProgVersions(low, high) =>
      TakePut(2, PutU32(low) + PutU32(high));
      TakePut(low, PutU32(high));
      TakeLast(high);
    case ProgUnavailable => TakeLast(1);
    case ProcUnavailable => TakeLast(3);
    case Garbage => TakeLast(4);
    case System => TakeLast(5);
    case Other(code) => TakeLast(code);
  }

  /** Every legal reply is understood, with its transaction id and its exact result bytes. */
  lemma {:induction false} ReplyParsesBack(xid: u32, r: ReplyBody)
    requires LegalReply(r)
    ensures ParseReply(ServerReply(xid, r)) == Ok((xid, Meaning(r)))
  {
    hide PutU32, GetU32;
    var b := ServerReply(xid, r);
    TakePut(xid, b[4..]);
    assert b == PutU32(xid) + b[4..];
    TakePut(MSG_REPLY, b[8..]);
    assert b[4..] == PutU32(MSG_REPLY) + b[8..];
    match r
    case Accepted(flavor, verf, stat) =>
      var tail := EncodeOpaque(verf, None).value + StatBytes(stat);
      assert b[8..] == PutU32(MSG_ACCEPTED) + (PutU32(flavor) + tail);
      TakePut(MSG_ACCEPTED, PutU32(flavor) + tail);
      TakePut(flavor, tail);
      assert EncodeOpaque(verf, Some(MAX_AUTH_BODY)) == EncodeOpaque(verf, None);
      OpaqueRoundTrip(verf, Some(MAX_AUTH_BODY), StatBytes(stat));
      StatParses(stat);
    case DeniedVersion(low, high) =>
      assert b[8..] == PutU32(MSG_DENIED) + (PutU32(0) + (PutU32(low) + PutU32(high)));
      TakePut(MSG_DENIED, PutU32(0) + (PutU32(low) + PutU32(high)));
      TakePut(0, PutU32(low) + PutU32(high));
      TakePut(low, PutU32(high));
      TakeLast(high);
    case DeniedAuth(stat) =>
      assert b[8..] == PutU32(MSG_DENIED) + (PutU32(1) + PutU32(stat));
      TakePut(MSG_DENIED, PutU32(1) + PutU32(stat));
      TakePut(1, PutU32(stat));
      TakeLast(stat);
  }

  /** The replies of section 9 of RFC 5531, written out, and what each tells the caller. */
  lemma {:induction false} ReplyForms(xid: u32, flavor: u32, verf: Bytes, results: Bytes, low: u32, high: u32, code: u32)
    requires |verf| <= 400
    ensures var head := PutU32(xid) + (PutU32(1) + (PutU32(0) + (PutU32(flavor) + (PutU32(|verf|) + (verf + Zeros(Padding(|verf|)))))));
      && ParseReply(head + (PutU32(0) + results)) == Ok((xid, Ok(results)))
      && ParseReply(head + PutU32(1)) == Ok((xid, Err(ProgUnavail)))
      && ParseReply(head + (PutU32(2) + (PutU32(low) + PutU32(high)))) == Ok((xid, Err(ProgMismatch(low, high))))
      && ParseReply(head + PutU32(3)) == Ok((xid, Err(ProcUnavail)))
      && ParseReply(head + PutU32(4)) == Ok((xid, Err(GarbageArgs)))
      && ParseReply(head + PutU32(5)) == Ok((xid, Err(SystemErr)))
      && (code > 5 ==> ParseReply(head + PutU32(code)) == Ok((xid, Err(UnknownAcceptStat(code)))))
    ensures ParseReply(PutU32(xid) + (PutU32(1) + (PutU32(1) + (PutU32(0) + (PutU32(low) + PutU32(high)))))) == Ok((xid, Err(RpcMismatch(low, high))))
    ensures ParseReply(PutU32(xid) + (PutU32(1) + (PutU32(1) + (PutU32(1) + PutU32(code))))) == Ok((xid, Err(AuthError(code))))
  {
    hide PutU32, ParseReply;
    AcceptedForm(xid, flavor, verf, Success(results));
    AcceptedForm(xid, flavor, verf, ProgUnavailable);
    AcceptedForm(xid, flavor, verf, ProgVersions(low, high));
    AcceptedForm(xid, flavor, verf, ProcUnavailable);
    AcceptedForm(xid, flavor, verf, Garbage);
    AcceptedForm(xid, flavor, verf, System);
    if code > 5 {
      AcceptedForm(xid, flavor, verf, Other(code));
    }
    ReplyParsesBack(xid, DeniedVersion(low, high));
    ReplyParsesBack(xid, DeniedAuth(code));
  }

  lemma {:induction false} AcceptedForm(xid: u32, flavor: u32, verf: Bytes, stat: AcceptStat)
    requires |verf| <= 400 && (stat.Other? ==> stat.code > 5)
    ensures var head := PutU32(xid) + (PutU32(1) + (PutU32(0) + (PutU32(flavor) + (PutU32(|verf|) + (verf + Zeros(Padding(|verf|)))))));
      ParseReply(head + StatBytes(stat)) == Ok((xid, Meaning(Accepted(flavor, verf, stat))))
  {
    hide PutU32, ParseReply, StatBytes, Meaning;
    var opaqueVerf := PutU32(|verf|) + (verf + Zeros(Padding(|verf|)));
    var s := StatBytes(stat);
    var head := PutU32(xid) + (PutU32(1) + (PutU32(0) + (PutU32(flavor) + opaqueVerf)));
    assert head + s == PutU32(xid) + (PutU32(1) + (PutU32(0) + (PutU32(flavor) + (opaqueVerf + s))));
    ReplyParsesBack(xid, Accepted(flavor, verf, stat));
  }

  lemma {:induction false} ReplyStarts(xid: u32, r: ReplyBody)
    requires LegalReply(r)
    ensures |ServerReply(xid, r)| >= 4 && ServerReply(xid, r)[..4] == PutU32(xid)
  {
    hide PutU32;
  }

  /** What is not a legal reply, and how it is reported: outside the call, or as the call's outcome. */
  lemma {:induction false} IllegalReplies(xid: u32, kind: u32, stat: u32, reject: u32, flavor: u32, verf: Bytes, rest: Bytes)
    requires 400 < |verf| < TWO32
    ensures kind != 1 ==> ParseReply(PutU32(xid) + (PutU32(kind) + rest)) == Err(MalformedReply)
    ensures stat > 1 ==> ParseReply(PutU32(xid) + (PutU32(1) + (PutU32(stat) + rest))) == Err(MalformedReply)
    ensures reject > 1 ==>
      ParseReply(PutU32(xid) + (PutU32(1) + (PutU32(1) + (PutU32(reject) + rest)))) == Ok((xid, Err(MalformedReply)))
    ensures ParseReply(PutU32(xid) + (PutU32(1) + (PutU32(0) + (PutU32(flavor) + (EncodeOpaque(verf, None).value + rest)))))
         == Err(BadXdr(LimitExceeded(|verf|, 400)))
  {
    hide PutU32, GetU32, EncodeOpaque, DecodeOpaque;
    TakePut(xid, PutU32(kind) + rest);
    TakePut(kind, rest);
    TakePut(xid, PutU32(1) + (PutU32(stat) + rest));
    TakePut(1, PutU32(stat) + rest);
    TakePut(stat, rest);
    var denied := PutU32(reject) + rest;
    TakePut(xid, PutU32(1) + (PutU32(1) + denied));
    TakePut(1, PutU32(1) + denied);
    TakePut(1, denied);
    TakePut(reject, rest);
    var long := EncodeOpaque(verf, None).value + rest;
    TakePut(xid, PutU32(1) + (PutU32(0) + (PutU32(flavor) + long)));
    TakePut(1, PutU32(0) + (PutU32(flavor) + long));
    TakePut(0, PutU32(flavor) + long);
    TakePut(flavor, long);
    DataRejections(verf, 400, rest);
  }

  /** `parse_reply` over a cursor, as the source runs it. */
  method ReadReply(body: Bytes) returns (r: Result<Reply, RpcError>)
    ensures r == ParseReply(body)
  {
    var buf := new Cursor(body);
    var xid :- TakeWord(buf);
    var kind :- TakeWord(buf);
    if kind != MSG_REPLY {
      return Err(MalformedReply);
    }
    var stat :- TakeWord(buf);
    if stat == MSG_ACCEPTED {
      var _ :- TakeWord(buf);
      var verf := ReadOpaque(Some(MAX_AUTH_BODY), buf);
      if verf.Err? {
        return Err(BadXdr(verf.error));
      }
      var code :- TakeWord(buf);
      if code == 0 {
        r := Ok((xid, Ok(buf.rest)));
      } else if code == 2 {
        var low :- TakeWord(buf);
        var high :- TakeWord(buf);
        r := Ok((xid, Err(ProgMismatch(low, high))));
      } else {
        r := Ok((xid, Err(
          if code == 1 then ProgUnavail else if code == 3 then ProcUnavail
          else if code == 4 then GarbageArgs else if code == 5 then SystemErr
          else UnknownAcceptStat(code))));
      }
    } else if stat == MSG_DENIED {
      var code :- TakeWord(buf);
      if code == 0 {
        var low :- TakeWord(buf);
        var high :- TakeWord(buf);
        r := Ok((xid, Err(RpcMismatch(low, high))));
      } else if code == 1 {
        var s :- TakeWord(buf);
        r := Ok((xid, Err(AuthError(s))));
      } else {
        r := Ok((xid, Err(MalformedReply)));
      }
    } else {
      r := Err(MalformedReply);
    }
  }

  method TakeWord(buf: Cursor) returns (r: Result<u32, RpcError>)
    modifies buf
    ensures match Take(old(buf.rest))
      case Ok((n, rest)) => r == Ok(n) && buf.rest == rest
      case Err(e) => r == Err(e)
  {
    var n := ReadU32(buf);
    r := if n.Ok? then Ok(n.value) else Err(BadXdr(n.error));
  }
}
