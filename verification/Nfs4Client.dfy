/**
 * `Nfs4::run` on top of the RPC client: the retry loop, the sequence ids that `assemble` stamps
 * on requests, and the whole way from an arbitrary network to at-most-once execution.
 *
 * The history of a session is not assumed. Requests enter it when the client makes its calls,
 * and what the server did is read off the replies the network recorded. The one assumption is
 * that the server is honest (`Honest`): it says that it backed off only where it did.
 */
module Nfs4Client {
  import opened Wire
  import opened Xdr
  import opened RpcMessage
  import opened Compound
  import opened Nfs4Reply
  import opened Nfs4Session
  import Rpc = RpcClient

  const PROGRAM: u32 := 100003
  const VERSION4: u32 := 4
  const COMPOUND_PROC: u32 := 1
  const MAX_ATTEMPTS: nat := 6

  // --- What the network's record says about the session -----------------------------------

  function XidIn(message: Bytes): u32 {
    if |message| >= 4 then GetU32(message) else 0
  }

  /** Which request of the session a call message is; others get numbers that are out of range. */
  function RequestNumber(firstXid: u32, message: Bytes): nat {
    (XidIn(message) - firstXid) % TWO32
  }

  /** What a reply tells: the server backed off, at SEQUENCE or later, or may have acted. */
  function Heard(firstXid: u32, a: Rpc.Answer): Event {
    var j := RequestNumber(firstXid, a.request);
    match Rpc.ResultOf(a.reply, Opaque)
    case Ok(VBytes(data)) =>
      if !Backoff(data) then Deliver(j, true)
      else if SequenceTook(data) then Deliver(j, false) else SequenceDelay(j)
    case _ => Deliver(j, true)
  }

  function AllHeard(firstXid: u32, answers: seq<Rpc.Answer>): seq<Event> {
    seq(|answers|, i requires 0 <= i < |answers| => Heard(firstXid, answers[i]))
  }

  /** A back-off that claims the slot comes from a request executed without effect, then or before. */
  ghost predicate Honest(s: State, events: seq<Event>) {
    events == [] ||
    (var init, e := events[..|events| - 1], events[|events| - 1];
     && Honest(s, init)
     && (e.Deliver? && !e.effect && e.request < |After(s, init).compounds| ==>
           Execution(e.request, false) in After(s, events).executed))
  }

  /** Since the session began, every result in a reply is a COMPOUND4res with the client's empty tag. */
  ghost predicate Standard(answers: seq<Rpc.Answer>, since: nat) {
    forall k :: since <= k < |answers| ==> StandardReply(answers[k].reply)
  }

  ghost predicate StandardReply(reply: Bytes) {
    match ParseReply(reply)
    case Ok((_, Ok(body))) => exists status, count, results :: body == CompoundResult(status, [], count, results)
    case _ => true
  }

  ghost predicate NoRetry(events: seq<Event>) {
    forall i :: 0 <= i < |events| ==> !events[i].Retry?
  }

  /**
   * A session so far: `fine` while there were at most 2^32 calls and no `RecordTooLarge`, `blind`
   * once a retry followed a reply whose SEQUENCE had not taken the slot.
   */
  datatype Past = Past(init: State, firstXid: u32, events: seq<Event>, fine: bool, blind: bool, answers: seq<Rpc.Answer>, since: nat)

  ghost predicate Trusted(p: Past) {
    p.fine && Honest(p.init, p.events)
  }

  /** What is known of every session. */
  ghost predicate Sound(p: Past) {
    && (Trusted(p) ==> Possible(p.init, p.events))
    && (Trusted(p) && !p.blind ==> Grounded(p.init, p.events))
    && (p.fine && Standard(p.answers, p.since) ==> NoRetry(p.events))
  }

  /** What is known when `run` is about to go round again. */
  ghost predicate MayRetry(p: Past) {
    && |After(p.init, p.events).compounds| > 0
    && (Trusted(p) ==> ToldToBackOff(After(p.init, p.events), |After(p.init, p.events).compounds| - 1))
    && (Trusted(p) && !p.blind ==> Took(After(p.init, p.events)))
    && !(p.fine && Standard(p.answers, p.since))
  }

  /** One more call: its request, then whatever the server answered meanwhile. */
  function Further(p: Past, e: Event, fine: bool, answers: seq<Rpc.Answer>): Past
    requires p.answers <= answers
  {
    p.(events := p.events + [e] + AllHeard(p.firstXid, answers[|p.answers|..]), fine := fine, answers := answers)
  }

  lemma {:induction false} HeardOutside(firstXid: u32, answers: seq<Rpc.Answer>)
    ensures Outside(AllHeard(firstXid, answers))
  {
    hide Backoff, SequenceTook, Rpc.ResultOf, RequestNumber;
  }

  lemma {:induction false} HonestBefore(s: State, past: seq<Event>, more: seq<Event>)
    requires Honest(s, past + more)
    ensures Honest(s, past)
  {
    hide After;
    if more == [] {
      assert past + more == past;
    } else {
      assert (past + more)[..|past + more| - 1] == past + more[..|more| - 1];
      HonestBefore(s, past, more[..|more| - 1]);
    }
  }

  lemma {:induction false} CallSound(p: Past, e: Event, fine: bool, answers: seq<Rpc.Answer>)
    requires p.answers <= answers && (fine ==> p.fine) && Sound(p)
    requires e == NewRun || (e == Retry && MayRetry(p))
    ensures Sound(Further(p, e, fine, answers))
    ensures After(p.init, Further(p, e, fine, answers).events).compounds == After(p.init, p.events + [e]).compounds
  {
    hide After, Possible, Grounded, Honest, Standard, AllHeard, Outside, ToldToBackOff, Took;
    var q := Further(p, e, fine, answers);
    var heard := AllHeard(p.firstXid, answers[|p.answers|..]);
    HeardOutside(p.firstXid, answers[|p.answers|..]);
    OutsideCompounds(p.init, p.events + [e], heard);
    if Trusted(q) {
      HonestBefore(p.init, p.events + [e], heard);
      HonestBefore(p.init, p.events, [e]);
      Extend(p.init, p.events, e);
      OutsidePossible(p.init, p.events + [e], heard);
      if !q.blind {
        ExtendGrounded(p.init, p.events, e);
        OutsideGrounded(p.init, p.events + [e], heard);
      }
    }
    if q.fine && Standard(answers, p.since) {
      StandardBefore(p.answers, answers, p.since);
      NoRetryAfter(p.events, e, heard);
    }
  }

  lemma {:induction false} ExtendGrounded(s: State, events: seq<Event>, e: Event)
    requires Grounded(s, events) && (e.Retry? ==> Took(After(s, events)))
    ensures Grounded(s, events + [e])
  {
    hide After, Took;
    assert (events + [e])[..|events|] == events;
  }

  lemma {:induction false} StandardBefore(before: seq<Rpc.Answer>, answers: seq<Rpc.Answer>, since: nat)
    requires before <= answers && Standard(answers, since)
    ensures Standard(before, since)
  {
    hide StandardReply;
  }

  lemma {:induction false} NoRetryAfter(events: seq<Event>, e: Event, more: seq<Event>)
    requires NoRetry(events) && !e.Retry? && Outside(more)
    ensures NoRetry(events + [e] + more)
  {
    assert forall i :: 0 <= i < |more| ==> (more[i].Deliver? || more[i].SequenceDelay?);
  }

  /** A session as it should be: a request backed off in its slot, and its retry executed. */
  lemma {:induction false} RetryAfterBackoff()
    ensures var events := [NewRun, Deliver(0, false), Retry, Deliver(1, true)];
      var s := After(Initial(1, 0), events);
      && Honest(Initial(1, 0), events) && Grounded(Initial(1, 0), events) && AtMostOnce(s)
      && s.executed == [Execution(0, false), Execution(1, true)] && s.compounds == [1, 1]
  {
    hide After, Possible, Grounded, Honest, AtMostOnce;
    var s0 := Initial(1, 0);
    Nothing(s0);
    GoodStart(s0);
    GoodStep(s0, [], NewRun);
    var e1 := [] + [NewRun];
    assert After(s0, e1) == State(1, [1], 0, [], {});
    GoodStep(s0, e1, Deliver(0, false));
    var e2 := e1 + [Deliver(0, false)];
    assert After(s0, e2) == State(1, [1], 1, [Execution(0, false)], {});
    GoodStep(s0, e2, Retry);
    var e3 := e2 + [Retry];
    assert After(s0, e3) == State(1, [1, 1], 1, [Execution(0, false)], {});
    GoodStep(s0, e3, Deliver(1, true));
    var e4 := e3 + [Deliver(1, true)];
    assert e4 == [NewRun, Deliver(0, false), Retry, Deliver(1, true)];
    CompoundsTakeEffectOnce(1, 0, e4);
  }

  lemma {:induction false} GoodStart(s: State)
    ensures Honest(s, []) && Grounded(s, [])
  {
  }

  lemma {:induction false} GoodStep(s: State, events: seq<Event>, e: Event)
    requires Honest(s, events) && Grounded(s, events) && (e.Retry? ==> Took(After(s, events)))
    requires e.Deliver? && !e.effect && e.request < |After(s, events).compounds| ==>
      Execution(e.request, false) in Apply(After(s, events), e).executed
    ensures Honest(s, events + [e]) && Grounded(s, events + [e])
    ensures After(s, events + [e]) == Apply(After(s, events), e)
  {
    hide Apply, Took;
    assert (events + [e])[..|events|] == events;
  }

  // --- A back-off that the client has seen ------------------------------------------------

  /** What the server said of a request since it was made still stands at the end. */
  lemma {:induction false} SaidStands(s: State, past: seq<Event>, more: seq<Event>, k: nat, j: nat)
    requires Outside(more) && Honest(s, past + more) && j < |After(s, past).compounds| && k < |more|
    ensures more[k] == SequenceDelay(j) ==> ToldToBackOff(After(s, past + more), j)
    ensures more[k] == Deliver(j, false) ==> Execution(j, false) in After(s, past + more).executed
    decreases |more|
  {
    hide Nth, WrapSucc, Outside;
    var init, last := more[..|more| - 1], more[|more| - 1];
    assert (past + more)[..|past + more| - 1] == past + init;
    OutsideParts(more);
    HonestBefore(s, past + init, [last]);
    assert past + init + [last] == past + more;
    OutsideCompounds(s, past, init);
    if k < |init| {
      SaidStands(s, past, init, k, j);
      StaysTold(After(s, past + init), last, j);
    }
  }

  lemma {:induction false} OutsideParts(more: seq<Event>)
    requires Outside(more) && more != []
    ensures Outside(more[..|more| - 1]) && !more[|more| - 1].NewRun? && !more[|more| - 1].Retry?
  {
  }

  /** The call's own reply said to back off: going round again is founded on what happened. */
  lemma {:induction false} BackoffHeard(p: Past, e: Event, fine: bool, answers: seq<Rpc.Answer>, k: nat, data: Bytes)
    requires p.answers <= answers && p.since <= |p.answers| <= k < |answers|
    requires e.NewRun? || e.Retry?
    requires Rpc.ResultOf(answers[k].reply, Opaque) == Ok(VBytes(data)) && Backoff(data)
    requires fine ==> RequestNumber(p.firstXid, answers[k].request) == |After(p.init, p.events).compounds|
    ensures var q := Further(p, e, fine, answers);
      MayRetry(q.(blind := q.blind || !SequenceTook(data)))
  {
    hide After, Honest, Rpc.ResultOf, Backoff, SequenceTook, RequestNumber, Outside, StandardReply;
    var q := Further(p, e, fine, answers);
    var recent := answers[|p.answers|..];
    var heard := AllHeard(p.firstXid, recent);
    HeardOutside(p.firstXid, recent);
    OutsideCompounds(p.init, p.events + [e], heard);
    RequestMade(p.init, p.events, e);
    var i := k - |p.answers|;
    assert recent[i] == answers[k] && heard[i] == Heard(p.firstXid, answers[k]);
    if fine && Standard(answers, p.since) {
      assert StandardReply(answers[k].reply);
      StandardIsNotBackoff(answers[k].reply, data);
      assert false;
    }
    if Trusted(q) {
      SaidStands(p.init, p.events + [e], heard, i, |After(p.init, p.events).compounds|);
    }
  }

  /** The same for a call that has just returned, from what is known of every call. */
  lemma {:induction false} GoRound(p: Past, e: Event, fine: bool, answers: seq<Rpc.Answer>, seed: u32, base: nat, calls: seq<Option<Bytes>>, sent: seq<Bytes>, message: Bytes, data: Bytes)
    requires p.answers <= answers && p.since <= |p.answers| && (e.NewRun? || e.Retry?) && Backoff(data)
    requires Rpc.Stamped(seed, calls, sent) && forall i :: 0 <= i < |p.answers| ==> p.answers[i].request in sent
    requires |calls| == base + |After(p.init, p.events).compounds| && p.firstXid == Nth(seed, base)
    requires |message| >= 4 && GetU32(message) == Nth(seed, |calls|)
    requires fine ==> |calls| < TWO32 && Rpc.Genuine(answers, message, Opaque, VBytes(data))
    ensures var q := Further(p, e, fine, answers);
      MayRetry(q.(blind := q.blind || !SequenceTook(data)))
  {
    hide After, Rpc.Stamped, Rpc.Genuine, Rpc.ResultOf, Backoff, SequenceTook, GetU32, Nth, RequestNumber, Honest, Standard, AllHeard;
    if fine {
      var k := OwnAnswer(seed, calls, sent, p.answers, answers, message, VBytes(data));
      NumberOf(seed, base, |After(p.init, p.events).compounds|, message);
      BackoffHeard(p, e, fine, answers, k, data);
    } else {
      HeardOutside(p.firstXid, answers[|p.answers|..]);
      OutsideCompounds(p.init, p.events + [e], AllHeard(p.firstXid, answers[|p.answers|..]));
      RequestMade(p.init, p.events, e);
    }
  }

  lemma {:induction false} RequestMade(s: State, events: seq<Event>, e: Event)
    requires e.NewRun? || e.Retry?
    ensures |After(s, events + [e]).compounds| == |After(s, events).compounds| + 1
    ensures After(s, events + [e]).compounds
         == After(s, events).compounds + [if e.NewRun? then Latest(After(s, events)) + 1 else Latest(After(s, events))]
  {
    assert (events + [e])[..|events|] == events;
  }

  lemma {:induction false} StandardIsNotBackoff(reply: Bytes, data: Bytes)
    requires StandardReply(reply) && Rpc.ResultOf(reply, Opaque) == Ok(VBytes(data))
    ensures !Backoff(data)
  {
    hide Decode, Backoff, CompoundResult, ParseReply;
    var body := ParseReply(reply).value.1.value;
    var status, count, results :| body == CompoundResult(status, [], count, results);
    StandardResultIsNotRetried(status, count, results);
  }

  /** The reply to a call's message was produced during the call. */
  lemma {:induction false} OwnAnswer(seed: u32, calls: seq<Option<Bytes>>, sent: seq<Bytes>, before: seq<Rpc.Answer>, answers: seq<Rpc.Answer>, message: Bytes, v: Value)
    returns (k: nat)
    requires Rpc.Stamped(seed, calls, sent) && |calls| < TWO32 && before <= answers
    requires forall i :: 0 <= i < |before| ==> before[i].request in sent
    requires |message| >= 4 && GetU32(message) == Nth(seed, |calls|) && Rpc.Genuine(answers, message, Opaque, v)
    ensures |before| <= k < |answers| && answers[k].request == message && Rpc.ResultOf(answers[k].reply, Opaque) == Ok(v)
  {
    hide Rpc.ResultOf, Nth, GetU32;
    k :| 0 <= k < |answers| && answers[k].request == message && Rpc.ResultOf(answers[k].reply, Opaque) == Ok(v);
    if k < |before| {
      assert before[k].request == message;
      var i :| 0 <= i < |calls| && calls[i] == Some(message) && GetU32(message) == Nth(seed, i);
      NthDistinct(seed, i, |calls|);
      assert false;
    }
  }

  lemma {:induction false} NumberOf(seed: u32, base: nat, j: nat, message: Bytes)
    requires j < TWO32 && |message| >= 4 && GetU32(message) == Nth(seed, base + j)
    ensures RequestNumber(Nth(seed, base), message) == j
  {
    hide GetU32;
    NthNth(seed, base, j);
    var x := Nth(seed, base);
    assert (x + j) % TWO32 == x + j || (x + j) % TWO32 == x + j - TWO32;
  }

  lemma {:induction false} NthNth(seed: u32, base: nat, j: nat)
    ensures Nth(seed, base + j) == Nth(Nth(seed, base), j)
  {
  }

  // --- The client -------------------------------------------------------------------------

  /** Whatever the network brings for the call is what comes of it. */
  ghost predicate Delivered(l: Rpc.Line, script: seq<Rpc.NetEvent>, seen: nat, xid: u32, outcome: CallOutcome) {
    forall data: Bytes :: Rpc.Brought(l, script, seen, xid, Opaque, VBytes(data)) ==> outcome == Ok(data)
  }

  lemma {:induction false} KeptIsDelivered(l: Rpc.Line, script: seq<Rpc.NetEvent>, seen: nat, xid: u32, reply: Result<Value, RpcError>)
    requires Rpc.Kept(l, script, seen, xid, Opaque, reply) && (reply.Ok? ==> HasType(Opaque, reply.value))
    ensures Delivered(l, script, seen, xid, if reply.Ok? then Ok(reply.value.bytes) else Err(reply.error))
  {
    hide Rpc.Brought;
  }

  /** Up to three copies of the call with this number and argument were sent, and nothing else. */
  ghost predicate Sends(seed: u32, call: nat, cred: Credentials, args: Bytes, before: seq<Bytes>, after: seq<Bytes>, message: Bytes) {
    match CallMessage(Nth(seed, call), PROGRAM, VERSION4, COMPOUND_PROC, cred, Ok(args))
    case Ok(m) => message == m && Rpc.Copies(before, after, message, Rpc.MAX_ATTEMPTS)
    case Err(_) => after == before
  }

  /** What `run` does with the outcome of a call: go round again, or return. */
  method Decide(minor: u32, reply: CallOutcome, last: bool) returns (again: bool, r: Result<Bytes, ProtoError>)
    ensures again == (Retried(reply) && !last)
    ensures r == FinalResult(minor, reply)
  {
    hide ParseCompound, SkipSequence;
    if reply.Err? {
      return false, Err(ProtoError.Rpc(reply.error));
    }
    var parsed := ParseCompound(reply.value);
    if parsed.Ok? {
      return false, if minor >= 1 then SkipSequence(parsed.value) else Ok(parsed.value);
    }
    again := parsed.error.Nfs4? && (parsed.error.status == NFS4ERR_GRACE || parsed.error.status == NFS4ERR_DELAY) && !last;
    r := Err(parsed.error);
  }

  class Nfs4 {
    const rpc: Rpc.RpcClient
    const minor: u32
    var session: Option<SessionId>
    var seqId: u32

    ghost const firstSeq: u32 // `csr_sequence`
    ghost const firstSlot: u32 // what the server's slot held then
    ghost const base: nat // calls made before the session
    ghost const since: nat // replies produced before the session
    ghost var events: seq<Event>
    ghost var tainted: bool // the stream's position was lost at some point
    ghost var blind: bool

    /** NFSv4.0: no session. */
    constructor V40(rpc: Rpc.RpcClient)
      requires rpc.Valid()
      ensures minor == 0 && session == None && Valid() && this.rpc == rpc
    {
      this.rpc := rpc;
      minor := 0;
      session := None;
      seqId := 0;
      firstSeq, firstSlot, base, since := 0, 0, 0, 0;
      events, tainted, blind := [], rpc.lost, false;
    }

    /** NFSv4.1, as `establish_session` leaves it: the first sequence id is `csr_sequence`. */
    constructor V41(rpc: Rpc.RpcClient, minor: u32, session: SessionId, csrSequence: u32, ghost slot: u32)
      requires minor > 0 && rpc.Valid()
      ensures this.minor == minor && this.session == Some(session) && Valid() && this.rpc == rpc
      ensures events == [] && firstSeq == csrSequence && firstSlot == slot && !blind && tainted == rpc.lost
    {
      hide Rpc.Stamped, Rpc.RpcClient.Framed, Nth, Backoff, SequenceTook;
      this.rpc := rpc;
      this.minor := minor;
      this.session := Some(session);
      seqId := csrSequence;
      firstSeq, firstSlot, base, since := csrSequence, slot, |rpc.calls|, |rpc.net.answers|;
      events, tainted, blind := [], rpc.lost, false;
      new;
      NthZero(csrSequence);
    }

    ghost function Now(): State
      reads this
    {
      After(Initial(firstSeq, firstSlot), events)
    }

    ghost function SoFar(): Past
      reads this, rpc, rpc.net
    {
      Past(Initial(firstSeq, firstSlot), Nth(rpc.seed, base), events,
           !tainted && |rpc.calls| <= TWO32, blind, rpc.net.answers, since)
    }

    ghost predicate Valid()
      reads this, rpc, rpc.net
    {
      && rpc.Valid()
      && (rpc.lost ==> tainted)
      && (minor > 0 && session.Some? ==> InSession())
    }

    /** The history is the calls made and the replies recorded, and the counter is in step. */
    ghost predicate InSession()
      reads this, rpc, rpc.net
    {
      && |rpc.calls| == base + |Now().compounds|
      && seqId == Nth(firstSeq, |Now().compounds|)
      && since <= |rpc.net.answers|
      && Arrivals(events) == AllHeard(Nth(rpc.seed, base), rpc.net.answers[since..])
      && Sound(SoFar())
    }

    /** `assemble`: a sequence id is spent for every message built. */
    method Assemble(count: u32, ops: Bytes) returns (r: Result<Bytes, ProtoError>)
      requires count < TWO32 - 1
      modifies this`seqId
      ensures minor == 0 ==> r == Ok(FinishBytes(0, count, ops)) && seqId == old(seqId)
      ensures minor > 0 && session.None? ==> r == Err(Protocol) && seqId == old(seqId)
      ensures minor > 0 && session.Some? ==>
        && r == Ok(AssembleBytes(minor, session.value, old(seqId), count, ops))
        && seqId == WrapSucc(old(seqId))
    {
      hide FinishBytes, SequenceBytes, WrapSucc;
      if minor == 0 {
        return Ok(FinishBytes(0, count, ops));
      }
      if session.None? {
        return Err(Protocol);
      }
      var seqid := seqId;
      seqId := WrapSucc(seqId);
      r := Ok(FinishBytes(minor, count + 1, SequenceBytes(session.value, seqid) + ops));
    }

    /** The `i`-th argument of a `run`: in a session it carries the `i`-th sequence id from `first`. */
    ghost function Argument(session: Option<SessionId>, first: u32, i: nat, count: u32, ops: Bytes): Bytes
      requires count < TWO32 - 1 && (minor > 0 ==> session.Some?)
    {
      if minor == 0 then FinishBytes(0, count, ops)
      else AssembleBytes(minor, session.value, Nth(first, i), count, ops)
    }

    /** The request for a call of `run` enters the history, and what was answered meanwhile. */
    ghost method Note(e: Event, before: Past, calls: nat)
      requires minor > 0 && session.Some? && rpc.Valid() && (rpc.lost ==> tainted)
      requires e == NewRun || (e == Retry && MayRetry(before))
      requires Sound(before) && before.init == Initial(firstSeq, firstSlot) && before.firstXid == Nth(rpc.seed, base) && before.since == since
      requires before.events == events && before.blind == blind && before.answers <= rpc.net.answers
      requires !tainted && |rpc.calls| <= TWO32 ==> before.fine
      requires calls == |Now().compounds| && |rpc.calls| == base + calls + 1 && seqId == Nth(firstSeq, calls + 1)
      requires since <= |before.answers| && Arrivals(events) == AllHeard(before.firstXid, before.answers[since..])
      modifies this`events
      ensures InSession() && SoFar() == Further(before, e, !tainted && |rpc.calls| <= TWO32, rpc.net.answers)
      ensures Now().compounds == old(Now().compounds) + [if e.NewRun? then Latest(old(Now())) + 1 else Latest(old(Now()))]
    {
      hide Sound, MayRetry, After, AllHeard, Arrivals, Outside, Nth, Rpc.Stamped;
      var answers := rpc.net.answers;
      var heard := AllHeard(before.firstXid, answers[|before.answers|..]);
      CallSound(before, e, !tainted && |rpc.calls| <= TWO32, answers);
      RequestMade(before.init, events, e);
      HeardOutside(before.firstXid, answers[|before.answers|..]);
      ArrivalsAdd(events, e, heard);
      HeardConcat(before.firstXid, before.answers, answers, since);
      events := events + [e] + heard;
    }

    /** One RPC call: what came of it, and that a result it returns is the server's own. */
    method Transmit(args: Bytes) returns (outcome: CallOutcome, ghost message: Bytes)
      requires rpc.Valid() && (rpc.lost ==> tainted)
      modifies this`tainted, rpc, rpc.net
      ensures rpc.Valid() && (rpc.lost ==> tainted) && (old(tainted) ==> tainted)
      ensures |rpc.calls| == |old(rpc.calls)| + 1 && rpc.cred == old(rpc.cred)
      ensures old(rpc.net.answers) <= rpc.net.answers
      ensures Sends(rpc.seed, |old(rpc.calls)|, rpc.cred, args, old(rpc.net.sent), rpc.net.sent, message)
      ensures outcome.Ok? ==> |message| >= 4 && GetU32(message) == Nth(rpc.seed, |old(rpc.calls)|)
      ensures outcome.Ok? && !tainted && |rpc.calls| <= TWO32 ==>
        Rpc.Genuine(rpc.net.answers, message, Opaque, VBytes(outcome.value))
      ensures !old(rpc.lost) && message != [] && (rpc.protocol.Tcp? ==> |message| < 0x8000_0000) ==>
        Delivered(old(rpc.net.View()).(sent := old(rpc.net.sent) + [message]), old(rpc.net.script), |old(rpc.handed)|,
                  Nth(rpc.seed, |old(rpc.calls)|), outcome)
    {
      hide Nth, Rpc.Stamped, Rpc.Genuine, Rpc.RpcClient.Framed, Rpc.Copies, CallMessage, GetU32, Delivered, Rpc.Kept;
      ghost var sent := rpc.net.sent;
      var reply;
      ghost var xid := Nth(rpc.seed, |rpc.calls|);
      ghost var line, script, seen, lost := rpc.net.View(), rpc.net.script, |rpc.handed|, rpc.lost;
      ghost var refused;
      reply, message, refused := rpc.Call(Opaque, PROGRAM, VERSION4, COMPOUND_PROC, Ok(args));
      if !lost && message != [] && (rpc.protocol.Tcp? ==> |message| < 0x8000_0000) {
        KeptIsDelivered(line.(sent := line.sent + [message]), script, seen, xid, reply);
      }
      Rpc.FewCopies(sent, rpc.net.sent, message, Rpc.MAX_ATTEMPTS);
      tainted := tainted || rpc.lost;
      outcome := if reply.Ok? then Ok(reply.value.bytes) else Err(reply.error);
    }

    /** One call of `run`: `again` says that it is not the first. */
    method Attempt(count: u32, ops: Bytes, ghost again: bool) returns (outcome: CallOutcome, ghost message: Bytes)
      requires Valid() && count < TWO32 - 1 && (minor > 0 ==> session.Some?)
      requires again && minor > 0 ==> MayRetry(SoFar())
      modifies this`seqId, this`events, this`tainted, rpc, rpc.net
      ensures Valid() && |rpc.calls| == |old(rpc.calls)| + 1 && rpc.cred == old(rpc.cred)
      ensures Sends(rpc.seed, |old(rpc.calls)|, rpc.cred, Argument(session, old(seqId), 0, count, ops),
                    old(rpc.net.sent), rpc.net.sent, message)
      ensures minor == 0 ==> seqId == old(seqId) && events == old(events)
      ensures minor > 0 ==> seqId == WrapSucc(old(seqId))
      ensures minor > 0 ==>
        Now().compounds == old(Now().compounds) + [if again then Latest(old(Now())) else Latest(old(Now())) + 1]
      ensures minor > 0 && Retried(outcome) ==>
        MayRetry(SoFar().(blind := blind || !SequenceTook(outcome.value)))
      ensures old(tainted) ==> tainted
      ensures !old(rpc.lost) && message != [] && (rpc.protocol.Tcp? ==> |message| < 0x8000_0000) ==>
        Delivered(old(rpc.net.View()).(sent := old(rpc.net.sent) + [message]), old(rpc.net.script), |old(rpc.handed)|,
                  Nth(rpc.seed, |old(rpc.calls)|), outcome)
    {
      hide Sound, MayRetry, After, AllHeard, Arrivals, Nth, WrapSucc, Rpc.Stamped, Rpc.Genuine, Rpc.RpcClient.Framed,
        Delivered, Sends, FinishBytes, AssembleBytes, Backoff, SequenceTook, GetU32;
      ghost var before := SoFar();
      ghost var made := |Now().compounds|;
      ghost var calls, sent := rpc.calls, rpc.net.sent;
      NthZero(seqId);
      NthNext(firstSeq, made);
      var assembled := Assemble(count, ops);
      outcome, message := Transmit(assembled.value);
      if minor > 0 {
        ghost var e := if again then Retry else NewRun;
        Note(e, before, made);
        if Retried(outcome) {
          GoRound(before, e, !tainted && |rpc.calls| <= TWO32, rpc.net.answers, rpc.seed, base, calls, sent, message, outcome.value);
        }
      }
    }

    ghost method TurnBlind(b: bool)
      requires Valid() && (blind ==> b)
      modifies this`blind
      ensures Valid() && blind == b && SoFar() == old(SoFar()).(blind := b)
    {
      hide After, Nth, Rpc.RpcClient.Framed, Rpc.Stamped, Arrivals, AllHeard, Possible, Grounded, Honest, Standard;
      blind := b;
    }

    /** The calls of one `run`: their messages, and that copies of these are all that was sent. */
    ghost predicate Logged(session: Option<SessionId>, first: u32, calls: nat, cred: Credentials, count: u32, ops: Bytes, messages: seq<Bytes>, before: seq<Bytes>, after: seq<Bytes>)
      requires count < TWO32 - 1 && (minor > 0 ==> session.Some?)
    {
      && before <= after && (forall i :: |before| <= i < |after| ==> after[i] in messages)
      && forall i :: 0 <= i < |messages| ==>
           match CallMessage(Nth(rpc.seed, calls + i), PROGRAM, VERSION4, COMPOUND_PROC, cred, Ok(Argument(session, first, i, count, ops)))
           case Ok(m) => messages[i] == m
           case Err(_) => true
    }

    lemma {:induction false} LogMore(session: Option<SessionId>, first: u32, now: u32, calls: nat, cred: Credentials, count: u32, ops: Bytes, messages: seq<Bytes>, before: seq<Bytes>, sent: seq<Bytes>, message: Bytes, after: seq<Bytes>)
      requires count < TWO32 - 1 && (minor > 0 ==> session.Some? && now == Nth(first, |messages|))
      requires Logged(session, first, calls, cred, count, ops, messages, before, sent)
      requires Sends(rpc.seed, calls + |messages|, cred, Argument(session, now, 0, count, ops), sent, after, message)
      ensures Logged(session, first, calls, cred, count, ops, messages + [message], before, after)
    {
      hide FinishBytes, AssembleBytes, Nth, CallMessage;
      NthZero(now);
      forall i | |before| <= i < |after|
        ensures after[i] in messages + [message]
      {
        if i < |sent| {
          assert after[i] == sent[i];
        }
      }
    }

    /** `n` calls into a `run` that began with these values. */
    ghost predicate Midway(first: u32, calls: nat, cred: Credentials, count: u32, ops: Bytes, made: seq<nat>, compound: nat, sent: seq<Bytes>, messages: seq<Bytes>)
      requires count < TWO32 - 1 && (minor > 0 ==> session.Some?)
      reads this, rpc, rpc.net
    {
      && Valid() && rpc.cred == cred
      && Logged(session, first, calls, cred, count, ops, messages, sent, rpc.net.sent)
      && |rpc.calls| == calls + |messages|
      && (minor > 0 ==> seqId == Nth(first, |messages|) && Now().compounds == made + Repeated(compound, |messages|))
    }

    lemma {:induction false} Outset(count: u32, ops: Bytes)
      requires Valid() && count < TWO32 - 1 && (minor > 0 ==> session.Some?)
      ensures Midway(seqId, |rpc.calls|, rpc.cred, count, ops, Now().compounds, Latest(Now()) + 1, rpc.net.sent, [])
    {
      hide After, InSession, Nth, Argument, Rpc.RpcClient.Valid;
      NthZero(seqId);
      assert Now().compounds + Repeated(Latest(Now()) + 1, 0) == Now().compounds;
    }

    /** One more call; unless it is the `last` allowed, `run` will go round again if told to. */
    method Round(count: u32, ops: Bytes, last: bool, ghost first: u32, ghost calls: nat, ghost cred: Credentials, ghost made: seq<nat>, ghost compound: nat, ghost sent: seq<Bytes>, ghost messages: seq<Bytes>)
      returns (reply: CallOutcome, ghost messages': seq<Bytes>)
      requires count < TWO32 - 1 && (minor > 0 ==> session.Some?)
      requires Midway(first, calls, cred, count, ops, made, compound, sent, messages)
      requires minor > 0 ==> if messages == [] then compound == Latest(Now()) + 1 else MayRetry(SoFar())
      modifies this`seqId, this`events, this`tainted, this`blind, rpc, rpc.net
      ensures Midway(first, calls, cred, count, ops, made, compound, sent, messages')
      ensures |messages'| == |messages| + 1 && messages <= messages'
      ensures (old(tainted) ==> tainted) && (old(blind) ==> blind)
      ensures minor > 0 && !last && Retried(reply) ==> MayRetry(SoFar())
      ensures !old(rpc.lost) && messages'[|messages|] != [] && (rpc.protocol.Tcp? ==> |messages'[|messages|]| < 0x8000_0000) ==>
        Delivered(old(rpc.net.View()).(sent := old(rpc.net.sent) + [messages'[|messages|]]), old(rpc.net.script), |old(rpc.handed)|,
                  Nth(rpc.seed, |old(rpc.calls)|), reply)
    {
      hide Delivered, Sound, MayRetry, After, InSession, Nth, Argument, Logged, Rpc.RpcClient.Valid, Backoff, SequenceTook, Repeated;
      NthNext(first, |messages|);
      if minor > 0 {
        LatestRepeated(Now(), made, compound, |messages|);
      }
      ghost var now, sofar := seqId, rpc.net.sent;
      ghost var message;
      reply, message := Attempt(count, ops, messages != []);
      LogMore(session, first, now, calls, cred, count, ops, messages, sent, sofar, message, rpc.net.sent);
      messages' := messages + [message];
      if !last && Retried(reply) {
        TurnBlind(blind || !SequenceTook(reply.value));
      }
    }

    /**
     * `run`. Between one and six calls, one more only after GRACE or DELAY; call `i` sends copies
     * of one message that carries, in a session, sequence id `i` from the current one; all of
     * them are requests for one new compound of the session's history; the last outcome counts.
     */
    method Run(count: u32, ops: Bytes)
      returns (r: Result<Bytes, ProtoError>, ghost outcomes: seq<CallOutcome>, ghost messages: seq<Bytes>)
      requires Valid() && count < TWO32 - 1
      modifies this`seqId, this`events, this`tainted, this`blind, rpc, rpc.net
      ensures (old(tainted) ==> tainted) && (old(blind) ==> blind)
      ensures minor > 0 && session.None? ==> r == Err(Protocol) && rpc.calls == old(rpc.calls) && rpc.net.sent == old(rpc.net.sent) && Valid()
      ensures minor == 0 || session.Some? ==>
        && 1 <= |outcomes| == |messages| <= 6
        && (forall i :: 0 <= i < |outcomes| - 1 ==> Retried(outcomes[i]))
        && (|outcomes| < 6 ==> !Retried(outcomes[|outcomes| - 1]))
        && r == FinalResult(minor, outcomes[|outcomes| - 1])
      ensures (minor == 0 || session.Some?) && !old(rpc.lost) && messages[0] != [] && (rpc.protocol.Tcp? ==> |messages[0]| < 0x8000_0000) ==>
        Delivered(old(rpc.net.View()).(sent := old(rpc.net.sent) + [messages[0]]), old(rpc.net.script), |old(rpc.handed)|,
                  Nth(rpc.seed, |old(rpc.calls)|), outcomes[0])
      ensures minor == 0 || session.Some? ==>
        Midway(old(seqId), |old(rpc.calls)|, old(rpc.cred), count, ops, old(Now().compounds), Latest(old(Now())) + 1, old(rpc.net.sent), messages)
    {
      hide Midway, MayRetry, Valid, Now, SoFar, Retried, FinalResult, Latest, Delivered, Nth;
      outcomes, messages := [], [];
      if minor > 0 && session.None? {
        return Err(Protocol), [], [];
      }
      ghost var first, calls, cred, sent := seqId, |rpc.calls|, rpc.cred, rpc.net.sent;
      ghost var line, script, seen := rpc.net.View(), rpc.net.script, |rpc.handed|;
      ghost var made, compound := Now().compounds, Latest(Now()) + 1;
      Outset(count, ops);
      var attempts := 0;
      while true
        invariant attempts == |outcomes| == |messages| < MAX_ATTEMPTS
        invariant Midway(first, calls, cred, count, ops, made, compound, sent, messages)
        invariant (old(tainted) ==> tainted) && (old(blind) ==> blind)
        invariant forall i :: 0 <= i < attempts ==> Retried(outcomes[i])
        invariant attempts == 0 ==>
          rpc.net.View() == line && rpc.net.script == script && |rpc.handed| == seen && |rpc.calls| == calls && rpc.lost == old(rpc.lost)
        invariant attempts > 0 && !old(rpc.lost) && messages[0] != [] && (rpc.protocol.Tcp? ==> |messages[0]| < 0x8000_0000) ==>
          Delivered(line.(sent := line.sent + [messages[0]]), script, seen, Nth(rpc.seed, calls), outcomes[0])
        invariant minor > 0 ==> if attempts == 0 then compound == Latest(Now()) + 1 else MayRetry(SoFar())
        decreases MAX_ATTEMPTS - attempts
      {
        attempts := attempts + 1;
        var reply;
        reply, messages := Round(count, ops, attempts == MAX_ATTEMPTS, first, calls, cred, made, compound, sent, messages);
        outcomes := outcomes + [reply];
        var again;
        again, r := Decide(minor, reply, attempts == MAX_ATTEMPTS);
        if !again {
          break;
        }
      }
    }

    /**
     * End to end: over every network, with fewer than 2^32 calls and up to the first
     * `RecordTooLarge`, no compound passed to `run` has taken effect twice on an honest server,
     * as long as every retry followed a reply in which SEQUENCE had taken the slot.
     */
    lemma {:induction false} EffectsHappenOnce()
      requires Valid() && minor > 0 && session.Some? && |rpc.calls| < TWO32 && !tainted
      requires Honest(Initial(firstSeq, firstSlot), events) && !blind
      ensures AtMostOnce(Now())
    {
      hide Honest, Possible, Grounded, AtMostOnce, After, Rpc.Stamped, Rpc.RpcClient.Framed;
      CompoundsTakeEffectOnce(firstSeq, firstSlot, events);
    }

    /** And on any server at all whose replies in the session have the standard form: none is retried. */
    lemma {:induction false} EffectsHappenOnceOnStandardServers()
      requires Valid() && minor > 0 && session.Some? && |rpc.calls| < TWO32 && !tainted
      requires Standard(rpc.net.answers, since)
      ensures AtMostOnce(Now())
    {
      hide Honest, Possible, Grounded, AtMostOnce, After, Rpc.Stamped, Rpc.RpcClient.Framed, Standard;
      CompoundsTakeEffectOnceWithoutRetries(firstSeq, firstSlot, events);
    }
  }

  function Repeated(c: nat, n: nat): seq<nat> {
    if n == 0 then [] else Repeated(c, n - 1) + [c]
  }

  lemma {:induction false} LatestRepeated(s: State, made: seq<nat>, c: nat, n: nat)
    requires s.compounds == made + Repeated(c, n)
    ensures n > 0 ==> Latest(s) == c
    ensures s.compounds + [c] == made + Repeated(c, n + 1)
  {
    Assoc(made, Repeated(c, n), [c]);
  }

  lemma {:induction false} ArrivalsAdd(events: seq<Event>, e: Event, more: seq<Event>)
    requires (e.NewRun? || e.Retry?) && Outside(more)
    ensures Arrivals(events + [e] + more) == Arrivals(events) + more
  {
    if more == [] {
      assert events + [e] + more == events + [e];
      assert (events + [e])[..|events|] == events;
    } else {
      var init := more[..|more| - 1];
      assert (events + [e] + more)[..|events| + |more|] == events + [e] + init;
      ArrivalsAdd(events, e, init);
      assert more == init + [more[|more| - 1]];
    }
  }

  lemma {:induction false} HeardConcat(firstXid: u32, before: seq<Rpc.Answer>, answers: seq<Rpc.Answer>, since: nat)
    requires before <= answers && since <= |before|
    ensures AllHeard(firstXid, answers[since..]) == AllHeard(firstXid, before[since..]) + AllHeard(firstXid, answers[|before|..])
  {
    hide Heard;
    assert answers[since..] == before[since..] + answers[|before|..];
  }

  /** The events that are replies of the server. */
  ghost function Arrivals(events: seq<Event>): seq<Event> {
    if events == [] then []
    else
      Arrivals(events[..|events| - 1]) +
      var e := events[|events| - 1]; if e.NewRun? || e.Retry? then [] else [e]
  }
}
