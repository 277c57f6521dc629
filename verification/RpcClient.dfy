/**
 * The synchronous RPC client: transaction ids, retransmission, reconnection and discarding of
 * stale replies, against a network that an arbitrary script drives.
 *
 * The main results are about `RpcClient.Call`. Own-reply safety: whatever the network does, a
 * call that succeeds decodes a reply that the server produced for that very call's message. And
 * completeness: if the network brings such a reply in time, the call returns what it says.
 */
module RpcClient {
  import opened Wire
  import opened Xdr
  import opened XdrTheorems
  import opened RpcMessage
  import Record

  const MAX: nat := Record.DEFAULT_MAX_RECORD
  const MAX_ATTEMPTS: nat := 3

  datatype Protocol = Tcp | Udp

  // --- The network ------------------------------------------------------------------------

  datatype Answer = Answer(request: Bytes, reply: Bytes)

  /** A server copies the transaction id of the call into the reply (section 9 of RFC 5531). */
  predicate Answers(request: Bytes, reply: Bytes) {
    |request| >= 4 && |reply| >= 4 && reply[..4] == request[..4]
  }

  ghost predicate IsReply(answers: seq<Answer>, reply: Bytes) {
    exists j :: 0 <= j < |answers| && answers[j].reply == reply
  }

  /** What may happen outside the client. Events that make no sense when reached are skipped. */
  datatype NetEvent =
    | ServerAnswers(request: nat, cut: Record.Fragments) // any message ever sent, any number of times
    | Deliver(n: nat) // stream: the next n bytes; datagrams: any reply again
    | Silence
    | Signal
    | Hangup
    | Fault

  datatype ReadOutcome = Data(data: Bytes) | Closed | TimedOut | Interrupted | Failed

  /** The network as a value: what was sent and produced, and how much of it has been read. */
  datatype Line = Line(
    stream: bool,
    sent: seq<Bytes>,
    answers: seq<Answer>,
    outgoing: seq<Record.Fragments>,
    delivered: nat,
    datagrams: seq<Bytes>)

  /** The event hands data to the reader. */
  predicate Yields(l: Line, e: NetEvent) {
    && e.Deliver?
    && if l.stream then 0 < e.n && l.delivered + e.n <= |Record.StreamOf(l.outgoing)| else e.n < |l.answers|
  }

  function DataOf(l: Line, e: NetEvent): Bytes
    requires Yields(l, e)
  {
    if l.stream then Record.StreamOf(l.outgoing)[l.delivered..l.delivered + e.n] else l.answers[e.n].reply
  }

  function Play(l: Line, e: NetEvent): Line {
    if e.ServerAnswers? && e.request < |l.sent| && Answers(l.sent[e.request], Join(e.cut)) then
      l.(answers := l.answers + [Answer(l.sent[e.request], Join(e.cut))], outgoing := l.outgoing + [e.cut])
    else if Yields(l, e) then
      if l.stream then l.(delivered := l.delivered + e.n) else l.(datagrams := l.datagrams + [DataOf(l, e)])
    else l
  }

  function PlayAll(l: Line, events: seq<NetEvent>): Line
    decreases |events|
  {
    if events == [] then l else PlayAll(Play(l, events[0]), events[1..])
  }

  /** One read from the socket: events happen until one of them matters to the reader. */
  function NetRead(l: Line, script: seq<NetEvent>): (ReadOutcome, Line, seq<NetEvent>)
    decreases |script|
  {
    if script == [] then (TimedOut, l, [])
    else
      var e, rest := script[0], script[1..];
      if e.Silence? then (TimedOut, l, rest)
      else if e.Signal? then (Interrupted, l, rest)
      else if e.Hangup? then (Closed, l, rest)
      else if e.Fault? then (Failed, l, rest)
      else if Yields(l, e) then (Data(DataOf(l, e)), Play(l, e), rest)
      else NetRead(Play(l, e), rest)
  }

  lemma {:induction false} NetReadStep(l: Line, script: seq<NetEvent>)
    ensures NetRead(l, script) ==
      if script == [] then (TimedOut, l, [])
      else
        var e, rest := script[0], script[1..];
        if e.Silence? then (TimedOut, l, rest)
        else if e.Signal? then (Interrupted, l, rest)
        else if e.Hangup? then (Closed, l, rest)
        else if e.Fault? then (Failed, l, rest)
        else if Yields(l, e) then (Data(DataOf(l, e)), Play(l, e), rest)
        else NetRead(Play(l, e), rest)
  {
    hide Play, Yields, DataOf;
  }

  class Network {
    const stream: bool
    var script: seq<NetEvent>
    var sent: seq<Bytes> // call messages handed to the transport, on any connection
    var answers: seq<Answer> // replies produced by the server, on any connection
    var outgoing: seq<Record.Fragments> // replies on the current connection, as the server cut them
    var delivered: nat // bytes of the current connection already read
    ghost var datagrams: seq<Bytes> // datagrams read

    ghost function View(): Line
      reads this
    {
      Line(stream, sent, answers, outgoing, delivered, datagrams)
    }

    constructor (stream: bool, script: seq<NetEvent>)
      ensures Valid() && sent == [] && Received() == [] && this.stream == stream && this.script == script
      ensures View() == Line(stream, [], [], [], 0, [])
    {
      this.stream := stream;
      this.script := script;
      sent := [];
      answers := [];
      outgoing := [];
      delivered := 0;
      datagrams := [];
    }

    ghost predicate Valid()
      reads this
    {
      && (forall j :: 0 <= j < |answers| ==> answers[j].request in sent && Answers(answers[j].request, answers[j].reply))
      && (forall i :: 0 <= i < |outgoing| ==> IsReply(answers, Join(outgoing[i])))
      && delivered <= |Record.StreamOf(outgoing)|
    }

    ghost function Received(): Bytes
      requires Valid()
      reads this
    {
      Record.StreamOf(outgoing)[..delivered]
    }

    /** A connection may be refused; a new one starts with nothing on it. */
    method Connect() returns (ok: bool)
      requires Valid()
      modifies this
      ensures Valid() && sent == old(sent) && answers == old(answers) && |script| <= |old(script)|
      ensures ok ==> Received() == [] && outgoing == [] && delivered == 0
      ensures !ok ==> outgoing == old(outgoing) && delivered == old(delivered)
      ensures datagrams == old(datagrams)
    {
      if |script| > 0 && script[0].Fault? {
        script := script[1..];
        ok := false;
      } else {
        outgoing := [];
        delivered := 0;
        ok := true;
      }
    }

    /** A message may arrive even though writing it reported an error. */
    method Send(message: Bytes) returns (ok: bool)
      requires Valid()
      modifies this
      ensures Valid() && sent == old(sent) + [message] && answers == old(answers) && |script| <= |old(script)|
      ensures View() == old(View()).(sent := old(sent) + [message])
      ensures ok <==> !(|old(script)| > 0 && old(script)[0].Fault?)
      ensures script == if ok then old(script) else old(script)[1..]
    {
      sent := sent + [message];
      ok := !(|script| > 0 && script[0].Fault?);
      if !ok {
        script := script[1..];
      }
    }

    method Read() returns (r: ReadOutcome)
      requires Valid()
      modifies this
      ensures (r, View(), script) == NetRead(old(View()), old(script))
      ensures Valid() && sent == old(sent)
      ensures old(answers) <= answers && old(outgoing) <= outgoing
      ensures r.TimedOut? || |script| < |old(script)|
      ensures |script| <= |old(script)|
      ensures stream ==> Received() == old(Received()) + if r.Data? then r.data else []
      ensures datagrams == old(datagrams) + if r.Data? && !stream then [r.data] else []
      ensures !stream && r.Data? ==> IsReply(answers, r.data)
    {
      hide Join, Record.StreamOf, NetRead, IsReply;
      assert Received() + [] == Received();
      while |script| > 0
        invariant NetRead(old(View()), old(script)) == NetRead(View(), script)
        invariant Valid() && sent == old(sent)
        invariant old(answers) <= answers && old(outgoing) <= outgoing
        invariant |script| <= |old(script)| && delivered == old(delivered) && datagrams == old(datagrams)
        invariant Received() == old(Received())
        decreases |script|
      {
        NetReadStep(View(), script);
        var e := script[0];
        script := script[1..];
        match e
        case ServerAnswers(i, cut) =>
          if i < |sent| && Answers(sent[i], Join(cut)) {
            Record.StreamSnoc(outgoing, cut);
            ghost var before := answers;
            answers := answers + [Answer(sent[i], Join(cut))];
            RepliesStay(before, answers, outgoing);
            LatestReply(before, answers[|before|]);
            outgoing := outgoing + [cut];
          }
        case Deliver(n) =>
          if stream {
            var wire := Record.StreamOf(outgoing);
            if 0 < n && delivered + n <= |wire| {
              r := Data(wire[delivered..delivered + n]);
              assert wire[..delivered + n] == wire[..delivered] + wire[delivered..delivered + n];
              delivered := delivered + n;
              return;
            }
          } else if n < |answers| {
            datagrams := datagrams + [answers[n].reply];
            AnyReply(answers, n);
            return Data(answers[n].reply);
          }
        case Silence => return TimedOut;
        case Signal => return Interrupted;
        case Hangup => return Closed;
        case Fault => return Failed;
      }
      NetReadStep(View(), script);
      r := TimedOut;
    }
  }

  lemma {:induction false} LatestReply(before: seq<Answer>, a: Answer)
    ensures IsReply(before + [a], a.reply)
  {
    assert (before + [a])[|before|] == a;
  }

  lemma {:induction false} AnyReply(answers: seq<Answer>, n: nat)
    requires n < |answers|
    ensures IsReply(answers, answers[n].reply)
  {
  }

  lemma {:induction false} RepliesStay(old': seq<Answer>, new': seq<Answer>, records: seq<Record.Fragments>)
    requires old' <= new'
    requires forall i :: 0 <= i < |records| ==> IsReply(old', Join(records[i]))
    ensures forall i :: 0 <= i < |records| ==> IsReply(new', Join(records[i]))
  {
    forall i | 0 <= i < |records|
      ensures IsReply(new', Join(records[i]))
    {
      ReplyStays(old', new', Join(records[i]));
    }
  }

  lemma {:induction false} ReplyStays(old': seq<Answer>, new': seq<Answer>, reply: Bytes)
    requires old' <= new' && IsReply(old', reply)
    ensures IsReply(new', reply)
  {
    var j :| 0 <= j < |old'| && old'[j].reply == reply;
    assert new'[j].reply == reply;
  }

  // --- Transaction ids --------------------------------------------------------------------

  /** Every message on the network is the message of some call, stamped with that call's id. */
  ghost predicate Stamped(seed: u32, calls: seq<Option<Bytes>>, sent: seq<Bytes>) {
    forall m :: m in sent ==>
      |m| >= 4 && exists i :: 0 <= i < |calls| && calls[i] == Some(m) && GetU32(m) == Nth(seed, i)
  }

  /**
   * The heart of own-reply safety: a reply that carries the id of the latest call answers the
   * latest call's message, however many earlier replies are still about.
   */
  lemma {:induction false} OwnReply(seed: u32, calls: seq<Option<Bytes>>, sent: seq<Bytes>, answer: Answer, message: Bytes)
    requires Stamped(seed, calls, sent) && answer.request in sent
    requires Answers(answer.request, answer.reply)
    requires 0 < |calls| <= TWO32 && calls[|calls| - 1] == Some(message)
    requires GetU32(answer.reply) == Nth(seed, |calls| - 1)
    ensures answer.request == message
  {
    var req := answer.request;
    assert GetU32(req) == GetU32(answer.reply) by {
      assert forall k :: 0 <= k < 4 ==> req[k] == req[..4][k] && answer.reply[k] == answer.reply[..4][k];
    }
    var i :| 0 <= i < |calls| && calls[i] == Some(req) && GetU32(req) == Nth(seed, i);
    NthDistinct(seed, i, |calls| - 1);
  }

  /** `v` is the decoded result of a reply the server produced for `message`. */
  ghost predicate Genuine(answers: seq<Answer>, message: Bytes, s: Schema, v: Value) {
    exists j :: 0 <= j < |answers| && answers[j].request == message && ResultOf(answers[j].reply, s) == Ok(v)
  }

  /** What a caller of a procedure with results `s` makes of a whole reply. */
  function ResultOf(reply: Bytes, s: Schema): Result<Value, RpcError> {
    var (_, outcome) :- ParseReply(reply);
    var body :- outcome;
    match Decode(s, body)
    case Ok((v, _)) => Ok(v)
    case Err(e) => Err(BadXdr(e))
  }

  function WithXid(m: Result<Bytes, RpcError>, xid: u32): Result<(u32, Bytes), RpcError> {
    if m.Ok? then Ok((xid, m.value)) else Err(m.error)
  }

  /** The records a receiver finds in the stream are the server's replies, in order. */
  lemma {:induction false} StreamRecords(max: nat, records: seq<Record.Fragments>)
    ensures var p := Record.Parse(max, [], Record.StreamOf(records));
      && p.records <= Record.Whole(records)
      && (p.ending == Record.Oversized ==> exists i :: 0 <= i < |records| && |Join(records[i])| > max)
  {
    if records != [] {
      var tail := records[1..];
      if |Join(records[0])| > max {
        Record.OversizedFragments(max, [], records[0], Record.StreamOf(tail));
        assert exists i :: 0 <= i < |records| && |Join(records[i])| > max;
      } else {
        Record.ParseFragments(max, [], records[0], Record.StreamOf(tail));
        assert [] + Join(records[0]) == Join(records[0]);
        StreamRecords(max, tail);
        assert Record.Whole(records) == [Join(records[0])] + Record.Whole(tail);
        if i :| 0 <= i < |tail| && |Join(tail[i])| > max {
          assert records[i + 1] == tail[i];
        }
      }
    }
  }

  ghost predicate SomeOversized(records: seq<Record.Fragments>) {
    exists i :: 0 <= i < |records| && |Join(records[i])| > MAX
  }

  lemma {:induction false} OversizedStays(old': seq<Record.Fragments>, new': seq<Record.Fragments>)
    requires old' <= new' && SomeOversized(old')
    ensures SomeOversized(new')
  {
    var i :| 0 <= i < |old'| && |Join(old'[i])| > MAX;
    assert new'[i] == old'[i];
  }

  // --- Receiving, as a function of the network --------------------------------------------

  /** The bytes read so far on a stream. */
  function Got(l: Line): Bytes {
    var wire := Record.StreamOf(l.outgoing);
    wire[..if l.delivered <= |wire| then l.delivered else |wire|]
  }

  /** Every reply that has arrived whole, and whether a record on the stream is too large. */
  function Arrived(l: Line): seq<Bytes> {
    if l.stream then Record.Parse(MAX, [], Got(l)).records else l.datagrams
  }

  predicate TooMuch(l: Line) {
    l.stream && Record.Parse(MAX, [], Got(l)).ending == Record.Oversized
  }

  /** `recv_message` with nothing queued: reads until more than `seen` replies have arrived. */
  function Receive(l: Line, script: seq<NetEvent>, seen: nat): (r: (Result<Bytes, RpcError>, Line, seq<NetEvent>))
    ensures |r.2| <= |script| && (r.0.Ok? ==> |r.2| < |script|)
    decreases |script|
  {
    var (outcome, l', rest) := NetRead(l, script);
    NetReadShrinks(l, script);
    match outcome
    case TimedOut => (Err(Timeout), l', rest)
    case Closed => (Err(ConnectionClosed), l', rest)
    case Failed => (Err(Io), l', rest)
    case Interrupted => Receive(l', rest, seen)
    case Data(_) =>
      if TooMuch(l') then (Err(RpcError.RecordTooLarge), l', rest)
      else if seen < |Arrived(l')| then (Ok(Arrived(l')[seen]), l', rest)
      else Receive(l', rest, seen)
  }

  /** `recv_message`: the next reply that has arrived, or that does. */
  function Obtain(l: Line, script: seq<NetEvent>, seen: nat): (Result<Bytes, RpcError>, Line, seq<NetEvent>) {
    if seen < |Arrived(l)| then (Ok(Arrived(l)[seen]), l, script) else Receive(l, script, seen)
  }

  lemma {:induction false} NetReadShrinks(l: Line, script: seq<NetEvent>)
    ensures var (outcome, _, rest) := NetRead(l, script);
      |rest| <= |script| && (!outcome.TimedOut? ==> |rest| < |script|)
    decreases |script|
  {
    hide Play, Yields, DataOf;
    if script != [] {
      NetReadShrinks(Play(l, script[0]), script[1..]);
    }
  }

  /** One unfolding. */
  lemma {:induction false} ReceiveStep(l: Line, script: seq<NetEvent>, seen: nat)
    ensures var (outcome, l', rest) := NetRead(l, script);
      Receive(l, script, seen) ==
        match outcome
        case TimedOut => (Err(Timeout), l', rest)
        case Closed => (Err(ConnectionClosed), l', rest)
        case Failed => (Err(Io), l', rest)
        case Interrupted => Receive(l', rest, seen)
        case Data(_) =>
          if TooMuch(l') then (Err(RpcError.RecordTooLarge), l', rest)
          else if seen < |Arrived(l')| then (Ok(Arrived(l')[seen]), l', rest)
          else Receive(l', rest, seen)
  {
    hide NetRead, Arrived, TooMuch;
  }

  /** Only data makes anything arrive. */
  lemma {:induction false} SameArrivals(l: Line, l': Line, outcome: ReadOutcome)
    requires l'.stream == l.stream && l.delivered <= |Record.StreamOf(l.outgoing)| && l'.delivered <= |Record.StreamOf(l'.outgoing)|
    requires l.stream ==> Got(l') == Got(l) + if outcome.Data? then outcome.data else []
    requires !l.stream ==> l'.datagrams == l.datagrams + if outcome.Data? then [outcome.data] else []
    ensures !outcome.Data? ==> Arrived(l') == Arrived(l) && TooMuch(l') == TooMuch(l)
    ensures outcome.Data? && !l.stream ==> Arrived(l') == Arrived(l) + [outcome.data]
    ensures !l.stream ==> !TooMuch(l')
  {
    hide Record.Parse;
    assert Got(l) + [] == Got(l);
    assert l.datagrams + [] == l.datagrams;
  }

  lemma {:induction false} ArrivedSent(l: Line, sent: seq<Bytes>)
    ensures Arrived(l.(sent := sent)) == Arrived(l) && TooMuch(l.(sent := sent)) == TooMuch(l)
  {
    hide Record.Parse;
  }

  lemma {:induction false} TakeFirst(handed: seq<Bytes>, pending: seq<Bytes>)
    requires pending != []
    ensures handed + [pending[0]] + pending[1..] == handed + pending
    ensures (handed + pending)[|handed|] == pending[0]
  {
  }

  /** A reply to another call, which is discarded. */
  predicate Foreign(reply: Bytes, xid: u32) {
    ParseReply(reply).Ok? && ParseReply(reply).value.0 != xid
  }

  /** What waiting for a reply comes to, `seen` of those arrived having been looked at. */
  function Await(l: Line, script: seq<NetEvent>, seen: nat, xid: u32, s: Schema): Result<Value, RpcError>
    decreases |script|, if seen < |Arrived(l)| then |Arrived(l)| - seen else 0
  {
    var (taken, l', rest) := Obtain(l, script, seen);
    if taken.Err? then Err(taken.error)
    else if Foreign(taken.value, xid) then Await(l', rest, seen + 1, xid, s)
    else ResultOf(taken.value, s)
  }

  lemma {:induction false} AwaitStep(l: Line, script: seq<NetEvent>, seen: nat, xid: u32, s: Schema)
    ensures var (taken, l', rest) := Obtain(l, script, seen);
      Await(l, script, seen, xid, s) ==
        if taken.Err? then Err(taken.error)
        else if Foreign(taken.value, xid) then Await(l', rest, seen + 1, xid, s)
        else ResultOf(taken.value, s)
  {
    hide Arrived, Receive, Foreign, ResultOf;
  }

  /** One attempt: the message is too long to frame, cannot be written, or is waited for. */
  function Attempted(l: Line, script: seq<NetEvent>, seen: nat, message: Bytes, xid: u32, s: Schema): Result<Value, RpcError> {
    if l.stream && Record.Frame(message).Err? then Err(RpcError.RecordTooLarge)
    else if script != [] && script[0].Fault? then Err(Io)
    else Await(l.(sent := l.sent + [message]), script, seen, xid, s)
  }

  // --- Completeness -----------------------------------------------------------------------

  predicate Harmless(e: NetEvent) {
    e.ServerAnswers? || e.Deliver? || e.Signal?
  }

  ghost predicate AllHarmless(events: seq<NetEvent>) {
    forall i :: 0 <= i < |events| ==> Harmless(events[i])
  }

  ghost predicate Sane(l: Line) {
    l.delivered <= |Record.StreamOf(l.outgoing)|
  }

  lemma {:induction false} PlayArrived(l: Line, e: NetEvent)
    requires Sane(l)
    ensures var l' := Play(l, e);
      && Sane(l') && Arrived(l) <= Arrived(l') && (TooMuch(l) ==> TooMuch(l'))
      && (!Yields(l, e) ==> Arrived(l') == Arrived(l) && TooMuch(l') == TooMuch(l))
  {
    hide Record.Parse, Record.StreamOf, Join;
    var l' := Play(l, e);
    if e.ServerAnswers? {
      Record.StreamSnoc(l.outgoing, e.cut);
      assert Got(l') == Got(l);
    } else if Yields(l, e) && l.stream {
      assert Got(l') == Got(l) + DataOf(l, e);
      Record.ParseMore(MAX, [], Got(l), DataOf(l, e));
    }
  }

  lemma {:induction false} PlayAllArrived(l: Line, events: seq<NetEvent>)
    requires Sane(l)
    ensures var l' := PlayAll(l, events); Sane(l') && Arrived(l) <= Arrived(l') && (TooMuch(l) ==> TooMuch(l'))
    decreases |events|
  {
    hide Play, Arrived, TooMuch, Sane;
    if events != [] {
      PlayArrived(l, events[0]);
      PlayAllArrived(Play(l, events[0]), events[1..]);
    }
  }

  /** While everything arrived has been looked at, a harmless event is just waited through. */
  lemma {:induction false} AwaitEvent(l: Line, e: NetEvent, rest: seq<NetEvent>, seen: nat, xid: u32, s: Schema)
    requires Sane(l) && Harmless(e) && seen == |Arrived(l)| && !TooMuch(Play(l, e))
    ensures Await(l, [e] + rest, seen, xid, s) == Await(Play(l, e), rest, seen, xid, s)
  {
    hide Arrived, TooMuch, Sane, ResultOf, Foreign, Play, Receive, Await;
    var script, l' := [e] + rest, Play(l, e);
    assert script[1..] == rest;
    PlayArrived(l, e);
    ReceiveStep(l, script, seen);
    if !Yields(l, e) {
      ReceiveStep(l', rest, seen);
    }
    if e.Signal? {
      assert l' == l by { SignalPlays(l, e); }
    }
    AwaitStep(l, script, seen, xid, s);
    AwaitStep(l', rest, seen, xid, s);
  }

  lemma {:induction false} SignalPlays(l: Line, e: NetEvent)
    requires e.Signal?
    ensures Play(l, e) == l
  {
  }

  /** Among the replies not looked at there is one that is not another call's, and all such yield `v`. */
  ghost predicate Holds(arrived: seq<Bytes>, seen: nat, xid: u32, s: Schema, v: Value) {
    && (exists i :: seen <= i < |arrived| && !Foreign(arrived[i], xid))
    && (forall i :: seen <= i < |arrived| ==> Foreign(arrived[i], xid) || ResultOf(arrived[i], s) == Ok(v))
  }

  lemma {:induction false} AwaitCompletes(l: Line, p: seq<NetEvent>, q: seq<NetEvent>, seen: nat, xid: u32, s: Schema, v: Value)
    requires Sane(l) && AllHarmless(p) && seen <= |Arrived(l)|
    requires !TooMuch(PlayAll(l, p)) && Holds(Arrived(PlayAll(l, p)), seen, xid, s, v)
    ensures Await(l, p + q, seen, xid, s) == Ok(v)
    decreases |p|, |Arrived(l)| - seen
  {
    hide Arrived, TooMuch, Sane, ResultOf, Foreign, Play, Receive, Await;
    PlayAllArrived(l, p);
    var arrived := Arrived(PlayAll(l, p));
    if seen < |Arrived(l)| {
      AwaitStep(l, p + q, seen, xid, s);
      assert arrived[seen] == Arrived(l)[seen];
      if Foreign(arrived[seen], xid) {
        AwaitCompletes(l, p, q, seen + 1, xid, s, v);
      }
    } else {
      assert p != [];
      var l' := Play(l, p[0]);
      assert p + q == [p[0]] + (p[1..] + q);
      PlayArrived(l, p[0]);
      PlayAllArrived(l', p[1..]);
      AwaitEvent(l, p[0], p[1..] + q, seen, xid, s);
      AwaitCompletes(l', p[1..], q, seen, xid, s, v);
    }
  }

  /**
   * The network brings what the call waits for: before any fault, silence or hang-up, and with no
   * record too large so far, a reply arrives that is not another call's, and all such yield `v`.
   */
  ghost predicate Brought(l: Line, script: seq<NetEvent>, seen: nat, xid: u32, s: Schema, v: Value) {
    && (script != [] ==> !script[0].Fault?)
    && exists p :: p <= script && AllHarmless(p) && !TooMuch(PlayAll(l, p)) && Holds(Arrived(PlayAll(l, p)), seen, xid, s, v)
  }

  lemma {:induction false} AttemptCompletes(l: Line, script: seq<NetEvent>, seen: nat, message: Bytes, xid: u32, s: Schema, v: Value)
    requires Sane(l) && seen <= |Arrived(l)| && (l.stream ==> |message| < 0x8000_0000)
    requires Brought(l.(sent := l.sent + [message]), script, seen, xid, s, v)
    ensures Attempted(l, script, seen, message, xid, s) == Ok(v)
  {
    hide Arrived, TooMuch, Await, Holds;
    var l' := l.(sent := l.sent + [message]);
    ArrivedSent(l, l'.sent);
    var p :| p <= script && AllHarmless(p) && !TooMuch(PlayAll(l', p)) && Holds(Arrived(PlayAll(l', p)), seen, xid, s, v);
    assert script == p + script[|p|..];
    AwaitCompletes(l', p, script[|p|..], seen, xid, s, v);
  }

  /**
   * For instance: on a line where everything sent so far has been read, the server answers the
   * call's message with a success, cut in any way, and the reply is delivered.
   */
  lemma {:induction false} AnswerIsBrought(l: Line, cut: Record.Fragments, rest: seq<NetEvent>, xid: u32, flavor: u32, verf: Bytes, results: Bytes, s: Schema, v: Value)
    requires |l.sent| > 0 && |l.sent[|l.sent| - 1]| >= 4 && l.sent[|l.sent| - 1][..4] == PutU32(xid)
    requires |verf| <= 400 && Join(cut) == ServerReply(xid, Accepted(flavor, verf, Success(results)))
    requires Decode(s, results).Ok? && Decode(s, results).value.0 == v
    requires l.stream ==> l.delivered == |Record.StreamOf(l.outgoing)|
    requires l.stream ==> |Join(cut)| <= MAX && forall i :: 0 <= i < |l.outgoing| ==> |Join(l.outgoing[i])| <= MAX
    ensures var n := if l.stream then |Record.OnWire(cut)| else |l.answers|;
      Brought(l, [ServerAnswers(|l.sent| - 1, cut), Deliver(n)] + rest, |Arrived(l)|, xid, s, v)
  {
    hide Join, Record.StreamOf, Record.OnWire, Record.Parse, Record.Whole, ServerReply, PutU32, GetU32, Decode, Play, Arrived, TooMuch;
    var reply := Join(cut);
    var n := if l.stream then |Record.OnWire(cut)| else |l.answers|;
    var first, second := ServerAnswers(|l.sent| - 1, cut), Deliver(n);
    ReplyParsesBack(xid, Accepted(flavor, verf, Success(results)));
    ReplyStarts(xid, Accepted(flavor, verf, Success(results)));
    TwoEvents(l, first, second);
    var l2 := Play(Play(l, first), second);
    AnswerArrives(l, cut);
    assert !Foreign(reply, xid) && ResultOf(reply, s) == Ok(v);
    assert Arrived(l2)[|Arrived(l)|] == reply;
    var p := [first, second];
    assert p <= p + rest;
  }

  lemma {:induction false} AnswerArrives(l: Line, cut: Record.Fragments)
    requires |l.sent| > 0 && Answers(l.sent[|l.sent| - 1], Join(cut))
    requires l.stream ==> l.delivered == |Record.StreamOf(l.outgoing)|
    requires l.stream ==> |Join(cut)| <= MAX && forall i :: 0 <= i < |l.outgoing| ==> |Join(l.outgoing[i])| <= MAX
    ensures var n := if l.stream then |Record.OnWire(cut)| else |l.answers|;
      var l2 := Play(Play(l, ServerAnswers(|l.sent| - 1, cut)), Deliver(n));
      Arrived(l2) == Arrived(l) + [Join(cut)] && !TooMuch(l2)
  {
    hide Join, Record.StreamOf, Record.OnWire, Record.Parse;
    Record.StreamSnoc(l.outgoing, cut);
    Record.WireNotEmpty(cut);
    if l.stream {
      var n := |Record.OnWire(cut)|;
      var l2 := Play(Play(l, ServerAnswers(|l.sent| - 1, cut)), Deliver(n));
      assert l2.outgoing == l.outgoing + [cut] && l2.delivered == |Record.StreamOf(l2.outgoing)|;
      AllThere(l);
      AllThere(l2);
      assert Record.Whole(l2.outgoing) == Record.Whole(l.outgoing) + [Join(cut)];
    }
  }

  lemma {:induction false} TwoEvents(l: Line, a: NetEvent, b: NetEvent)
    ensures PlayAll(l, [a, b]) == Play(Play(l, a), b)
  {
    hide Play;
    assert [a, b][1..] == [b] && [b][1..] == [];
    assert PlayAll(Play(l, a), [b]) == Play(Play(l, a), b);
  }

  /** When a stream has been read to the end, every record on it has arrived. */
  lemma {:induction false} AllThere(l: Line)
    requires l.stream && l.delivered == |Record.StreamOf(l.outgoing)|
    requires forall i :: 0 <= i < |l.outgoing| ==> |Join(l.outgoing[i])| <= MAX
    ensures Arrived(l) == Record.Whole(l.outgoing) && !TooMuch(l)
  {
    hide Join, Record.StreamOf, Record.Parse;
    Record.FragmentationRoundTrip(MAX, l.outgoing, []);
    Record.ParseNothing(MAX);
    var wire := Record.StreamOf(l.outgoing);
    assert Got(l) == wire && wire + [] == wire;
    assert Record.Whole(l.outgoing) + [] == Record.Whole(l.outgoing);
  }

  // --- The client -------------------------------------------------------------------------

  /** A timeout over UDP; a broken connection, if it is to be reopened. */
  predicate Retryable(protocol: Protocol, autoReconnect: bool, err: RpcError) {
    (err.Timeout? && protocol.Udp?) || ((err.Io? || err.ConnectionClosed?) && autoReconnect)
  }

  /** Whatever the network brings is what is returned. */
  ghost predicate Kept(l: Line, script: seq<NetEvent>, seen: nat, xid: u32, s: Schema, r: Result<Value, RpcError>) {
    forall v :: Brought(l, script, seen, xid, s, v) ==> r == Ok(v)
  }

  lemma {:induction false} FirstAttemptKeeps(l: Line, script: seq<NetEvent>, seen: nat, message: Bytes, xid: u32, s: Schema)
    requires Sane(l) && seen <= |Arrived(l)| && (l.stream ==> |message| < 0x8000_0000)
    ensures Kept(l.(sent := l.sent + [message]), script, seen, xid, s, Attempted(l, script, seen, message, xid, s))
  {
    hide Brought, Attempted, Arrived, Sane;
    forall v | Brought(l.(sent := l.sent + [message]), script, seen, xid, s, v)
      ensures Attempted(l, script, seen, message, xid, s) == Ok(v)
    {
      AttemptCompletes(l, script, seen, message, xid, s, v);
    }
  }

  /** After a failure there is nothing left to keep. */
  lemma {:induction false} NothingBrought(l: Line, script: seq<NetEvent>, seen: nat, xid: u32, s: Schema, r: Result<Value, RpcError>, r': Result<Value, RpcError>)
    requires Kept(l, script, seen, xid, s, r) && r.Err?
    ensures Kept(l, script, seen, xid, s, r')
  {
    hide Brought;
  }

  /** What to make of one message: nothing if it answers another call, else its outcome. */
  method Judge(s: Schema, xid: u32, reply: Bytes) returns (r: Option<Result<Value, RpcError>>)
    ensures r.None? <==> Foreign(reply, xid)
    ensures r.Some? ==> r.value == ResultOf(reply, s)
    ensures r.Some? && r.value.Ok? ==> |reply| >= 4 && GetU32(reply) == xid && HasType(s, r.value.value)
  {
    hide ParseReply, Decode, HasType, GetU32;
    var parsed := ReadReply(reply);
    if parsed.Err? {
      return Some(Err(parsed.error));
    }
    if parsed.value.0 != xid {
      return None;
    }
    if parsed.value.1.Err? {
      return Some(Err(parsed.value.1.error));
    }
    var body := parsed.value.1.value;
    var decoded := Decode(s, body);
    if decoded.Err? {
      return Some(Err(BadXdr(decoded.error)));
    }
    Exactness(s, body, decoded.value.0, decoded.value.1);
    r := Some(Ok(decoded.value.0));
  }

  class RpcClient {
    const net: Network
    const protocol: Protocol
    var cred: Credentials
    var autoReconnect: bool
    var reassembler: Record.State
    var pending: seq<Bytes>
    var nextXid: u32

    ghost const seed: u32
    ghost var calls: seq<Option<Bytes>> // the message of every call so far, if it could be built
    ghost var events: seq<Record.Event> // what this connection's reassembler has been through
    ghost var lost: bool // a record was too large: the stream position is no longer a boundary
    ghost var handed: seq<Bytes> // replies that `recv_message` has returned on this connection

    constructor (net: Network, protocol: Protocol, cred: Credentials, seed: u32)
      requires net.Valid() && net.sent == [] && net.Received() == [] && net.datagrams == [] && net.stream == protocol.Tcp?
      ensures Valid() && this.net == net && calls == [] && !lost
    {
      this.net := net;
      this.protocol := protocol;
      this.cred := cred;
      autoReconnect := true;
      reassembler := Record.FRESH;
      pending := [];
      nextXid := seed;
      this.seed := seed;
      calls := [];
      events := [];
      lost := false;
      handed := [];
      new;
      Record.ParseNothing(MAX);
    }

    ghost predicate Valid()
      reads this, net
    {
      && net.Valid()
      && net.stream == protocol.Tcp?
      && nextXid == Nth(seed, |calls|)
      && Stamped(seed, calls, net.sent)
      && Framed()
    }

    /** Reassembly is in step with the connection, and only server replies are queued. */
    ghost predicate Framed()
      requires net.Valid()
      reads this, net
    {
      && (lost ==> SomeOversized(net.outgoing))
      && (!lost ==>
            && (forall p :: p in pending ==> IsReply(net.answers, p))
            && Tracked(events, reassembler)
            && handed + pending == Arrived(net.View()) && !TooMuch(net.View())
            && (net.stream ==> Record.Fed(events) == net.Received() && Record.Run(MAX, events).emitted == handed + pending)
            && (!net.stream ==> pending == []))
    }

    ghost predicate Tracked(events: seq<Record.Event>, st: Record.State) {
      !Record.Run(MAX, events).failed && Record.Run(MAX, events).state == st
    }

    method IsRetryable(err: RpcError) returns (b: bool)
      ensures b == Retryable(protocol, autoReconnect, err)
    {
      match err
      case Timeout => b := protocol.Udp?;
      case Io => b := autoReconnect;
      case ConnectionClosed => b := autoReconnect;
      case _ => b := false;
    }

    /** `build_call`: the id is spent even when the message cannot be encoded. */
    method BuildCall(prog: u32, vers: u32, procedure: u32, args: Encoded)
      returns (r: Result<(u32, Bytes), RpcError>)
      requires Valid()
      modifies this`nextXid, this`calls
      ensures Valid()
      ensures |calls| == |old(calls)| + 1 && calls[..|old(calls)|] == old(calls)
      ensures r == WithXid(CallMessage(Nth(seed, |old(calls)|), prog, vers, procedure, cred, args), Nth(seed, |old(calls)|))
      ensures calls[|old(calls)|] == if r.Ok? then Some(r.value.1) else None
    {
      hide CallMessage, Nth, WrapSucc, Stamped, SomeOversized, Record.Run, Record.Fed, Arrived, TooMuch;
      NthNext(seed, |calls|);
      var xid := nextXid;
      nextXid := WrapSucc(nextXid);
      var built := CallMessage(xid, prog, vers, procedure, cred, args);
      calls := calls + [if built.Ok? then Some(built.value) else None];
      StampedGrows(seed, old(calls), calls, net.sent);
      r := WithXid(built, xid);
    }

    method SendMessage(message: Bytes) returns (r: Result<(), RpcError>)
      requires Valid() && |message| >= 4
      requires |calls| > 0 && calls[|calls| - 1] == Some(message) && GetU32(message) == Nth(seed, |calls| - 1)
      modifies net
      ensures Valid() && lost == old(lost) && |net.script| <= |old(net.script)|
      ensures net.answers == old(net.answers)
      ensures net.sent == old(net.sent) || net.sent == old(net.sent) + [message]
      ensures r.Ok? ==> net.sent == old(net.sent) + [message]
      ensures
        if net.stream && Record.Frame(message).Err? then
          r == Err(RpcError.RecordTooLarge) && net.sent == old(net.sent)
        else
          && net.sent == old(net.sent) + [message]
          && if old(net.script) != [] && old(net.script)[0].Fault? then r == Err(Io)
             else r == Ok(()) && net.script == old(net.script) && net.View() == old(net.View()).(sent := net.sent)
    {
      hide Nth, SomeOversized, Record.Run, Record.Fed, Record.StreamOf, Record.Parse, PutU32, GetU32;
      ArrivedSent(net.View(), net.sent + [message]);
      if protocol.Tcp? {
        var framed := Record.Frame(message);
        if framed.Err? {
          return Err(RpcError.RecordTooLarge);
        }
      }
      var ok := net.Send(message);
      r := if ok then Ok(()) else Err(Io);
    }

    /** What holds while the reassembler is being emptied. */
    ghost predicate Draining()
      requires net.Valid()
      reads this, net
    {
      && (lost ==> SomeOversized(net.outgoing))
      && (!lost ==>
            && (forall p :: p in pending ==> IsReply(net.answers, p))
            && Tracked(events, reassembler)
            && Record.Fed(events) == net.Received() && Record.Run(MAX, events).emitted == handed + pending)
    }

    /** One `next_record`, whose record is queued. */
    method PollOnce() returns (result: Result<bool, RpcError>)
      requires net.Valid() && net.stream && Draining()
      modifies this`reassembler, this`pending, this`events, this`lost
      ensures result.Ok? ==> Draining() && lost == old(lost)
      ensures !old(lost) ==> old(pending) <= pending
      ensures result == Ok(true) ==> Record.Work(reassembler) < Record.Work(old(reassembler))
      ensures result == Ok(false) ==> Framed() && (!lost ==> !TooMuch(net.View()))
      ensures result.Err? ==> result == Err(RpcError.RecordTooLarge) && lost && Framed() && (!old(lost) ==> TooMuch(net.View()))
    {
      hide Nth, Stamped, SomeOversized, Record.Next, Record.Parse, Record.StreamOf, Record.Work;
      var polled := Record.Next(MAX, reassembler);
      Record.NextProgress(MAX, reassembler);
      ghost var before := events;
      events := events + [Record.Poll];
      assert events[..|events| - 1] == before;
      if !lost {
        Extracted(before, reassembler, polled);
        Polled(before, reassembler, polled);
      }
      reassembler := polled.state;
      match polled.result
      case Err(_) =>
        lost := true;
        result := Err(RpcError.RecordTooLarge);
      case Ok(None) => result := Ok(false);
      case Ok(Some(record)) =>
        Assoc(handed, pending, [record]);
        pending := pending + [record];
        result := Ok(true);
    }

    /** Empties the reassembler into the queue after `data` has been read from the stream. */
    method Drain(data: Bytes) returns (r: Result<(), RpcError>)
      requires net.Valid() && net.stream
      requires lost ==> SomeOversized(net.outgoing)
      requires !lost ==>
        && (forall p :: p in pending ==> IsReply(net.answers, p))
        && Tracked(events, reassembler) && Record.Run(MAX, events).emitted == handed + pending
        && Record.Fed(events) + data == net.Received()
      modifies this`reassembler, this`pending, this`events, this`lost
      ensures Framed()
      ensures r.Err? ==> r == Err(RpcError.RecordTooLarge)
      ensures lost == (r.Err? || old(lost))
      ensures !old(lost) ==> (r.Err? <==> TooMuch(net.View())) && old(pending) <= pending
    {
      hide SomeOversized, Record.Next, Record.Parse, Record.StreamOf, Record.Work, Framed, TooMuch, Arrived;
      reassembler := Record.Push(reassembler, data);
      events := events + [Record.Feed(data)];
      assert events[..|events| - 1] == old(events);
      while true
        invariant Draining() && lost == old(lost) && (!lost ==> old(pending) <= pending)
        decreases Record.Work(reassembler)
      {
        var more := PollOnce();
        if more.Err? {
          return Err(more.error);
        }
        if !more.value {
          return Ok(());
        }
      }
    }

    /** A poll that finds nothing has found everything, and one that fails means too much. */
    lemma {:induction false} Polled(events: seq<Record.Event>, st: Record.State, polled: Record.Polled)
      requires net.Valid() && net.stream && Tracked(events, st)
      requires Record.Fed(events) == net.Received() && polled == Record.Next(MAX, st)
      ensures Record.Fed(events + [Record.Poll]) == net.Received()
      ensures polled.result == Ok(None) ==> Arrived(net.View()) == Record.Run(MAX, events).emitted && !TooMuch(net.View())
      ensures polled.result.Err? ==> TooMuch(net.View())
    {
      hide Record.Next, Record.Parse, Record.StreamOf;
      var after := events + [Record.Poll];
      assert after[..|events|] == events;
      Record.ChunkingIndependence(MAX, after);
      assert Got(net.View()) == net.Received();
    }

    /** A record the reassembler hands out is a reply; an error means the server sent too much. */
    lemma {:induction false} Extracted(events: seq<Record.Event>, st: Record.State, polled: Record.Polled)
      requires net.Valid() && net.stream && Tracked(events, st)
      requires Record.Fed(events) == net.Received() && polled == Record.Next(MAX, st)
      ensures polled.result.Ok? && polled.result.value.Some? ==> IsReply(net.answers, polled.result.value.value)
      ensures polled.result.Err? ==> SomeOversized(net.outgoing)
    {
      var wire := Record.StreamOf(net.outgoing);
      var more := wire[net.delivered..];
      assert Record.Fed(events) + more == wire;
      Record.RunResumes(MAX, events, more);
      Record.NextResumes(MAX, st, more);
      StreamRecords(MAX, net.outgoing);
      var t := Record.Run(MAX, events);
      var parse := Record.Parse(MAX, [], wire);
      if polled.result.Ok? && polled.result.value.Some? {
        var rec := polled.result.value.value;
        var k := |t.emitted|;
        assert parse.records[k] == rec;
        assert Record.Whole(net.outgoing)[k] == rec;
      }
    }

    /** The first queued reply. */
    method Dequeue() returns (reply: Bytes)
      requires Valid() && pending != []
      modifies this`pending, this`handed
      ensures Valid() && reply == old(pending)[0] && pending == old(pending)[1..]
      ensures handed == old(handed) + [reply]
      ensures !lost ==> IsReply(net.answers, reply) && |old(handed)| < |Arrived(net.View())| && Arrived(net.View())[|old(handed)|] == reply
    {
      hide Nth, Stamped, SomeOversized, Record.Run, Record.Fed, Record.StreamOf, Record.Parse, Arrived, TooMuch, IsReply, Tracked;
      TakeFirst(handed, pending);
      reply := pending[0];
      pending, handed := pending[1..], handed + [pending[0]];
    }

    /** `recv_message`: a queued reply, or whatever the socket yields until the deadline. */
    method RecvMessage() returns (r: Result<Bytes, RpcError>)
      requires Valid()
      modifies this`reassembler, this`pending, this`events, this`lost, this`handed, net
      ensures Valid() && net.sent == old(net.sent) && old(net.answers) <= net.answers
      ensures r.Ok? && !lost ==> IsReply(net.answers, r.value)
      ensures lost && !old(lost) ==> r == Err(RpcError.RecordTooLarge)
      ensures old(lost) ==> lost
      ensures !old(lost) ==> (r, net.View(), net.script) == Obtain(old(net.View()), old(net.script), |old(handed)|)
      ensures !old(lost) && r.Ok? ==> !lost && handed == old(handed) + [r.value]
      ensures r.Ok? ==> |net.script| < |old(net.script)| || (|net.script| == |old(net.script)| && |pending| < |old(pending)|)
      ensures |net.script| <= |old(net.script)|
    {
      hide Nth, Stamped, SomeOversized, Record.Run, Record.Fed, Record.StreamOf, Record.Parse, NetRead, Receive, Arrived, TooMuch, IsReply, Tracked;
      if |pending| > 0 {
        var queued := Dequeue();
        return Ok(queued);
      }
      while true
        invariant Valid() && net.sent == old(net.sent) && old(net.answers) <= net.answers
        invariant |net.script| <= |old(net.script)| && lost == old(lost)
        invariant !lost ==> handed == old(handed) && pending == []
        invariant !lost ==>
          Receive(net.View(), net.script, |handed|) == Obtain(old(net.View()), old(net.script), |old(handed)|)
        decreases |net.script|
      {
        ghost var before, script := net.View(), net.script;
        ReceiveStep(before, script, |handed|);
        var outcome := net.Read();
        SameArrivals(before, net.View(), outcome);
        if lost {
          OversizedStays(before.outgoing, net.outgoing);
        } else {
          QueueStays(before.answers, net.answers, pending);
        }
        match outcome
        case Closed => return Err(ConnectionClosed);
        case TimedOut => return Err(Timeout);
        case Failed => return Err(Io);
        case Interrupted =>
        case Data(data) =>
          if protocol.Udp? {
            handed := handed + [data];
            return Ok(data);
          }
          var _ :- Drain(data);
          if |pending| > 0 {
            var queued := Dequeue();
            return Ok(queued);
          }
      }
    }

    /** `attempt_call`: send, then discard replies to other calls until ours arrives. */
    method AttemptCall(s: Schema, xid: u32, message: Bytes) returns (r: Result<Value, RpcError>)
      requires Valid() && |message| >= 4 && GetU32(message) == xid
      requires |calls| > 0 && calls[|calls| - 1] == Some(message) && xid == Nth(seed, |calls| - 1)
      modifies this`reassembler, this`pending, this`events, this`lost, this`handed, net
      ensures Valid()
      ensures net.sent == old(net.sent) || net.sent == old(net.sent) + [message]
      ensures old(net.answers) <= net.answers
      ensures r.Ok? && !lost && |calls| <= TWO32 ==> Genuine(net.answers, message, s, r.value)
      ensures r.Ok? ==> HasType(s, r.value)
      ensures lost && !old(lost) ==> r == Err(RpcError.RecordTooLarge)
      ensures !old(lost) ==> r == Attempted(old(net.View()), old(net.script), |old(handed)|, message, xid, s)
      ensures !(net.stream && Record.Frame(message).Err?) ==> net.sent == old(net.sent) + [message]
    {
      hide ResultOf, HasType, Stamped, Nth, GetU32, SomeOversized, Genuine, IsReply, Record.Frame, Record.Run, Record.Fed,
        Arrived, TooMuch, Obtain, Await, Foreign, Framed, Valid;
      var _ :- SendMessage(message);
      while true
        invariant Valid() && net.sent == old(net.sent) + [message] && old(net.answers) <= net.answers
        invariant lost ==> old(lost)
        invariant !lost ==>
          Attempted(old(net.View()), old(net.script), |old(handed)|, message, xid, s) == Await(net.View(), net.script, |handed|, xid, s)
        decreases |net.script|, |pending|
      {
        AwaitStep(net.View(), net.script, |handed|, xid, s);
        var reply :- RecvMessage();
        var judged := Judge(s, xid, reply);
        if judged.None? {
          continue;
        }
        r := judged.value;
        if r.Ok? && !lost && |calls| <= TWO32 {
          OursIsGenuine(reply, s, message, r.value);
        }
        return;
      }
    }

    /** A reply of the server's that carries this call's id yields a genuine result. */
    lemma {:induction false} OursIsGenuine(reply: Bytes, s: Schema, message: Bytes, v: Value)
      requires Valid() && IsReply(net.answers, reply) && ResultOf(reply, s) == Ok(v)
      requires 0 < |calls| <= TWO32 && calls[|calls| - 1] == Some(message)
      requires |reply| >= 4 && GetU32(reply) == Nth(seed, |calls| - 1)
      ensures Genuine(net.answers, message, s, v)
    {
      hide ResultOf, Stamped, Framed, Nth, GetU32;
      var j :| 0 <= j < |net.answers| && net.answers[j].reply == reply;
      OwnReply(seed, calls, net.sent, net.answers[j], message);
    }

    /** `reconnect`: a new connection has a fresh reassembler and an empty queue. */
    method Reconnect() returns (r: Result<(), RpcError>)
      requires Valid()
      modifies this`reassembler, this`pending, this`events, this`lost, this`handed, net
      ensures Valid() && net.sent == old(net.sent) && net.answers == old(net.answers)
      ensures (lost ==> old(lost)) && (r.Ok? ==> !lost && pending == []) && (r.Err? ==> r == Err(Io))
    {
      hide Nth, Stamped, SomeOversized;
      var ok := net.Connect();
      if !ok {
        return Err(Io);
      }
      reassembler := Record.FRESH;
      pending := [];
      events := [];
      lost := false;
      if net.stream {
        handed := [];
      } else {
        handed := net.datagrams;
      }
      Record.ParseNothing(MAX);
      assert Got(net.View()) == net.Received();
      r := Ok(());
    }

    /** The loop of `call`: attempts with the same message until one of them settles it. */
    method Persist(s: Schema, xid: u32, message: Bytes) returns (r: Result<Value, RpcError>, ghost refused: bool)
      requires Valid() && |message| >= 4 && GetU32(message) == xid
      requires |calls| > 0 && calls[|calls| - 1] == Some(message) && xid == Nth(seed, |calls| - 1)
      modifies this`reassembler, this`pending, this`events, this`lost, this`handed, net
      ensures Valid()
      ensures old(net.answers) <= net.answers
      ensures r.Ok? && |calls| <= TWO32 && !lost ==> Genuine(net.answers, message, s, r.value)
      ensures r.Ok? ==> HasType(s, r.value)
      ensures lost && !old(lost) ==> r == Err(RpcError.RecordTooLarge)
      ensures Copies(old(net.sent), net.sent, message, if protocol.Udp? || old(autoReconnect) then 3 else 1)
      ensures !old(lost) && (protocol.Tcp? ==> |message| < 0x8000_0000) ==>
        Kept(old(net.View()).(sent := old(net.sent) + [message]), old(net.script), |old(handed)|, xid, s, r)
      ensures refused ==> protocol.Tcp? && r == Err(Io)
      ensures (protocol.Tcp? ==> |message| < 0x8000_0000) && !refused && r.Err? && Retryable(protocol, autoReconnect, r.error) ==>
        |net.sent| == |old(net.sent)| + MAX_ATTEMPTS
    {
      hide Genuine, Stamped, HasType, Nth, GetU32, Copies, Kept, Attempted, Record.Frame, Framed, Valid;
      NoCopies(net.sent);
      ghost var l, script, seen := net.View(), net.script, |handed|;
      ghost var line := l.(sent := l.sent + [message]);
      ghost var small := protocol.Tcp? ==> |message| < 0x8000_0000;
      if small {
        Promised(s, xid, message);
      }
      r, refused := Err(Io), false;
      var attempt := 0;
      while true
        invariant 0 <= attempt < MAX_ATTEMPTS && !refused && Valid()
        invariant (lost ==> old(lost)) && (attempt > 0 && protocol.Tcp? ==> autoReconnect)
        invariant Copies(old(net.sent), net.sent, message, attempt) && old(net.answers) <= net.answers
        invariant small ==> |net.sent| == |old(net.sent)| + attempt
        invariant attempt == 0 ==> net.View() == l && net.script == script && |handed| == seen && lost == old(lost)
        invariant r.Err? && (attempt > 0 && !old(lost) && small ==> Kept(line, script, seen, xid, s, r))
        decreases MAX_ATTEMPTS - attempt
      {
        OneMoreCopy(old(net.sent), net.sent, message, attempt);
        ghost var before := r;
        attempt := attempt + 1;
        r := AttemptCall(s, xid, message);
        if attempt > 1 && !old(lost) && small {
          NothingBrought(line, script, seen, xid, s, before, r);
        }
        if r.Ok? {
          break;
        }
        var retry := IsRetryable(r.error);
        if attempt >= MAX_ATTEMPTS || !retry {
          break;
        }
        if protocol.Tcp? {
          var again := Reconnect();
          if again.Err? {
            if !old(lost) && small {
              NothingBrought(line, script, seen, xid, s, r, Err(Io));
            }
            r, refused := Err(again.error), true;
            break;
          }
        }
      }
    }

    /** A message that can be framed is sent, and what its first attempt returns is what is brought. */
    lemma {:induction false} Promised(s: Schema, xid: u32, message: Bytes)
      requires Valid() && (protocol.Tcp? ==> |message| < 0x8000_0000)
      ensures !(net.stream && Record.Frame(message).Err?)
      ensures !lost ==>
        Kept(net.View().(sent := net.sent + [message]), net.script, |handed|, xid, s,
             Attempted(net.View(), net.script, |handed|, message, xid, s))
    {
      hide Kept, Attempted, Record.Run, Record.Fed, Arrived, TooMuch, Stamped, Nth;
      if !lost {
        FirstAttemptKeeps(net.View(), net.script, |handed|, message, xid, s);
      }
    }

    /**
     * `call`. Within 2^32 calls, success means that the result was decoded from a reply the
     * server produced for this call's own message, unless an earlier `RecordTooLarge` lost the
     * stream's position; a call that loses it reports just that. Conversely, what the network
     * brings in time is returned. At most three copies of that one message, and nothing else, are
     * ever sent, only one over a connection that is not to be reopened, and all three before an
     * error is returned that might go away, unless a connection is refused.
     */
    method Call(s: Schema, prog: u32, vers: u32, procedure: u32, args: Encoded)
      returns (r: Result<Value, RpcError>, ghost message: Bytes, ghost refused: bool)
      requires Valid()
      modifies this, net
      ensures Valid() && |calls| == |old(calls)| + 1 && calls[..|old(calls)|] == old(calls)
      ensures match CallMessage(Nth(seed, |old(calls)|), prog, vers, procedure, old(cred), args)
        case Ok(m) => message == m
        case Err(e) => r == Err(e) && net.sent == old(net.sent)
      ensures old(net.answers) <= net.answers && cred == old(cred) && autoReconnect == old(autoReconnect)
      ensures r.Ok? && |calls| <= TWO32 && !lost ==> Genuine(net.answers, message, s, r.value)
      ensures r.Ok? ==> HasType(s, r.value)
      ensures lost && !old(lost) ==> r == Err(RpcError.RecordTooLarge)
      ensures Copies(old(net.sent), net.sent, message, if protocol.Udp? || old(autoReconnect) then 3 else 1)
      ensures !old(lost) && message != [] && (protocol.Tcp? ==> |message| < 0x8000_0000) ==>
        Kept(old(net.View()).(sent := old(net.sent) + [message]), old(net.script), |old(handed)|, Nth(seed, |old(calls)|), s, r)
      ensures refused ==> protocol.Tcp? && r == Err(Io)
      ensures message != [] && (protocol.Tcp? ==> |message| < 0x8000_0000) && !refused && r.Err? ==>
        ((r.error.Timeout? && protocol.Udp?) || ((r.error.Io? || r.error.ConnectionClosed?) && autoReconnect)) ==>
          |net.sent| == |old(net.sent)| + 3
    {
      hide CallMessage, Genuine, Stamped, Framed, HasType, Nth, GetU32, Copies, Kept;
      NoCopies(net.sent);
      message, refused := [], false;
      var built :- BuildCall(prog, vers, procedure, args);
      message := built.1;
      r, refused := Persist(s, built.0, built.1);
    }
  }

  /** At most `most` copies of one message, and nothing else, were sent. */
  ghost predicate Copies(before: seq<Bytes>, after: seq<Bytes>, message: Bytes, most: nat) {
    && before <= after && |after| <= |before| + most
    && forall i :: |before| <= i < |after| ==> after[i] == message
  }

  lemma {:induction false} NoCopies(sent: seq<Bytes>)
    ensures forall message, most :: Copies(sent, sent, message, most)
  {
  }

  lemma {:induction false} FewCopies(before: seq<Bytes>, after: seq<Bytes>, message: Bytes, most: nat)
    requires Copies(before, after, message, most) || (most > 0 && Copies(before, after, message, 1))
    ensures Copies(before, after, message, most)
  {
  }

  lemma {:induction false} OneMoreCopy(before: seq<Bytes>, after: seq<Bytes>, message: Bytes, most: nat)
    requires Copies(before, after, message, most)
    ensures Copies(before, after + [message], message, most + 1) && Copies(before, after, message, most + 1)
    ensures forall more :: more >= most ==> Copies(before, after, message, more)
    ensures forall more :: more >= most + 1 ==> Copies(before, after + [message], message, more)
  {
  }

  lemma {:induction false} QueueStays(old': seq<Answer>, new': seq<Answer>, queue: seq<Bytes>)
    requires old' <= new' && forall p :: p in queue ==> IsReply(old', p)
    ensures forall p :: p in queue ==> IsReply(new', p)
  {
    forall p | p in queue
      ensures IsReply(new', p)
    {
      ReplyStays(old', new', p);
    }
  }

  lemma {:induction false} StampedGrows(seed: u32, old': seq<Option<Bytes>>, new': seq<Option<Bytes>>, sent: seq<Bytes>)
    requires old' <= new' && Stamped(seed, old', sent)
    ensures Stamped(seed, new', sent)
  {
    forall m | m in sent
      ensures |m| >= 4 && exists i :: 0 <= i < |new'| && new'[i] == Some(m) && GetU32(m) == Nth(seed, i)
    {
      var i :| 0 <= i < |old'| && old'[i] == Some(m) && GetU32(m) == Nth(seed, i);
      assert new'[i] == Some(m);
    }
  }
}
