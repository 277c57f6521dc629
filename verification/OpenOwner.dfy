/**
 * The NFSv4.0 open-owner sequence id. `open`, `close` and `lock` advance the client's counter
 * when they succeed; the server of section 9.1.7 of RFC 7530 processes the id it expects,
 * answers a repetition of the last one from its cache, and refuses any other. In between, a
 * network delivers copies of messages late, repeatedly or never, and loses replies.
 */
module OpenOwner {
  import opened Wire
  import Nfs4Reply

  /** Errors after which neither side may advance (section 9.1.7 of RFC 7530). */
  predicate Exempt(status: u32) {
    status in {10018, 10019, 10020, 10022, 10023, 10025, 10026, 10036}
  }

  // --- Messages and rulings ---------------------------------------------------------------

  datatype Kind = Opening | Confirming | Closing | Locking

  /** A compound with a sequenced operation in it; copies of it are identical. */
  datatype Message = Message(kind: Kind, seqid: u32)

  /** What the server decided when it processed the sequenced operation of a message. */
  datatype Ruling = Ruling(of: nat, kind: Kind, status: u32, delegation: u32, confirm: bool)

  datatype Outcome =
    | NotReached(status: u32) // an operation before the sequenced one failed
    | Ruled(ruling: Ruling, finished: bool) // now or from the cache; whether the rest succeeded and decodes
    | BadSeqid

  datatype Answer = Answer(message: nat, outcome: Outcome)

  /** The client gets to the line that advances its counter. */
  predicate Success(kind: Kind, o: Outcome) {
    && o.Ruled? && o.finished && o.ruling.kind == kind && o.ruling.status == 0
    && (kind.Opening? ==> o.ruling.delegation == 0)
  }

  // --- Client, network and server ---------------------------------------------------------

  datatype State = State(
    start: u32,
    client: u32, // `open_seqid`
    messages: seq<Message>,
    waiting: bool, // the last message's exchange is not over
    expected: u32, // what the server processes next
    cached: Option<Ruling>, // its answer to the id before
    answers: seq<Answer>,
    noted: nat, // exchanges that the client took for success
    numbers: seq<nat>, // how many that were when each message was sent
    ruled: bool) // the server advanced during the exchange that is not over

  datatype Step =
    | Send(kind: Kind)
    | Arrive(message: nat, blocked: Option<u32>, status: u32, delegation: u32, confirm: bool, finished: bool)
    | Conclude(reply: Option<nat>) // with one of the answers to the message, or without

  function Initial(start: u32): State {
    State(start, start, [], false, start, None, [], 0, [], false)
  }

  predicate Enabled(s: State, step: Step) {
    match step
    case Send(_) => !s.waiting
    case Arrive(_, _, _, _, _, _) => true
    case Conclude(reply) => s.waiting && s.messages != [] && (reply.Some? ==> Answers(s, reply.value))
  }

  predicate Answers(s: State, k: nat) {
    k < |s.answers| && s.answers[k].message == |s.messages| - 1
  }

  function Told(s: State, m: nat, o: Outcome): State {
    s.(answers := s.answers + [Answer(m, o)])
  }

  /** The server on one copy of a message; what it would rule is up to it. */
  function Serve(s: State, m: nat, ruling: Ruling, finished: bool): State
    requires m < |s.messages|
  {
    var seqid := s.messages[m].seqid;
    if seqid == s.expected then
      var s' := Told(s, m, Ruled(ruling, finished));
      if Exempt(ruling.status) then s'
      else s'.(expected := WrapSucc(s.expected), cached := Some(ruling), ruled := s.waiting)
    else if WrapSucc(seqid) == s.expected && s.cached.Some? then Told(s, m, Ruled(s.cached.value, finished))
    else Told(s, m, BadSeqid)
  }

  /** The client takes the reply for success. */
  predicate Notes(s: State, reply: Option<nat>) {
    reply.Some? && reply.value < |s.answers| && s.messages != [] &&
    Success(s.messages[|s.messages| - 1].kind, s.answers[reply.value].outcome)
  }

  function Apply(s: State, step: Step): State {
    match step
    case Send(kind) =>
      s.(messages := s.messages + [Message(kind, s.client)], numbers := s.numbers + [s.noted], waiting := true, ruled := false)
    case Arrive(m, blocked, status, delegation, confirm, finished) =>
      if m >= |s.messages| then s
      else if blocked.Some? then Told(s, m, NotReached(blocked.value))
      else Serve(s, m, Ruling(m, s.messages[m].kind, status, delegation, confirm), finished)
    case Conclude(reply) =>
      var s' := s.(waiting := false, ruled := false);
      if Notes(s, reply) then s'.(client := WrapSucc(s.client), noted := s.noted + 1) else s'
  }

  function After(s: State, steps: seq<Step>): State {
    if steps == [] then s else Apply(After(s, steps[..|steps| - 1]), steps[|steps| - 1])
  }

  ghost predicate Possible(s: State, steps: seq<Step>) {
    steps == [] ||
    (Possible(s, steps[..|steps| - 1]) && Enabled(After(s, steps[..|steps| - 1]), steps[|steps| - 1]))
  }

  // --- Noting -----------------------------------------------------------------------------

  /** The server processes the operation and advances. */
  predicate Rules(s: State, step: Step) {
    && step.Arrive? && step.message < |s.messages| && step.blocked.None?
    && s.messages[step.message].seqid == s.expected && !Exempt(step.status)
  }

  /** The step leaves a ruling unnoted: made when no one waits, or in an exchange not taken for success. */
  predicate Slips(s: State, step: Step) {
    (Rules(s, step) && !s.waiting) || (step.Conclude? && s.ruled && !Notes(s, step.reply))
  }

  /**
   * Every status that the server gave and that is not exempt was given during an exchange that
   * the client then took for success, or that is not over.
   */
  ghost predicate AllNoted(s: State, steps: seq<Step>) {
    forall i :: 0 <= i < |steps| ==> !Slips(After(s, steps[..i]), steps[i])
  }

  lemma {:induction false} AllNotedSnoc(s: State, steps: seq<Step>)
    requires steps != []
    ensures var init := steps[..|steps| - 1];
      AllNoted(s, steps) <==> AllNoted(s, init) && !Slips(After(s, init), steps[|steps| - 1])
  {
    hide After, Slips;
    var init := steps[..|steps| - 1];
    assert forall i :: 0 <= i < |init| ==> steps[..i] == init[..i] && steps[i] == init[i];
  }

  // --- What every run keeps ---------------------------------------------------------------

  ghost predicate Numbered(s: State) {
    && |s.numbers| == |s.messages|
    && s.client == Nth(s.start, s.noted)
    && s.noted + (if s.waiting then 1 else 0) <= |s.messages|
    && (forall i :: 0 <= i < |s.messages| ==> s.messages[i].seqid == Nth(s.start, s.numbers[i]) && s.numbers[i] <= s.noted)
    && (s.waiting ==> s.numbers[|s.messages| - 1] == s.noted)
    && (forall k :: 0 <= k < |s.answers| ==> s.answers[k].message < |s.messages|)
    && (s.ruled ==> s.waiting)
  }

  lemma {:induction false} NumberedKept(s: State, step: Step)
    requires Numbered(s) && Enabled(s, step)
    ensures Numbered(Apply(s, step))
  {
    hide Nth, WrapSucc, Success, Serve;
    NthNext(s.start, s.noted);
    if step.Arrive? && step.message < |s.messages| {
      ServeFrame(s, step.message, Ruling(step.message, s.messages[step.message].kind, step.status, step.delegation, step.confirm), step.finished);
    }
  }

  /** What the server does leaves the client and its messages alone. */
  lemma {:induction false} ServeFrame(s: State, m: nat, ruling: Ruling, finished: bool)
    requires m < |s.messages|
    ensures var s' := Serve(s, m, ruling, finished);
      && s'.start == s.start && s'.client == s.client && s'.messages == s.messages && s'.waiting == s.waiting
      && s'.noted == s.noted && s'.numbers == s.numbers
      && (s'.ruled ==> s.ruled || s.waiting)
      && |s'.answers| == |s.answers| + 1 && s.answers <= s'.answers && s'.answers[|s.answers|].message == m
  {
    hide WrapSucc, Exempt;
  }

  /** As long as every ruling was noted, the server is where the client will be. */
  ghost predicate InStep(s: State) {
    && s.expected == Nth(s.start, s.noted + if s.ruled then 1 else 0)
    && (s.ruled ==> s.cached.Some? && RulingOf(s, s.cached.value))
    && (s.waiting ==> forall k :: 0 <= k < |s.answers| && Succeeds(s, k) ==>
          s.ruled && s.answers[k].outcome.ruling == s.cached.value)
  }

  /** It was made of a message with the id that the exchange under way carries. */
  ghost predicate RulingOf(s: State, r: Ruling) {
    && r.of < |s.messages| == |s.numbers|
    && s.numbers[r.of] == s.noted && s.messages[r.of].kind == r.kind
  }

  /** The `k`-th answer is to the last message and would be taken for success. */
  ghost predicate Succeeds(s: State, k: nat) {
    Answers(s, k) && s.messages != [] && Success(s.messages[|s.messages| - 1].kind, s.answers[k].outcome)
  }

  /** No message carries an id from the future. */
  lemma {:induction false} NotYet(s: State, m: nat)
    requires Numbered(s) && |s.messages| < TWO32 - 1 && m < |s.messages|
    ensures s.messages[m].seqid != Nth(s.start, s.noted + 1)
  {
    hide Nth;
    if s.messages[m].seqid == Nth(s.start, s.noted + 1) && s.noted + 1 < TWO32 {
      NthDistinct(s.start, s.numbers[m], s.noted + 1);
    }
  }

  lemma {:induction false} ServeInStep(s: State, m: nat, ruling: Ruling, finished: bool)
    requires Numbered(s) && InStep(s) && |s.messages| < TWO32 - 1 && m < |s.messages|
    requires ruling.of == m && ruling.kind == s.messages[m].kind
    requires s.messages[m].seqid == s.expected && !Exempt(ruling.status) ==> s.waiting
    ensures InStep(Serve(s, m, ruling, finished))
  {
    hide Nth, WrapSucc, Success;
    NthNext(s.start, s.noted);
    if s.ruled {
      NotYet(s, m);
    } else if s.messages[m].seqid == s.expected {
      NthDistinct(s.start, s.numbers[m], s.noted);
    }
    var s' := Serve(s, m, ruling, finished);
    forall k | 0 <= k < |s'.answers| && Succeeds(s', k) && s.waiting
      ensures s'.ruled && s'.answers[k].outcome.Ruled? && s'.answers[k].outcome.ruling == s'.cached.value
    {
      NotExemptSuccess(s.messages[|s.messages| - 1].kind, s'.answers[k].outcome);
      if k < |s.answers| {
        assert Succeeds(s, k);
      }
    }
  }

  lemma {:induction false} NotExemptSuccess(kind: Kind, o: Outcome)
    requires Success(kind, o)
    ensures o.Ruled? && o.ruling.status == 0 && !Exempt(o.ruling.status)
  {
  }

  lemma {:induction false} InStepKept(s: State, step: Step)
    requires Numbered(s) && InStep(s) && Enabled(s, step) && |s.messages| < TWO32 - 1 && !Slips(s, step)
    ensures InStep(Apply(s, step))
  {
    hide Nth, WrapSucc, Serve;
    NthNext(s.start, s.noted);
    match step
    case Send(_) =>
    case Arrive(m, blocked, status, delegation, confirm, finished) =>
      if m < |s.messages| && blocked.None? {
        ServeInStep(s, m, Ruling(m, s.messages[m].kind, status, delegation, confirm), finished);
      } else if m < |s.messages| {
        var s' := Apply(s, step);
        assert forall k :: 0 <= k < |s.answers| ==> (Succeeds(s', k) <==> Succeeds(s, k));
      }
    case Conclude(reply) =>
      if reply.Some? && Notes(s, reply) {
        assert Succeeds(s, reply.value);
      }
  }

  lemma {:induction false} MessagesStay(s: State, step: Step)
    ensures |s.messages| <= |Apply(s, step).messages|
  {
    hide Success, WrapSucc, Exempt;
  }

  lemma {:induction false} RunKeeps(start: u32, steps: seq<Step>)
    requires Possible(Initial(start), steps) && |After(Initial(start), steps).messages| < TWO32 - 1
    ensures var s := After(Initial(start), steps);
      Numbered(s) && s.start == start && (AllNoted(Initial(start), steps) ==> InStep(s))
  {
    hide Numbered, InStep, Apply, Enabled, AllNoted, Slips;
    if steps == [] {
      AtFirst(start);
    } else {
      var init, step := steps[..|steps| - 1], steps[|steps| - 1];
      var s := After(Initial(start), init);
      MessagesStay(s, step);
      RunKeeps(start, init);
      NumberedKept(s, step);
      SameStart(s, step);
      AllNotedSnoc(Initial(start), steps);
      if AllNoted(Initial(start), steps) {
        InStepKept(s, step);
      }
    }
  }

  lemma {:induction false} AtFirst(start: u32)
    ensures Numbered(Initial(start)) && InStep(Initial(start))
  {
  }

  lemma {:induction false} SameStart(s: State, step: Step)
    ensures Apply(s, step).start == s.start
  {
  }

  // --- Agreement --------------------------------------------------------------------------

  /** Whenever no exchange is under way, the client's next id is the one the server expects. */
  ghost predicate Agrees(s: State) {
    s.waiting || s.client == s.expected
  }

  ghost predicate AgreesThroughout(start: u32, steps: seq<Step>) {
    forall n :: 0 <= n <= |steps| ==> Agrees(After(Initial(start), steps[..n]))
  }

  lemma {:induction false} OneApart(start: u32, n: nat)
    ensures Nth(start, n) != Nth(start, n + 1)
  {
  }

  /** The step that leaves a ruling unnoted leaves the server one ahead, with no one waiting. */
  lemma {:induction false} SlipDisagrees(s: State, step: Step)
    requires Numbered(s) && InStep(s) && Enabled(s, step) && |s.messages| < TWO32 - 1 && Slips(s, step)
    ensures !Agrees(Apply(s, step))
  {
    hide Nth, WrapSucc, Success;
    NthNext(s.start, s.noted);
    OneApart(s.start, s.noted);
  }

  /**
   * Agreement, exactly. In every run of fewer than 2^32 - 1 messages the two counters agree
   * throughout if and only if every ruling is noted.
   */
  lemma {:induction false} AgreementIsNoting(start: u32, steps: seq<Step>)
    requires Possible(Initial(start), steps) && |After(Initial(start), steps).messages| < TWO32 - 1
    ensures AgreesThroughout(start, steps) <==> AllNoted(Initial(start), steps)
  {
    hide Numbered, InStep, Apply, Enabled, Agrees, AllNoted, Slips;
    if steps == [] {
      NothingSlips(Initial(start));
      Settled(start, steps);
    } else {
      var init, step := steps[..|steps| - 1], steps[|steps| - 1];
      var s := After(Initial(start), init);
      MessagesStay(s, step);
      AgreementIsNoting(start, init);
      assert forall n :: 0 <= n <= |init| ==> steps[..n] == init[..n];
      assert steps[..|steps|] == steps && init[..|init|] == init;
      assert AgreesThroughout(start, steps) <==> AgreesThroughout(start, init) && Agrees(After(Initial(start), steps));
      RunKeeps(start, init);
      AllNotedSnoc(Initial(start), steps);
      if AllNoted(Initial(start), steps) {
        Settled(start, steps);
      } else if AllNoted(Initial(start), init) {
        SlipDisagrees(s, step);
      }
    }
  }

  lemma {:induction false} NothingSlips(s: State)
    ensures AllNoted(s, [])
  {
  }

  lemma {:induction false} Settled(start: u32, steps: seq<Step>)
    requires Possible(Initial(start), steps) && |After(Initial(start), steps).messages| < TWO32 - 1
    requires AllNoted(Initial(start), steps)
    ensures Agrees(After(Initial(start), steps))
  {
    hide After, Possible, AllNoted;
    RunKeeps(start, steps);
  }

  /**
   * Resends are harmless: a copy of a message that the server has ruled on changes nothing but
   * what was said, and the copy of one still waited for gets the first ruling again.
   */
  lemma {:induction false} ResendsAreHarmless(s: State, m: nat, ruling: Ruling, finished: bool)
    requires Numbered(s) && InStep(s) && |s.messages| < TWO32 - 1 && m < |s.messages|
    requires s.numbers[m] < s.noted || s.ruled
    ensures exists o :: Serve(s, m, ruling, finished) == Told(s, m, o)
    ensures s.ruled && m == |s.messages| - 1 ==> Serve(s, m, ruling, finished) == Told(s, m, Ruled(s.cached.value, finished))
  {
    hide Nth, WrapSucc, Exempt;
    NthNext(s.start, s.noted);
    if s.ruled {
      NotYet(s, m);
    } else {
      NthDistinctFrom(s, m);
    }
    var served := Serve(s, m, ruling, finished);
    assert served == Told(s, m, served.answers[|s.answers|].outcome);
  }

  /**
   * Not so a copy of a message that the server did not rule on, after an exempt error or none:
   * if it comes when the exchange is over, it is processed, and the counters part.
   */
  lemma {:induction false} LateCopyDisagrees(s: State, m: nat, ruling: Ruling, finished: bool)
    requires Numbered(s) && InStep(s) && !s.waiting && m < |s.messages| && s.numbers[m] == s.noted && !Exempt(ruling.status)
    ensures Agrees(s) && !Agrees(Serve(s, m, ruling, finished))
  {
    hide Nth, WrapSucc, Exempt;
    NthNext(s.start, s.noted);
    OneApart(s.start, s.noted);
  }

  lemma {:induction false} NthDistinctFrom(s: State, m: nat)
    requires Numbered(s) && |s.messages| < TWO32 - 1 && m < |s.messages| && s.numbers[m] < s.noted
    ensures s.messages[m].seqid != Nth(s.start, s.noted)
  {
    hide Nth;
    if s.messages[m].seqid == Nth(s.start, s.noted) {
      NthDistinct(s.start, s.numbers[m], s.noted);
    }
  }

  // --- Whose success it was ---------------------------------------------------------------

  /** An earlier message of the same kind carries the id of the last one. */
  ghost predicate Shared(s: State) {
    |s.numbers| == |s.messages| &&
    exists m :: 0 <= m < |s.messages| - 1 && s.numbers[m] == s.noted && s.messages[m].kind == s.messages[|s.messages| - 1].kind
  }

  ghost predicate OnlyArrivals(more: seq<Step>) {
    forall i :: 0 <= i < |more| ==> more[i].Arrive?
  }

  lemma {:induction false} ArrivalsKeep(s: State, more: seq<Step>)
    requires Numbered(s) && InStep(s) && s.waiting && |s.messages| < TWO32 - 1 && OnlyArrivals(more)
    ensures var s' := After(s, more);
      && Numbered(s') && InStep(s')
      && s'.waiting && s'.messages == s.messages && s'.numbers == s.numbers && s'.noted == s.noted
  {
    hide Numbered, InStep, Apply;
    if more != [] {
      var init, step := more[..|more| - 1], more[|more| - 1];
      ArrivalsKeep(s, init);
      var s1 := After(s, init);
      NumberedKept(s1, step);
      InStepKept(s1, step);
      ArrivalFrame(s1, step);
    }
  }

  lemma {:induction false} ArrivalFrame(s: State, step: Step)
    requires step.Arrive?
    ensures var s' := Apply(s, step);
      s'.waiting == s.waiting && s'.messages == s.messages && s'.numbers == s.numbers && s'.noted == s.noted
  {
    hide Serve;
    if step.message < |s.messages| {
      ServeFrame(s, step.message, Ruling(step.message, s.messages[step.message].kind, step.status, step.delegation, step.confirm), step.finished);
    }
  }

  /** With an id of its own, an exchange succeeds only by its own operation. */
  lemma {:induction false} OwnIdOwnSuccess(s: State, more: seq<Step>, k: nat)
    requires Numbered(s) && InStep(s) && s.waiting && |s.messages| < TWO32 - 1 && OnlyArrivals(more)
    requires !Shared(s) && Succeeds(After(s, more), k)
    ensures After(s, more).answers[k].outcome.ruling.of == |s.messages| - 1
  {
    hide After, Nth;
    ArrivalsKeep(s, more);
    var s' := After(s, more);
    assert RulingOf(s', s'.cached.value);
  }

  /** With a shared one, a late copy of the earlier message can be processed in its place. */
  lemma {:induction false} SharedIdMistaken(s: State) returns (more: seq<Step>, k: nat)
    requires Numbered(s) && InStep(s) && s.waiting && !s.ruled && |s.messages| < TWO32 - 1 && Shared(s)
    ensures OnlyArrivals(more) && Succeeds(After(s, more), k) && After(s, more).answers[k].outcome.ruling.of < |s.messages| - 1
  {
    hide Nth, WrapSucc;
    var last := |s.messages| - 1;
    var m :| 0 <= m < last && s.numbers[m] == s.noted && s.messages[m].kind == s.messages[last].kind;
    var first, second := Arrive(m, None, 0, 0, false, true), Arrive(last, None, 0, 0, false, true);
    more, k := [first, second], |s.answers| + 1;
    NthNext(s.start, s.noted);
    OneApart(s.start, s.noted);
    var ruling := Ruling(m, s.messages[m].kind, 0, 0, false);
    var s1 := Apply(s, first);
    assert s1 == Told(s, m, Ruled(ruling, true)).(expected := Nth(s.start, s.noted + 1), cached := Some(ruling), ruled := true);
    var s2 := Apply(s1, second);
    assert s2 == Told(s1, last, Ruled(ruling, true));
    assert After(s, more) == s2 by {
      assert more[..1] == [first] && [first][..0] == [];
      assert After(s, [first]) == s1;
    }
  }

  /**
   * Whose success it was, exactly: whatever arrives, a success that the exchange under way can
   * take note of is that of its own operation if and only if no earlier message of the same kind
   * carries the same id.
   */
  lemma {:induction false} OwnSuccessExactly(s: State)
    requires Numbered(s) && InStep(s) && s.waiting && !s.ruled && |s.messages| < TWO32 - 1
    ensures (forall more: seq<Step>, k: nat :: OnlyArrivals(more) && Succeeds(After(s, more), k) ==>
               After(s, more).answers[k].outcome.ruling.of == |s.messages| - 1)
       <==> !Shared(s)
  {
    hide After, Numbered, InStep, Shared;
    if Shared(s) {
      var more, k := SharedIdMistaken(s);
    } else {
      forall more: seq<Step>, k: nat | OnlyArrivals(more) && Succeeds(After(s, more), k)
        ensures After(s, more).answers[k].outcome.ruling.of == |s.messages| - 1
      {
        OwnIdOwnSuccess(s, more, k);
      }
    }
  }

  lemma {:induction false} Extend(s: State, steps: seq<Step>, step: Step)
    requires Possible(s, steps) && AllNoted(s, steps) && Enabled(After(s, steps), step)
    ensures Possible(s, steps + [step]) && After(s, steps + [step]) == Apply(After(s, steps), step)
    ensures AllNoted(s, steps + [step]) <==> !Slips(After(s, steps), step)
  {
    hide Apply, Enabled, Slips, AllNoted;
    assert (steps + [step])[..|steps|] == steps;
    AllNotedSnoc(s, steps + [step]);
  }

  lemma {:induction false} Outset(s: State)
    ensures Possible(s, []) && After(s, []) == s && AllNoted(s, [])
  {
  }

  /**
   * Such a run: the reply to an OPEN is lost with its message still under way, a second OPEN is
   * sent with the same id, and the client takes the first one's success for the second's. The
   * counters agree throughout.
   */
  lemma {:induction false} SecondOpenTakesTheFirst()
    ensures var steps := [Send(Opening), Conclude(None), Send(Opening), Arrive(0, None, 0, 0, false, true),
                          Arrive(1, None, 0, 0, false, true), Conclude(Some(1))];
      var s := After(Initial(0), steps);
      && Possible(Initial(0), steps) && AllNoted(Initial(0), steps)
      && s.noted == 1 && s.client == s.expected
      && |s.answers| == 2 && s.answers[1] == Answer(1, Ruled(Ruling(0, Opening, 0, 0, false), true))
  {
    hide After, Possible, AllNoted, Apply, Enabled, Slips;
    var s0 := Initial(0);
    var t3 := [Send(Opening), Conclude(None), Send(Opening)];
    TwoOpens();
    LateCopyFirst();
    var first, second, end := Arrive(0, None, 0, 0, false, true), Arrive(1, None, 0, 0, false, true), Conclude(Some(1));
    Extend(s0, t3, first);
    Extend(s0, t3 + [first], second);
    Extend(s0, t3 + [first] + [second], end);
    assert t3 + [first] + [second] + [end] == [Send(Opening), Conclude(None), Send(Opening), first, second, end];
  }

  const TWO_OPENS: State :=
    State(0, 0, [Message(Opening, 0), Message(Opening, 0)], true, 0, None, [], 0, [0, 0], false)

  lemma {:induction false} TwoOpens()
    ensures var t3 := [Send(Opening), Conclude(None), Send(Opening)];
      Possible(Initial(0), t3) && AllNoted(Initial(0), t3) && After(Initial(0), t3) == TWO_OPENS
  {
    hide After, Possible, AllNoted;
    var s0 := Initial(0);
    Outset(s0);
    Extend(s0, [], Send(Opening));
    var t1 := [] + [Send(Opening)];
    Extend(s0, t1, Conclude(None));
    var t2 := t1 + [Conclude(None)];
    Extend(s0, t2, Send(Opening));
    assert t2 + [Send(Opening)] == [Send(Opening), Conclude(None), Send(Opening)];
  }

  /** The last three steps, from there. */
  lemma {:induction false} LateCopyFirst()
    ensures var ruled := Ruled(Ruling(0, Opening, 0, 0, false), true);
      var first, second, end := Arrive(0, None, 0, 0, false, true), Arrive(1, None, 0, 0, false, true), Conclude(Some(1));
      var s1 := Apply(TWO_OPENS, first);
      var s2 := Apply(s1, second);
      var s3 := Apply(s2, end);
      && Enabled(TWO_OPENS, first) && Enabled(s1, second) && Enabled(s2, end)
      && !Slips(TWO_OPENS, first) && !Slips(s1, second) && !Slips(s2, end)
      && s3.noted == 1 && s3.client == s3.expected && s3.answers == [Answer(0, ruled), Answer(1, ruled)]
  {
    var ok := Ruling(0, Opening, 0, 0, false);
    var ms := [Message(Opening, 0), Message(Opening, 0)];
    var s1 := Apply(TWO_OPENS, Arrive(0, None, 0, 0, false, true));
    assert s1 == State(0, 0, ms, true, 1, Some(ok), [Answer(0, Ruled(ok, true))], 0, [0, 0], true);
    var s2 := Apply(s1, Arrive(1, None, 0, 0, false, true));
    assert s2 == State(0, 0, ms, true, 1, Some(ok), [Answer(0, Ruled(ok, true)), Answer(1, Ruled(ok, true))], 0, [0, 0], true);
  }

  // --- After an error ---------------------------------------------------------------------

  /** The server has ruled on an error that is not exempt, and is one ahead. */
  ghost predicate Stuck(s: State, error: Ruling) {
    && Numbered(s) && error.status != 0 && s.cached == Some(error)
    && s.expected == Nth(s.start, s.noted + 1)
    && (s.waiting ==> forall k :: 0 <= k < |s.answers| ==> !Succeeds(s, k))
  }

  /** That is where the first such error leads from agreement. */
  lemma {:induction false} ErrorsStick(s: State)
    requires Numbered(s) && InStep(s) && s.ruled && s.cached.value.status != 0
    ensures Stuck(s, s.cached.value)
  {
    hide Nth;
  }

  lemma {:induction false} StuckTold(s: State, error: Ruling, m: nat, o: Outcome)
    requires Stuck(s, error) && m < |s.messages| && !(o.Ruled? && o.ruling.status == 0)
    ensures Stuck(Told(s, m, o), error)
  {
    hide Nth;
    var s' := Told(s, m, o);
    forall k | 0 <= k < |s'.answers|
      ensures s.waiting ==> !Succeeds(s', k)
    {
      if k < |s.answers| && s.waiting {
        assert !Succeeds(s, k);
      }
    }
  }

  lemma {:induction false} StuckServes(s: State, error: Ruling, m: nat, ruling: Ruling, finished: bool)
    requires Stuck(s, error) && |s.messages| < TWO32 - 1 && m < |s.messages|
    ensures var s' := Serve(s, m, ruling, finished);
      (s' == Told(s, m, Ruled(error, finished)) || s' == Told(s, m, BadSeqid)) && Stuck(s', error)
    ensures s.numbers[m] == s.noted ==> Serve(s, m, ruling, finished) == Told(s, m, Ruled(error, finished))
  {
    hide Nth, WrapSucc, Exempt;
    NotYet(s, m);
    NthNext(s.start, s.noted);
    StuckTold(s, error, m, Ruled(error, finished));
    StuckTold(s, error, m, BadSeqid);
  }

  lemma {:induction false} StuckKept(s: State, error: Ruling, step: Step)
    requires Stuck(s, error) && Enabled(s, step) && |s.messages| < TWO32 - 1
    ensures var s' := Apply(s, step); Stuck(s', error) && s'.client == s.client && s'.expected == s.expected
    ensures var s' := Apply(s, step);
      s'.answers == s.answers || (|s'.answers| == |s.answers| + 1 && s.answers <= s'.answers
        && (var o := s'.answers[|s.answers|].outcome; o.NotReached? || o.BadSeqid? || (o.Ruled? && o.ruling == error)))
  {
    hide Nth, WrapSucc, Serve, Success;
    NumberedKept(s, step);
    match step
    case Send(_) =>
    case Arrive(m, blocked, status, delegation, confirm, finished) =>
      if m < |s.messages| && blocked.Some? {
        StuckTold(s, error, m, NotReached(blocked.value));
      } else if m < |s.messages| {
        StuckServes(s, error, m, Ruling(m, s.messages[m].kind, status, delegation, confirm), finished);
      }
    case Conclude(reply) =>
      if reply.Some? {
        assert !Succeeds(s, reply.value);
      }
  }

  /**
   * The drift is for good: however a run goes on after such an error, the counters never agree
   * again, and every message is answered with that error again, with BAD_SEQID, or before its
   * sequenced operation is reached. Nothing that the client asks for is ever processed.
   */
  lemma {:induction false} NeverAgainAgrees(s: State, error: Ruling, more: seq<Step>)
    requires Stuck(s, error) && Possible(s, more) && |After(s, more).messages| < TWO32 - 1
    ensures var s' := After(s, more);
      && Stuck(s', error) && s'.client == s.client && s'.expected == s.expected && s'.client != s'.expected
      && s.answers <= s'.answers
      && forall k :: |s.answers| <= k < |s'.answers| ==>
           (var o := s'.answers[k].outcome; o.NotReached? || o.BadSeqid? || (o.Ruled? && o.ruling == error))
  {
    hide Apply, Enabled, Numbered;
    if more == [] {
      assert s.client == Nth(s.start, s.noted) by { IsNth(s); }
      OneApart(s.start, s.noted);
    } else {
      var init, step := more[..|more| - 1], more[|more| - 1];
      MessagesStay(After(s, init), step);
      NeverAgainAgrees(s, error, init);
      StuckKept(After(s, init), error, step);
    }
  }

  /** The same for the run that led there: any error that is not exempt, answered in agreement. */
  lemma {:induction false} DriftIsForGood(start: u32, steps: seq<Step>, more: seq<Step>)
    requires Possible(Initial(start), steps) && |After(Initial(start), steps).messages| < TWO32 - 1
    requires AllNoted(Initial(start), steps)
    requires var s := After(Initial(start), steps); s.ruled && s.cached.Some? && s.cached.value.status != 0
    requires Possible(After(Initial(start), steps), more)
    requires |After(After(Initial(start), steps), more).messages| < TWO32 - 1
    ensures var s := After(Initial(start), steps);
      var s' := After(s, more);
      && s'.client != s'.expected && s'.client == s.client
      && forall k :: |s.answers| <= k < |s'.answers| ==>
           (var o := s'.answers[k].outcome; o.NotReached? || o.BadSeqid? || (o.Ruled? && o.ruling == s.cached.value))
  {
    hide After, Possible, AllNoted;
    var s := After(Initial(start), steps);
    RunKeeps(start, steps);
    ErrorsStick(s);
    NeverAgainAgrees(s, s.cached.value, more);
  }

  /** The shortest such run: an OPEN of a file that does not exist. */
  lemma {:induction false} MissingFileStartsDrift()
    ensures var steps := [Send(Opening), Arrive(0, None, 2, 0, false, true)];
      var s := After(Initial(0), steps);
      && Possible(Initial(0), steps) && AllNoted(Initial(0), steps)
      && s.ruled && s.cached == Some(Ruling(0, Opening, 2, 0, false)) && |s.messages| == 1
  {
    hide After, Possible, AllNoted;
    var s0 := Initial(0);
    Outset(s0);
    Extend(s0, [], Send(Opening));
    var t1 := [] + [Send(Opening)];
    assert After(s0, t1) == State(0, 0, [Message(Opening, 0)], true, 0, None, [], 0, [0], false);
    Extend(s0, t1, Arrive(0, None, 2, 0, false, true));
    var t2 := t1 + [Arrive(0, None, 2, 0, false, true)];
    assert t2 == [Send(Opening), Arrive(0, None, 2, 0, false, true)];
  }

  lemma {:induction false} IsNth(s: State)
    requires Numbered(s)
    ensures s.client == Nth(s.start, s.noted)
  {
  }

  /**
   * Such errors are ordinary: from agreement, any status but success and the exempt ones (a file
   * that does not exist, a lock that is held, being told to wait) leads there.
   */
  lemma {:induction false} OrdinaryErrorsStick(s: State, status: u32, finished: bool)
    requires Numbered(s) && InStep(s) && s.waiting && !s.ruled && |s.messages| < TWO32 - 1
    requires status != 0 && !Exempt(status)
    ensures !Exempt(2) && !Exempt(10010) && !Exempt(10008) // NFS4ERR_NOENT, DENIED, DELAY
    ensures var m := |s.messages| - 1;
      var error := Ruling(m, s.messages[m].kind, status, 0, false);
      Stuck(Serve(s, m, error, finished), error)
  {
    hide Nth, WrapSucc;
    var m := |s.messages| - 1;
    var error := Ruling(m, s.messages[m].kind, status, 0, false);
    NthNext(s.start, s.noted);
    ServeInStep(s, m, error, finished);
    NumberedServe(s, m, error, finished);
    ErrorsStick(Serve(s, m, error, finished));
  }

  lemma {:induction false} NumberedServe(s: State, m: nat, ruling: Ruling, finished: bool)
    requires Numbered(s) && m < |s.messages|
    ensures Numbered(Serve(s, m, ruling, finished))
  {
    hide Nth, Serve;
    ServeFrame(s, m, ruling, finished);
  }

  // --- The ids on the wire ----------------------------------------------------------------

  /** The first message carries the first id, and each next one the same or its successor. */
  ghost predicate Consecutive(s: State) {
    && |s.numbers| == |s.messages|
    && (s.numbers != [] ==> s.numbers[0] == 0)
    && (s.numbers == [] ==> s.noted == 0)
    && (forall i :: 0 < i < |s.numbers| ==> s.numbers[i - 1] <= s.numbers[i] <= s.numbers[i - 1] + 1)
    && (s.numbers != [] ==> s.numbers[|s.numbers| - 1] <= s.noted <= s.numbers[|s.numbers| - 1] + if s.waiting then 0 else 1)
  }

  lemma {:induction false} ConsecutiveKept(s: State, step: Step)
    requires Consecutive(s) && Enabled(s, step)
    ensures Consecutive(Apply(s, step))
  {
    hide WrapSucc, Success, Serve;
    if step.Arrive? && step.message < |s.messages| {
      ServeFrame(s, step.message, Ruling(step.message, s.messages[step.message].kind, step.status, step.delegation, step.confirm), step.finished);
    }
  }

  /**
   * In every run the ids on the wire are consecutive modulo 2^32, each repeated until an exchange
   * with it succeeds; and as long as every ruling is noted, what is sent is what is expected.
   */
  lemma {:induction false} WireIsConsecutive(start: u32, steps: seq<Step>)
    requires Possible(Initial(start), steps) && |After(Initial(start), steps).messages| < TWO32 - 1
    ensures var s := After(Initial(start), steps);
      && Consecutive(s)
      && (forall i :: 0 <= i < |s.messages| ==> s.messages[i].seqid == Nth(start, s.numbers[i]))
      && (AllNoted(Initial(start), steps) && s.waiting && !s.ruled && s.messages != [] ==> s.messages[|s.messages| - 1].seqid == s.expected)
  {
    hide Apply, Enabled, Nth, AllNoted;
    if steps != [] {
      var init, step := steps[..|steps| - 1], steps[|steps| - 1];
      MessagesStay(After(Initial(start), init), step);
      WireIsConsecutive(start, init);
      ConsecutiveKept(After(Initial(start), init), step);
    }
    RunKeeps(start, steps);
  }

  // --- The client -------------------------------------------------------------------------

  /** What happens during one call: copies arrive, and one of the answers may get through. */
  datatype Round = Round(arrivals: seq<Step>, reply: Option<nat>)

  /** The reply that gets through, if there is such an answer to the last message. */
  function Heard(s: State, reply: Option<nat>): Option<nat> {
    if reply.Some? && Answers(s, reply.value) then reply else None
  }

  /** `run` goes round again: the overall status is GRACE or DELAY. */
  predicate Backoff(o: Outcome) {
    var status := match o case NotReached(status) => status case Ruled(r, _) => r.status case BadSeqid => 10026;
    status == Nfs4Reply.NFS4ERR_DELAY || status == Nfs4Reply.NFS4ERR_GRACE
  }

  /** Copies arrive, in order; anything else among the steps is skipped. */
  function Served(s: State, arrivals: seq<Step>): State
    decreases |arrivals|
  {
    if arrivals == [] then s
    else
      var init, step := arrivals[..|arrivals| - 1], arrivals[|arrivals| - 1];
      if step.Arrive? then Apply(Served(s, init), step) else Served(s, init)
  }

  /** One call: the message goes out, copies arrive, and what gets through is the reply. */
  function CallSpec(s: State, kind: Kind, round: Round): (Option<Outcome>, State) {
    var s1 := Served(Apply(s, Send(kind)), round.arrivals);
    var got := Heard(s1, round.reply);
    (if got.Some? && got.value < |s1.answers| then Some(s1.answers[got.value].outcome) else None, Apply(s1, Conclude(got)))
  }

  /** A `run`: calls with the same id while GRACE or DELAY comes back, six at most. */
  function ExchangeSpec(s: State, kind: Kind, rounds: seq<Round>, i: nat): (Option<Outcome>, State)
    requires i < 6
    decreases 6 - i
  {
    var (reply, s') := CallSpec(s, kind, if i < |rounds| then rounds[i] else Round([], None));
    if i == 5 || reply.None? || !Backoff(reply.value) then (reply, s') else ExchangeSpec(s', kind, rounds, i + 1)
  }

  /** Round by round: the reply is the answer that gets through; GRACE and DELAY lead to another round. */
  lemma {:induction false} ExchangeStep(s: State, kind: Kind, rounds: seq<Round>, i: nat)
    requires i < 6 && i < |rounds|
    ensures var s1 := Served(Apply(s, Send(kind)), rounds[i].arrivals);
      var k := rounds[i].reply;
      if k.Some? && k.value < |s1.answers| && s1.answers[k.value].message == |s1.messages| - 1 then
        var o := s1.answers[k.value].outcome;
        var status := match o case NotReached(status) => status case Ruled(r, _) => r.status case BadSeqid => 10026;
        ExchangeSpec(s, kind, rounds, i) ==
          if (status == 10008 || status == 10013) && i < 5 then ExchangeSpec(Apply(s1, Conclude(k)), kind, rounds, i + 1)
          else (Some(o), Apply(s1, Conclude(k)))
      else ExchangeSpec(s, kind, rounds, i) == (None, Apply(s1, Conclude(None)))
  {
    hide Served, Apply;
  }

  /** When the client advances, written out. */
  lemma {:induction false} AdvancesExactly(s: State, k: nat)
    requires s.messages != [] && k < |s.answers|
    ensures var kind, o := s.messages[|s.messages| - 1].kind, s.answers[k].outcome;
      Apply(s, Conclude(Some(k))).client ==
        if o.Ruled? && o.ruling.kind == kind && o.ruling.status == 0 && o.finished && (kind == Opening ==> o.ruling.delegation == 0)
        then WrapSucc(s.client) else s.client
    ensures Apply(s, Conclude(None)).client == s.client
  {
    hide WrapSucc;
  }

  /** Which errors are exempt: RESOURCE, MOVED, NOFILEHANDLE, STALE_CLIENTID, STALE_STATEID, BAD_STATEID, BAD_SEQID, BADXDR. */
  lemma {:induction false} ExemptExactly(status: u32)
    ensures Exempt(status) <==>
      status == 10018 || status == 10019 || status == 10020 || status == 10022 || status == 10023
      || status == 10025 || status == 10026 || status == 10036
  {
  }

  /** An OPEN that is granted with a delegation is refused by the client, and parts the counters. */
  lemma {:induction false} DelegationDisagrees(s: State, delegation: u32, confirm: bool)
    requires Numbered(s) && InStep(s) && s.waiting && !s.ruled && |s.messages| < TWO32 - 1
    requires s.messages[|s.messages| - 1].kind == Opening && delegation != 0
    ensures var m := |s.messages| - 1;
      var s1 := Serve(s, m, Ruling(m, Opening, 0, delegation, confirm), true);
      forall reply: Option<nat> :: Enabled(s1, Conclude(reply)) ==> !Agrees(Apply(s1, Conclude(reply)))
  {
    hide Nth, WrapSucc;
    var m := |s.messages| - 1;
    var ruling := Ruling(m, Opening, 0, delegation, confirm);
    NthNext(s.start, s.noted);
    OneApart(s.start, s.noted);
    ServeInStep(s, m, ruling, true);
    var s1 := Serve(s, m, ruling, true);
    forall reply: Option<nat> | Enabled(s1, Conclude(reply))
      ensures !Agrees(Apply(s1, Conclude(reply)))
    {
      assert reply.Some? ==> !Succeeds(s1, reply.value);
    }
  }

  class Owner {
    var openSeqid: u32
    var lockCounter: u32
    var world: State // messages, network and server
    ghost const start: u32
    ghost var steps: seq<Step>

    ghost predicate Valid()
      reads this
    {
      && Possible(Initial(start), steps) && world == After(Initial(start), steps)
      && world.client == openSeqid && !world.waiting
    }

    constructor ()
      ensures Valid() && steps == [] && openSeqid == 0 && start == 0
    {
      openSeqid, lockCounter, start := 0, 0, 0;
      world, steps := Initial(0), [];
    }

    /** One more step of the world, if it can happen now. */
    method Take(step: Step)
      requires Possible(Initial(start), steps) && world == After(Initial(start), steps) && Enabled(world, step)
      modifies this`world, this`steps
      ensures Possible(Initial(start), steps) && world == After(Initial(start), steps)
      ensures world == Apply(old(world), step)
    {
      hide Apply, Enabled;
      assert (steps + [step])[..|steps|] == steps;
      world, steps := Apply(world, step), steps + [step];
    }

    /** One call with the current id; `ok` when the line that advances the counter is reached. */
    method Call(kind: Kind, round: Round) returns (reply: Option<Outcome>, ok: bool)
      requires Valid()
      modifies this`openSeqid, this`world, this`steps
      ensures (reply, world) == CallSpec(old(world), kind, round)
      ensures Valid() && ok == (reply.Some? && Success(kind, reply.value))
      ensures openSeqid == if ok then WrapSucc(old(openSeqid)) else old(openSeqid)
      ensures world.noted == old(world.noted) + if ok then 1 else 0
      ensures world.messages == old(world.messages) + [Message(kind, old(openSeqid))]
    {
      hide Possible, After, Success, WrapSucc, Serve;
      Take(Send(kind));
      ghost var sent := world;
      assert round.arrivals[..0] == [];
      for i := 0 to |round.arrivals|
        invariant world == Served(sent, round.arrivals[..i])
        invariant Possible(Initial(start), steps) && world == After(Initial(start), steps)
        invariant world.waiting && world.client == old(openSeqid) && openSeqid == old(openSeqid)
        invariant world.noted == old(world.noted) && world.messages == old(world.messages) + [Message(kind, old(openSeqid))]
      {
        var step := round.arrivals[i];
        assert round.arrivals[..i + 1][..i] == round.arrivals[..i] && round.arrivals[..i + 1][i] == step;
        if step.Arrive? {
          if step.message < |world.messages| {
            ServeFrame(world, step.message, Ruling(step.message, world.messages[step.message].kind, step.status, step.delegation, step.confirm), step.finished);
          }
          Take(step);
        }
      }
      assert round.arrivals[..|round.arrivals|] == round.arrivals;
      var got := Heard(world, round.reply);
      reply := if got.Some? then Some(world.answers[got.value].outcome) else None;
      ok := reply.Some? && Success(kind, reply.value);
      if ok {
        openSeqid := WrapSucc(openSeqid);
      }
      Take(Conclude(got));
    }

    /** A compound passed to `run`: the same id again while GRACE or DELAY comes back, six times at most. */
    method Exchange(kind: Kind, rounds: seq<Round>) returns (reply: Option<Outcome>, ok: bool)
      requires Valid()
      modifies this`openSeqid, this`world, this`steps
      ensures (reply, world) == ExchangeSpec(old(world), kind, rounds, 0)
      ensures Valid() && ok == (reply.Some? && Success(kind, reply.value))
      ensures openSeqid == if ok then WrapSucc(old(openSeqid)) else old(openSeqid)
      ensures world.noted == old(world.noted) + if ok then 1 else 0
      ensures Extends(old(world.messages), world.messages, Message(kind, old(openSeqid)), 6)
    {
      hide Valid, Success, WrapSucc, Backoff, CallSpec;
      reply, ok := None, false;
      var i := 0;
      while true
        invariant 0 <= i < 6 && ExchangeSpec(world, kind, rounds, i) == ExchangeSpec(old(world), kind, rounds, 0)
        invariant Valid() && world.noted == old(world.noted) && openSeqid == old(openSeqid)
        invariant world.messages == old(world.messages) || Extends(old(world.messages), world.messages, Message(kind, old(openSeqid)), i)
        decreases 6 - i
      {
        var round := if i < |rounds| then rounds[i] else Round([], None);
        reply, ok := Call(kind, round);
        i := i + 1;
        NotBackoff(kind, reply);
        if i == 6 || reply.None? || !Backoff(reply.value) {
          break;
        }
      }
    }

    /**
     * `open`: OPEN, and OPEN_CONFIRM with the next id if the server asks for it. An OPEN that
     * succeeded has spent its id even when the confirmation fails.
     */
    method Open(rounds: seq<Round>, confirmRounds: seq<Round>) returns (ok: bool, ghost granted: bool, ghost confirm: bool)
      requires Valid()
      modifies this`openSeqid, this`world, this`steps
      ensures var (opened', between) := ExchangeSpec(old(world), Opening, rounds, 0);
        && granted == (opened'.Some? && Success(Opening, opened'.value))
        && confirm == (granted && opened'.value.ruling.confirm)
        && if confirm then
             var (confirmed, after) := ExchangeSpec(between, Confirming, confirmRounds, 0);
             world == after && ok == (confirmed.Some? && Success(Confirming, confirmed.value))
           else world == between && ok == granted
      ensures Valid() && (ok ==> granted) && (granted && !confirm ==> ok)
      ensures world.noted == old(world.noted) + (if !granted then 0 else if ok && confirm then 2 else 1)
      ensures openSeqid == if !granted then old(openSeqid) else if ok && confirm then WrapSucc(WrapSucc(old(openSeqid))) else WrapSucc(old(openSeqid))
      ensures forall i :: |old(world.messages)| <= i < |world.messages| ==>
        || world.messages[i] == Message(Opening, old(openSeqid))
        || (granted && confirm && world.messages[i] == Message(Confirming, WrapSucc(old(openSeqid))))
    {
      hide Valid, WrapSucc, ExchangeSpec;
      var reply;
      reply, ok := Exchange(Opening, rounds);
      granted, confirm := ok, ok && reply.value.ruling.confirm;
      if ok && reply.value.ruling.confirm {
        var _, confirmed := Exchange(Confirming, confirmRounds);
        ok := confirmed;
      }
    }

    method Close(rounds: seq<Round>) returns (ok: bool)
      requires Valid()
      modifies this`openSeqid, this`world, this`steps
      ensures var spec := ExchangeSpec(old(world), Closing, rounds, 0);
        world == spec.1 && ok == (spec.0.Some? && Success(Closing, spec.0.value))
      ensures Valid() && world.noted == old(world.noted) + if ok then 1 else 0
      ensures Extends(old(world.messages), world.messages, Message(Closing, old(openSeqid)), 6)
    {
      hide Valid, Success, WrapSucc, ExchangeSpec;
      var _, done := Exchange(Closing, rounds);
      ok := done;
    }

    /** `lock`: a new lock owner spends an id of the open owner as well. */
    method Lock(rounds: seq<Round>) returns (ok: bool)
      requires Valid()
      modifies this
      ensures var spec := ExchangeSpec(old(world), Locking, rounds, 0);
        world == spec.1 && ok == (spec.0.Some? && Success(Locking, spec.0.value))
      ensures Valid() && world.noted == old(world.noted) + if ok then 1 else 0
      ensures Extends(old(world.messages), world.messages, Message(Locking, old(openSeqid)), 6)
      ensures lockCounter == WrapSucc(old(lockCounter))
    {
      hide Success, WrapSucc, Possible, After, ExchangeSpec;
      lockCounter := WrapSucc(lockCounter);
      var _, done := Exchange(Locking, rounds);
      ok := done;
    }

    /** Whatever led here, the client's id is the server's exactly if every ruling was noted. */
    lemma {:induction false} Agreement()
      requires Valid() && |world.messages| < TWO32 - 1
      ensures AgreesThroughout(start, steps) <==> AllNoted(Initial(start), steps)
      ensures AllNoted(Initial(start), steps) ==> openSeqid == world.expected
    {
      hide Possible, After, AgreesThroughout, AllNoted;
      AgreementIsNoting(start, steps);
      if AllNoted(Initial(start), steps) {
        Settled(start, steps);
      }
    }
  }

  /** From one to `most` messages were added, all of them this one. */
  ghost predicate Extends(before: seq<Message>, after: seq<Message>, m: Message, most: nat) {
    && before < after && |after| <= |before| + most
    && forall i :: |before| <= i < |after| ==> after[i] == m
  }

  lemma {:induction false} NotBackoff(kind: Kind, reply: Option<Outcome>)
    ensures reply.Some? && Success(kind, reply.value) ==> !Backoff(reply.value)
  {
  }
}
