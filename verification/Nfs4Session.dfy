/**
 * NFSv4.1 sessions as a state machine: requests with consecutive sequence ids, a network that
 * loses, duplicates and delays them, and the server's slot (section 2.10.6.1 of RFC 8881). The
 * results say when no compound passed to `run` takes effect twice.
 */
module Nfs4Session {
  import opened Wire
  import opened Nfs4Reply

  // --- The session as a whole -------------------------------------------------------------

  /**
   * What can happen between one client and one slot. Requests are numbered as `assemble` makes
   * them; a copy of any request may reach the server at any time, any number of times, or never.
   */
  datatype Event =
    | NewRun // `run` is called: a request for a new compound
    | Retry // `run` goes round again: a fresh request for the same compound
    | Deliver(request: nat, effect: bool) // a copy arrives; if executed, it has effects or asks to back off
    | SequenceDelay(request: nat) // a copy arrives and SEQUENCE itself answers DELAY, slot untouched

  datatype Execution = Execution(request: nat, effect: bool)

  datatype State = State(
    start: u32, // the client's first sequence id
    compounds: seq<nat>, // for each request, the call of `run` it was made for
    slot: u32, // the last sequence id the server accepted
    executed: seq<Execution>,
    delayed: set<nat>) // requests whose SEQUENCE was answered with DELAY

  function Initial(start: u32, slot: u32): State {
    State(start, [], slot, [], {})
  }

  /** A back-off answer to the request exists, so the client may have seen one. */
  ghost predicate ToldToBackOff(s: State, request: nat) {
    request in s.delayed || Execution(request, false) in s.executed
  }

  ghost predicate Enabled(s: State, e: Event) {
    match e
    case NewRun => true
    case Retry => |s.compounds| > 0 && ToldToBackOff(s, |s.compounds| - 1)
    case Deliver(_, _) => true
    case SequenceDelay(_) => true
  }

  function Latest(s: State): nat {
    if s.compounds == [] then 0 else s.compounds[|s.compounds| - 1]
  }

  /**
   * The slot: the sequence id after the last one is executed, the last one is a repetition
   * answered from the cache, anything else is misordered. Only requests that were made arrive.
   */
  function Apply(s: State, e: Event): State {
    match e
    case NewRun => s.(compounds := s.compounds + [Latest(s) + 1])
    case Retry => s.(compounds := s.compounds + [Latest(s)])
    case Deliver(j, effect) =>
      if j < |s.compounds| && Nth(s.start, j) == WrapSucc(s.slot) then
        s.(slot := Nth(s.start, j), executed := s.executed + [Execution(j, effect)])
      else s
    case SequenceDelay(j) => if j < |s.compounds| then s.(delayed := s.delayed + {j}) else s
  }

  function After(s: State, events: seq<Event>): State {
    if events == [] then s else Apply(After(s, events[..|events| - 1]), events[|events| - 1])
  }

  ghost predicate Possible(s: State, events: seq<Event>) {
    events == [] ||
    (Possible(s, events[..|events| - 1]) && Enabled(After(s, events[..|events| - 1]), events[|events| - 1]))
  }

  /** No two executions with effects are of the same compound. */
  ghost predicate AtMostOnce(s: State) {
    forall a, b :: 0 <= a < b < |s.executed| && s.executed[a].effect && s.executed[b].effect ==>
      s.executed[a].request < |s.compounds| && s.executed[b].request < |s.compounds| &&
      s.compounds[s.executed[a].request] != s.compounds[s.executed[b].request]
  }

  /** Executions are of consecutive requests, and the slot is at the last of them. */
  ghost predicate InOrder(s: State) {
    && (forall a :: 0 <= a < |s.executed| ==> s.executed[a].request < |s.compounds|)
    && (forall a :: 0 < a < |s.executed| ==> s.executed[a].request == s.executed[a - 1].request + 1)
    && (s.executed != [] ==> s.slot == Nth(s.start, s.executed[|s.executed| - 1].request))
  }

  /** Compounds are numbered upwards, and a compound gets a second request only after a back-off. */
  ghost predicate Grouped(s: State) {
    && (forall i, j :: 0 <= i < j < |s.compounds| ==> s.compounds[i] <= s.compounds[j])
    && (forall j :: 0 < j < |s.compounds| && s.compounds[j] == s.compounds[j - 1] ==> ToldToBackOff(s, j - 1))
  }

  lemma {:induction false} OrderKept(s: State, e: Event)
    requires InOrder(s) && Enabled(s, e) && |s.compounds| < TWO32
    ensures InOrder(Apply(s, e))
  {
    hide Nth, WrapSucc;
    if e.Deliver? && e.request < |s.compounds| && Nth(s.start, e.request) == WrapSucc(s.slot) && s.executed != [] {
      var last := s.executed[|s.executed| - 1].request;
      NthNext(s.start, last);
      NthDistinct(s.start, e.request, last + 1);
    }
  }

  lemma {:induction false} GroupsKept(s: State, e: Event)
    requires Grouped(s) && Enabled(s, e)
    ensures Grouped(Apply(s, e))
  {
    hide Nth, WrapSucc;
    var s' := Apply(s, e);
    forall j | 0 < j < |s'.compounds| && s'.compounds[j] == s'.compounds[j - 1]
      ensures ToldToBackOff(s', j - 1)
    {
      if j < |s.compounds| {
        assert ToldToBackOff(s, j - 1);
      }
      StaysTold(s, e, j - 1);
    }
  }

  lemma {:induction false} StaysTold(s: State, e: Event, j: nat)
    ensures ToldToBackOff(s, j) ==> ToldToBackOff(Apply(s, e), j)
  {
    hide Nth, WrapSucc;
  }

  lemma {:induction false} Invariant(start: u32, slot: u32, events: seq<Event>)
    requires Possible(Initial(start, slot), events) && |After(Initial(start, slot), events).compounds| < TWO32
    ensures var s := After(Initial(start, slot), events); InOrder(s) && Grouped(s)
  {
    hide InOrder, Grouped, Enabled;
    if events == [] {
      InitialHolds(start, slot);
    } else {
      var init, e := events[..|events| - 1], events[|events| - 1];
      Invariant(start, slot, init);
      var s := After(Initial(start, slot), init);
      OrderKept(s, e);
      GroupsKept(s, e);
    }
  }

  lemma {:induction false} InitialHolds(start: u32, slot: u32)
    ensures InOrder(Initial(start, slot)) && Grouped(Initial(start, slot))
  {
  }

  /** Consecutive executions are at consecutive requests. */
  lemma {:induction false} ExecutionAt(s: State, a: nat, b: nat)
    requires InOrder(s) && a <= b < |s.executed|
    ensures s.executed[b].request == s.executed[a].request + (b - a)
    decreases b
  {
    if a < b {
      ExecutionAt(s, a, b - 1);
    }
  }

  // --- At most once -----------------------------------------------------------------------

  /** The latest request was executed without effect: the server took the slot to back off. */
  ghost predicate Took(s: State) {
    |s.compounds| > 0 && Execution(|s.compounds| - 1, false) in s.executed
  }

  /** Every retry of the run answers a back-off for which the server took the slot. */
  ghost predicate Grounded(s: State, events: seq<Event>) {
    events == [] ||
    (Grounded(s, events[..|events| - 1]) && (events[|events| - 1].Retry? ==> Took(After(s, events[..|events| - 1]))))
  }

  lemma {:induction false} GroundedIsPossible(s: State, events: seq<Event>)
    requires Grounded(s, events)
    ensures Possible(s, events)
  {
    hide After;
    if events != [] {
      GroundedIsPossible(s, events[..|events| - 1]);
    }
  }

  /** A request that was repeated had been executed without effect. */
  ghost predicate Spent(s: State) {
    forall j :: 0 < j < |s.compounds| && s.compounds[j] == s.compounds[j - 1] ==> Execution(j - 1, false) in s.executed
  }

  lemma {:induction false} SpentKept(s: State, e: Event)
    requires Spent(s) && Grouped(s) && (e.Retry? ==> Took(s))
    ensures Spent(Apply(s, e))
  {
    hide Nth, WrapSucc, ToldToBackOff;
    var s' := Apply(s, e);
    forall j | 0 < j < |s'.compounds| && s'.compounds[j] == s'.compounds[j - 1]
      ensures Execution(j - 1, false) in s'.executed
    {
      if j < |s.compounds| {
        assert Execution(j - 1, false) in s.executed;
      }
    }
  }

  lemma {:induction false} GroundedSpent(start: u32, slot: u32, events: seq<Event>)
    requires Grounded(Initial(start, slot), events) && |After(Initial(start, slot), events).compounds| < TWO32
    ensures Spent(After(Initial(start, slot), events))
  {
    hide Apply, Took, Spent;
    var s0 := Initial(start, slot);
    if events == [] {
      InitialSpent(start, slot);
    } else {
      var init, e := events[..|events| - 1], events[|events| - 1];
      Shrinks(After(s0, init), e);
      GroundedSpent(start, slot, init);
      GroundedIsPossible(s0, init);
      Invariant(start, slot, init);
      SpentKept(After(s0, init), e);
    }
  }

  lemma {:induction false} InitialSpent(start: u32, slot: u32)
    ensures Spent(Initial(start, slot))
  {
  }

  lemma {:induction false} Shrinks(s: State, e: Event)
    ensures |s.compounds| <= |Apply(s, e).compounds| && s.compounds <= Apply(s, e).compounds
  {
    hide Nth, WrapSucc;
  }

  /**
   * At most once. In every run of fewer than 2^32 requests whose retries answer back-offs that
   * took the slot, whatever is lost, duplicated or delayed and however often SEQUENCE itself
   * answers DELAY, no compound takes effect twice.
   */
  lemma {:induction false} CompoundsTakeEffectOnce(start: u32, slot: u32, events: seq<Event>)
    requires Grounded(Initial(start, slot), events) && |After(Initial(start, slot), events).compounds| < TWO32
    ensures AtMostOnce(After(Initial(start, slot), events))
  {
    hide After, Possible, Grounded;
    GroundedIsPossible(Initial(start, slot), events);
    Invariant(start, slot, events);
    GroundedSpent(start, slot, events);
    var s := After(Initial(start, slot), events);
    forall a, b | 0 <= a < b < |s.executed| && s.executed[a].effect && s.executed[b].effect
      ensures s.compounds[s.executed[a].request] != s.compounds[s.executed[b].request]
    {
      var i, j := s.executed[a].request, s.executed[b].request;
      ExecutionAt(s, a, b);
      if s.compounds[i] == s.compounds[j] {
        assert s.compounds[i] <= s.compounds[i + 1] && (i + 1 < j ==> s.compounds[i + 1] <= s.compounds[j]);
        assert s.compounds[i + 1] == s.compounds[i + 1 - 1];
        OnlyExecution(s, a, i);
        assert false;
      }
    }
  }

  /** A request is executed once, so with effect or without. */
  lemma {:induction false} OnlyExecution(s: State, a: nat, i: nat)
    requires InOrder(s) && a < |s.executed| && s.executed[a] == Execution(i, true)
    ensures Execution(i, false) !in s.executed
  {
    if Execution(i, false) in s.executed {
      var c :| 0 <= c < |s.executed| && s.executed[c] == Execution(i, false);
      if c < a {
        ExecutionAt(s, c, a);
      } else {
        ExecutionAt(s, a, c);
      }
    }
  }

  ghost predicate NoSequenceDelay(events: seq<Event>) {
    forall i :: 0 <= i < |events| ==> !events[i].SequenceDelay?
  }

  lemma {:induction false} NothingDelayed(s: State, events: seq<Event>)
    requires NoSequenceDelay(events)
    ensures After(s, events).delayed == s.delayed
  {
    hide Nth, WrapSucc;
    if events != [] {
      NothingDelayed(s, events[..|events| - 1]);
    }
  }

  /** In particular when the server only ever backs off after taking the request's slot. */
  lemma {:induction false} CompoundsTakeEffectOnceOnSlotServers(start: u32, slot: u32, events: seq<Event>)
    requires Possible(Initial(start, slot), events) && |After(Initial(start, slot), events).compounds| < TWO32
    requires NoSequenceDelay(events)
    ensures AtMostOnce(After(Initial(start, slot), events))
  {
    SlotServersGround(Initial(start, slot), events);
    CompoundsTakeEffectOnce(start, slot, events);
  }

  lemma {:induction false} SlotServersGround(s: State, events: seq<Event>)
    requires Possible(s, events) && NoSequenceDelay(events) && s.delayed == {}
    ensures Grounded(s, events)
  {
    hide After;
    if events != [] {
      SlotServersGround(s, events[..|events| - 1]);
      NothingDelayed(s, events[..|events| - 1]);
    }
  }

  /** And when nothing is retried at all, which is so when replies are standard ones. */
  lemma {:induction false} CompoundsTakeEffectOnceWithoutRetries(start: u32, slot: u32, events: seq<Event>)
    requires |After(Initial(start, slot), events).compounds| < TWO32
    requires forall i :: 0 <= i < |events| ==> !events[i].Retry?
    ensures AtMostOnce(After(Initial(start, slot), events))
  {
    NoRetriesGround(Initial(start, slot), events);
    CompoundsTakeEffectOnce(start, slot, events);
  }

  lemma {:induction false} NoRetriesGround(s: State, events: seq<Event>)
    requires forall i :: 0 <= i < |events| ==> !events[i].Retry?
    ensures Grounded(s, events)
  {
    hide After;
    if events != [] {
      NoRetriesGround(s, events[..|events| - 1]);
    }
  }

  // --- The condition is exact -------------------------------------------------------------

  /** The number of the request that a server whose slot holds `slot` executes first. */
  function FirstRequest(start: u32, slot: u32): nat {
    (slot + 1 - start) % TWO32
  }

  lemma {:induction false} FirstRequestSeq(start: u32, slot: u32)
    ensures FirstRequest(start, slot) < TWO32 && Nth(start, FirstRequest(start, slot)) == WrapSucc(slot)
  {
  }

  /** The request the server is waiting for comes right after those it has executed. */
  lemma {:induction false} NextToExecute(start: u32, slot: u32, events: seq<Event>)
    requires Possible(Initial(start, slot), events) && |After(Initial(start, slot), events).compounds| < TWO32
    ensures var s, first := After(Initial(start, slot), events), FirstRequest(start, slot);
      && s.start == start
      && WrapSucc(s.slot) == Nth(start, first + |s.executed|)
      && (forall a :: 0 <= a < |s.executed| ==> s.executed[a].request == first + a)
      && InOrder(s)
  {
    hide After, Possible, Nth, WrapSucc, FirstRequest, Grouped;
    var s, first := After(Initial(start, slot), events), FirstRequest(start, slot);
    Invariant(start, slot, events);
    FirstSeq(start, slot, events);
    FirstRequestSeq(start, slot);
    if s.executed != [] {
      NthDistinct(start, s.executed[0].request, first);
      forall a | 0 <= a < |s.executed|
        ensures s.executed[a].request == first + a
      {
        ExecutionAt(s, 0, a);
      }
      NthNext(start, first + |s.executed| - 1);
    }
  }

  /** Copies of the requests from one number up to another, arriving in order. */
  function Deliveries(lo: nat, hi: nat): seq<Event>
    requires lo <= hi
    decreases hi
  {
    if lo == hi then [] else Deliveries(lo, hi - 1) + [Deliver(hi - 1, true)]
  }

  lemma {:induction false} DeliveriesOutside(lo: nat, hi: nat)
    requires lo <= hi
    ensures Outside(Deliveries(lo, hi))
    decreases hi
  {
    if lo < hi {
      DeliveriesOutside(lo, hi - 1);
    }
  }

  /** The network can always deliver what the server has not executed yet, and it is executed. */
  lemma {:induction false} CatchUp(start: u32, slot: u32, events: seq<Event>, lo: nat, hi: nat)
    requires Possible(Initial(start, slot), events) && |After(Initial(start, slot), events).compounds| < TWO32
    requires lo == FirstRequest(start, slot) + |After(Initial(start, slot), events).executed| <= hi
    requires hi <= |After(Initial(start, slot), events).compounds|
    ensures var s, s' := After(Initial(start, slot), events), After(Initial(start, slot), events + Deliveries(lo, hi));
      && Possible(Initial(start, slot), events + Deliveries(lo, hi))
      && s'.compounds == s.compounds
      && s.executed <= s'.executed && |s'.executed| == |s.executed| + hi - lo
      && forall i :: lo <= i < hi ==> s'.executed[|s.executed| + i - lo] == Execution(i, true)
    decreases hi
  {
    hide After, Possible, Nth, WrapSucc, FirstRequest, InOrder;
    var s0 := Initial(start, slot);
    if lo == hi {
      assert events + Deliveries(lo, hi) == events;
    } else {
      CatchUp(start, slot, events, lo, hi - 1);
      var sofar := events + Deliveries(lo, hi - 1);
      NextToExecute(start, slot, sofar);
      Extend(s0, sofar, Deliver(hi - 1, true));
      Assoc(events, Deliveries(lo, hi - 1), [Deliver(hi - 1, true)]);
    }
  }

  /**
   * A retry of the other kind can be undone by the network: if SEQUENCE told the latest request
   * to back off and that request has not been executed without effect, then once the client
   * retries, deliveries alone make the compound take effect twice.
   */
  lemma {:induction false} UngroundedRetryRepeats(start: u32, slot: u32, events: seq<Event>) returns (more: seq<Event>)
    requires Possible(Initial(start, slot), events + [Retry]) && !Took(After(Initial(start, slot), events))
    requires FirstRequest(start, slot) < |After(Initial(start, slot), events).compounds| < TWO32 - 1
    ensures Outside(more) && Possible(Initial(start, slot), events + [Retry] + more)
    ensures !AtMostOnce(After(Initial(start, slot), events + [Retry] + more))
  {
    hide After, Possible, Nth, WrapSucc, FirstRequest;
    var s0 := Initial(start, slot);
    var s := After(s0, events);
    var j := |s.compounds| - 1;
    Retraces(s0, events);
    NextToExecute(start, slot, events);
    var from := FirstRequest(start, slot) + |s.executed|;
    more := Deliveries(from, j + 2);
    DeliveriesOutside(from, j + 2);
    CatchUp(start, slot, events + [Retry], from, j + 2);
    var s' := After(s0, events + [Retry] + more);
    var a := j - FirstRequest(start, slot);
    if a < |s.executed| {
      assert s.executed[a].request == j;
      assert s.executed[a].effect by {
        assert s.executed[a] == Execution(j, s.executed[a].effect);
      }
    }
    assert s'.executed[a] == Execution(j, true);
    assert s'.executed[a + 1] == Execution(j + 1, true);
    assert s'.compounds[j] == s'.compounds[j + 1];
  }

  /** The run before a possible last step was possible, and the step was enabled. */
  lemma {:induction false} Retraces(s: State, events: seq<Event>)
    requires Possible(s, events + [Retry])
    ensures Possible(s, events) && Enabled(After(s, events), Retry)
    ensures After(s, events + [Retry]) == Apply(After(s, events), Retry)
  {
    hide Enabled, Apply;
    assert (events + [Retry])[..|events|] == events;
  }

  /**
   * The condition, exactly: after a run with grounded retries, one more retry is safe whatever
   * the network then delivers if and only if it is grounded too.
   */
  lemma {:induction false} RetryIsSafeExactly(start: u32, slot: u32, events: seq<Event>)
    requires Grounded(Initial(start, slot), events) && Possible(Initial(start, slot), events + [Retry])
    requires FirstRequest(start, slot) < |After(Initial(start, slot), events).compounds| < TWO32 - 1
    ensures (forall more :: Outside(more) ==> AtMostOnce(After(Initial(start, slot), events + [Retry] + more)))
       <==> Took(After(Initial(start, slot), events))
  {
    hide After, Possible, Took, AtMostOnce, FirstRequest;
    var s0 := Initial(start, slot);
    if Took(After(s0, events)) {
      Retraces(s0, events);
      assert (events + [Retry])[..|events|] == events;
      forall more | Outside(more)
        ensures AtMostOnce(After(s0, events + [Retry] + more))
      {
        OutsideGrounded(s0, events + [Retry], more);
        CompoundsTakeEffectOnce(start, slot, events + [Retry] + more);
      }
    } else {
      var more := UngroundedRetryRepeats(start, slot, events);
    }
  }

  /** Arrivals keep a run grounded and make no requests. */
  lemma {:induction false} OutsideGrounded(s: State, past: seq<Event>, more: seq<Event>)
    requires Grounded(s, past) && Outside(more)
    ensures Grounded(s, past + more) && After(s, past + more).compounds == After(s, past).compounds
  {
    hide Took, Nth, WrapSucc;
    if more == [] {
      assert past + more == past;
    } else {
      var init := more[..|more| - 1];
      OutsideGrounded(s, past, init);
      assert (past + more)[..|past + more| - 1] == past + init;
    }
  }

  /**
   * The price of a fresh id for every message: until some copy of the request that the server
   * waits for arrives, nothing is executed, whatever else is sent or delivered.
   */
  lemma {:induction false} LostRequestStopsSession(start: u32, slot: u32, events: seq<Event>, more: seq<Event>)
    requires Possible(Initial(start, slot), events + more)
    requires |After(Initial(start, slot), events + more).compounds| < TWO32
    requires var next := FirstRequest(start, slot) + |After(Initial(start, slot), events).executed|;
      forall i :: 0 <= i < |more| ==> !(more[i].Deliver? && more[i].request == next)
    ensures After(Initial(start, slot), events + more).executed == After(Initial(start, slot), events).executed
  {
    hide Nth, WrapSucc, FirstRequest, Enabled, Apply, InOrder;
    var s0 := Initial(start, slot);
    if more == [] {
      assert events + more == events;
    } else {
      var init, e := more[..|more| - 1], more[|more| - 1];
      assert (events + more)[..|events + more| - 1] == events + init;
      var s := After(s0, events + init);
      Shrinks(s, e);
      LostRequestStopsSession(start, slot, events, init);
      NextToExecute(start, slot, events + init);
      FirstRequestSeq(start, slot);
      NotExecuted(s, e, FirstRequest(start, slot) + |s.executed|);
    }
  }

  lemma {:induction false} NotExecuted(s: State, e: Event, next: nat)
    requires WrapSucc(s.slot) == Nth(s.start, next) && |s.compounds| < TWO32 && InOrder(s)
    requires if s.executed == [] then next < TWO32 else next == s.executed[|s.executed| - 1].request + 1
    requires !(e.Deliver? && e.request == next)
    ensures Apply(s, e).executed == s.executed
  {
    hide Nth, WrapSucc;
    if e.Deliver? && e.request < |s.compounds| && Nth(s.start, e.request) == Nth(s.start, next) {
      NthDistinct(s.start, e.request, next);
      assert false;
    }
  }

  /**
   * Such a run, with the bytes that bring it about: SEQUENCE answers DELAY (in the form the
   * client understands), the client retries, and a late copy of the first request is executed
   * before the second.
   */
  lemma {:induction false} DelayedDuplicateTakesEffectTwice()
    ensures var events := [NewRun, SequenceDelay(0), Retry, Deliver(0, true), Deliver(1, true)];
      Possible(Initial(1, 0), events) && !AtMostOnce(After(Initial(1, 0), events))
    ensures var reply := CompoundResult(NFS4ERR_DELAY, [], 1, PutU32(OP_SEQUENCE) + (PutU32(NFS4ERR_DELAY) + []));
      Retried(Ok(reply)) && !SequenceTook(reply)
  {
    hide After, Possible, Retried, SequenceStatus;
    WrappedBackoffIsRetried(NFS4ERR_DELAY, 1, NFS4ERR_DELAY, []);
    DelayedDuplicateRun();
  }

  lemma {:induction false} DelayedDuplicateRun()
    ensures var events := [NewRun, SequenceDelay(0), Retry, Deliver(0, true), Deliver(1, true)];
      Possible(Initial(1, 0), events) && !AtMostOnce(After(Initial(1, 0), events))
  {
    hide After, Possible;
    var s0 := Initial(1, 0);
    Nothing(s0);
    Extend(s0, [], NewRun);
    var e1 := [] + [NewRun];
    assert After(s0, e1) == State(1, [1], 0, [], {});
    Extend(s0, e1, SequenceDelay(0));
    var e2 := e1 + [SequenceDelay(0)];
    Extend(s0, e2, Retry);
    var e3 := e2 + [Retry];
    Extend(s0, e3, Deliver(0, true));
    var e4 := e3 + [Deliver(0, true)];
    assert After(s0, e4) == State(1, [1, 1], 1, [Execution(0, true)], {0});
    Extend(s0, e4, Deliver(1, true));
    var e5 := e4 + [Deliver(1, true)];
    var s := After(s0, e5);
    assert s == State(1, [1, 1], 2, [Execution(0, true), Execution(1, true)], {0});
    assert s.executed[0].effect && s.executed[1].effect;
    assert e5 == [NewRun, SequenceDelay(0), Retry, Deliver(0, true), Deliver(1, true)];
  }

  lemma {:induction false} Nothing(s: State)
    ensures Possible(s, []) && After(s, []) == s
  {
  }

  lemma {:induction false} Extend(s: State, events: seq<Event>, e: Event)
    requires Possible(s, events) && Enabled(After(s, events), e)
    ensures Possible(s, events + [e]) && After(s, events + [e]) == Apply(After(s, events), e)
  {
    hide Enabled, Apply;
    assert (events + [e])[..|events|] == events;
  }

  /**
   * The first request the server ever executes is the one whose id follows the slot's initial
   * value: the very first one exactly when `csr_sequence` is that value plus one.
   */
  lemma {:induction false} FirstExecution(start: u32, slot: u32, events: seq<Event>)
    requires Possible(Initial(start, slot), events) && |After(Initial(start, slot), events).compounds| < TWO32
    ensures var s := After(Initial(start, slot), events);
      s.executed != [] ==>
        && Nth(start, s.executed[0].request) == WrapSucc(slot)
        && (s.executed[0].request == 0 <==> start == WrapSucc(slot))
  {
    hide Nth, WrapSucc, Enabled;
    var s := After(Initial(start, slot), events);
    FirstSeq(start, slot, events);
    if s.executed != [] {
      NthZero(start);
      Invariant(start, slot, events);
      var j := s.executed[0].request;
      if start == WrapSucc(slot) {
        NthDistinct(start, 0, j);
      }
    }
  }

  lemma {:induction false} FirstSeq(start: u32, slot: u32, events: seq<Event>)
    ensures var s := After(Initial(start, slot), events);
      && s.start == start
      && (s.executed == [] ==> s.slot == slot)
      && (s.executed != [] ==> Nth(start, s.executed[0].request) == WrapSucc(slot))
  {
    hide Nth, WrapSucc;
    if events != [] {
      FirstSeq(start, slot, events[..|events| - 1]);
    }
  }

  // --- Arrivals ---------------------------------------------------------------------------

  /** What happens outside the client while it waits: copies arrive, nothing is made. */
  ghost predicate Outside(events: seq<Event>) {
    forall i :: 0 <= i < |events| ==> events[i].Deliver? || events[i].SequenceDelay?
  }

  lemma {:induction false} AfterConcat(s: State, a: seq<Event>, b: seq<Event>)
    ensures After(s, a + b) == After(After(s, a), b)
  {
    hide Apply;
    if b == [] {
      assert a + b == a;
    } else {
      AfterConcat(s, a, b[..|b| - 1]);
      assert (a + b)[..|a + b| - 1] == a + b[..|b| - 1];
    }
  }

  lemma {:induction false} OutsideCompounds(s: State, past: seq<Event>, more: seq<Event>)
    requires Outside(more)
    ensures After(s, past + more).compounds == After(s, past).compounds
  {
    hide Nth, WrapSucc;
    if more == [] {
      assert past + more == past;
    } else {
      OutsideCompounds(s, past, more[..|more| - 1]);
      assert (past + more)[..|past + more| - 1] == past + more[..|more| - 1];
    }
  }

  /** Arrivals are always possible and make no requests. */
  lemma {:induction false} OutsidePossible(s: State, past: seq<Event>, more: seq<Event>)
    requires Possible(s, past) && Outside(more)
    ensures Possible(s, past + more) && |After(s, past + more).compounds| == |After(s, past).compounds|
  {
    hide Nth, WrapSucc, After, Possible;
    if more == [] {
      assert past + more == past;
    } else {
      var init, last := more[..|more| - 1], more[|more| - 1];
      OutsidePossible(s, past, init);
      Extend(s, past + init, last);
      assert past + more == (past + init) + [last];
    }
  }
}
