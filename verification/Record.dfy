/**
 * Record marking over byte streams (section 11 of RFC 5531): `frame` and `RecordReassembler`.
 *
 * `Parse` reads a whole stream at once. `Next` is one call of `next_record` on whatever has
 * been received so far. The theorems say that the incremental machine, fed in any pieces and
 * polled at any moments, computes the same records and the same first error as `Parse`.
 */
module Record {
  import opened Wire

  const LAST_FRAGMENT: int := 0x8000_0000
  const DEFAULT_MAX_RECORD: nat := 16 * 1024 * 1024

  /** The only error this layer raises. */
  datatype TooLarge = RecordTooLarge

  // --- Sending ----------------------------------------------------------------------------

  function Header(last: bool, len: nat): u32
    requires len < LAST_FRAGMENT
  {
    if last then LAST_FRAGMENT + len else len
  }

  /** `frame`: one fragment, marked as the last. */
  function Frame(record: Bytes): Result<Bytes, TooLarge> {
    if |record| >= LAST_FRAGMENT then Err(RecordTooLarge)
    else Ok(PutU32(Header(true, |record|)) + record)
  }

  // --- The whole-stream parser ------------------------------------------------------------

  datatype Ending = Pending | Oversized

  /** The records a stream holds, and whether it then just stops or holds an oversized one. */
  datatype Parsed = Parsed(records: seq<Bytes>, ending: Ending)

  function Prepend(rs: seq<Bytes>, p: Parsed): Parsed {
    Parsed(rs + p.records, p.ending)
  }

  /** Parses from a fragment boundary, `acc` being the fragments already read of this record. */
  function Parse(max: nat, acc: Bytes, s: Bytes): Parsed
    decreases |s|, 0
  {
    if |s| < 4 then Parsed([], Pending)
    else
      var header := GetU32(s);
      var len := header % LAST_FRAGMENT;
      if |acc| + len > max then Parsed([], Oversized)
      else ParseFragment(max, acc, header >= LAST_FRAGMENT, len, s[4..])
  }

  /** Parses from inside a fragment of which `len` bytes are still to come. */
  function ParseFragment(max: nat, acc: Bytes, last: bool, len: nat, s: Bytes): Parsed
    decreases |s|, 1
  {
    if |s| < len then Parsed([], Pending)
    else if last then Prepend([acc + s[..len]], Parse(max, [], s[len..]))
    else Parse(max, acc + s[..len], s[len..])
  }

  /** Later bytes change nothing about the records already there, nor about an oversized one. */
  ghost predicate Continues(p: Parsed, q: Parsed) {
    p.records <= q.records && (p.ending == Oversized ==> q == p)
  }

  lemma {:induction false} ParseMore(max: nat, acc: Bytes, s: Bytes, more: Bytes)
    ensures Continues(Parse(max, acc, s), Parse(max, acc, s + more))
    decreases |s|, 0
  {
    hide GetU32;
    if |s| >= 4 {
      assert (s + more)[..4] == s[..4] && (s + more)[4..] == s[4..] + more;
      SameWord(s, more);
      var len := GetU32(s) % LAST_FRAGMENT;
      if |acc| + len <= max {
        ParseFragmentMore(max, acc, GetU32(s) >= LAST_FRAGMENT, len, s[4..], more);
      }
    }
  }

  lemma {:induction false} SameWord(s: Bytes, more: Bytes)
    requires |s| >= 4
    ensures GetU32(s + more) == GetU32(s)
  {
  }

  lemma {:induction false} ParseFragmentMore(max: nat, acc: Bytes, last: bool, len: nat, s: Bytes, more: Bytes)
    ensures Continues(ParseFragment(max, acc, last, len, s), ParseFragment(max, acc, last, len, s + more))
    decreases |s|, 1
  {
    if |s| >= len {
      assert (s + more)[..len] == s[..len] && (s + more)[len..] == s[len..] + more;
      ParseMore(max, if last then [] else acc + s[..len], s[len..], more);
    }
  }

  // --- The reassembler, one call at a time ------------------------------------------------

  /** The fields of `RecordReassembler`. */
  datatype State = State(stream: Bytes, record: Bytes, fragRemaining: Option<nat>, lastFragment: bool)

  const FRESH: State := State([], [], None, false)

  datatype Polled = Polled(state: State, result: Result<Option<Bytes>, TooLarge>)

  function Push(st: State, data: Bytes): State {
    st.(stream := st.stream + data)
  }

  /** One round of the loop in `next_record`: either a new state, or a state and a result. */
  datatype Round = Again(next: State) | Done(polled: Polled)

  function Step(max: nat, st: State): Round {
    match st.fragRemaining
    case None =>
      if |st.stream| < 4 then Done(Polled(st, Ok(None)))
      else
        var header := GetU32(st.stream);
        var len := header % LAST_FRAGMENT;
        var st' := st.(stream := st.stream[4..], lastFragment := header >= LAST_FRAGMENT);
        if |st.record| + len > max then Done(Polled(st', Err(RecordTooLarge)))
        else Again(st'.(fragRemaining := Some(len)))
    case Some(n) =>
      if n == 0 then
        if st.lastFragment then
          Done(Polled(State(st.stream, [], None, false), Ok(Some(st.record))))
        else Again(st.(fragRemaining := None))
      else if st.stream == [] then Done(Polled(st, Ok(None)))
      else
        var take := if n < |st.stream| then n else |st.stream|;
        Again(st.(stream := st.stream[take..], record := st.record + st.stream[..take],
                  fragRemaining := Some(n - take)))
  }

  function Rank(st: State): nat {
    if st.fragRemaining == Some(0) then 1 else 0
  }

  function Next(max: nat, st: State): Polled
    decreases |st.stream|, Rank(st)
  {
    match Step(max, st)
    case Done(p) => p
    case Again(st') => Next(max, st')
  }

  // --- Agreement of the two ---------------------------------------------------------------

  /** What `Parse` would still find, given where the machine stands and what is buffered. */
  function Resume(max: nat, st: State): Parsed {
    match st.fragRemaining
    case None => Parse(max, st.record, st.stream)
    case Some(n) => ParseFragment(max, st.record, st.lastFragment, n, st.stream)
  }

  lemma {:induction false} PrependConcat(a: seq<Bytes>, b: seq<Bytes>, p: Parsed)
    ensures Prepend(a, Prepend(b, p)) == Prepend(a + b, p)
    ensures Prepend([], p) == p
  {
    Assoc(a, b, p.records);
  }

  /** A round changes nothing about what the stream, however it continues, still holds. */
  lemma {:induction false} StepResumes(max: nat, st: State, more: Bytes)
    ensures match Step(max, st)
      case Again(st') => Resume(max, Push(st', more)) == Resume(max, Push(st, more))
      case Done(Polled(st', Ok(None))) => st' == st && Resume(max, st) == Parsed([], Pending)
      case Done(Polled(st', Ok(Some(rec)))) =>
        Resume(max, Push(st, more)) == Prepend([rec], Resume(max, Push(st', more)))
      case Done(Polled(_, Err(_))) => Resume(max, Push(st, more)) == Parsed([], Oversized)
  {
    hide PutU32;
    var s := st.stream + more;
    match st.fragRemaining
    case None =>
      if |st.stream| >= 4 {
        assert s[..4] == st.stream[..4] && s[4..] == st.stream[4..] + more;
      }
    case Some(n) =>
      if n == 0 {
        assert s[..0] == [] && s[0..] == s && st.record + [] == st.record;
      } else if st.stream != [] {
        var take := if n < |st.stream| then n else |st.stream|;
        FragmentSplit(max, st.record, st.lastFragment, n, s, take);
        assert s[take..] == st.stream[take..] + more && s[..take] == st.stream[..take];
      }
  }

  /** Reading a fragment in two goes is reading it in one. */
  lemma {:induction false} FragmentSplit(max: nat, acc: Bytes, last: bool, n: nat, s: Bytes, take: nat)
    requires take <= n && take <= |s|
    ensures ParseFragment(max, acc, last, n, s)
         == ParseFragment(max, acc + s[..take], last, n - take, s[take..])
  {
    if |s| >= n {
      assert s[..take] + s[take..][..n - take] == s[..n];
      Assoc(acc, s[..take], s[take..][..n - take]);
      assert s[take..][n - take..] == s[n..];
    }
  }

  /** A whole call of `next_record` does what its rounds do. */
  lemma {:induction false} NextResumes(max: nat, st: State, more: Bytes)
    ensures var p := Next(max, st);
      match p.result
      case Ok(None) =>
        && Resume(max, Push(p.state, more)) == Resume(max, Push(st, more))
        && Resume(max, st) == Parsed([], Pending)
      case Ok(Some(rec)) => Resume(max, Push(st, more)) == Prepend([rec], Resume(max, Push(p.state, more)))
      case Err(_) => Resume(max, Push(st, more)) == Parsed([], Oversized)
    decreases |st.stream|, Rank(st)
  {
    hide Resume;
    StepResumes(max, st, more);
    match Step(max, st)
    case Done(_) =>
    case Again(st') =>
      NextResumes(max, st', more);
      StepResumes(max, st, []);
      PushNothing(st);
      PushNothing(st');
  }

  lemma {:induction false} PushNothing(st: State)
    ensures Push(st, []) == st
  {
    assert st.stream + [] == st.stream;
  }

  // --- Memory bound -----------------------------------------------------------------------

  predicate Bounded(max: nat, st: State) {
    |st.record| + (if st.fragRemaining.Some? then st.fragRemaining.value else 0) <= max
  }

  function Buffered(st: State): nat {
    |st.stream| + |st.record|
  }

  /** No call lets a record outgrow the limit, and polling to the end leaves little behind. */
  lemma {:induction false} NextBounded(max: nat, st: State)
    requires Bounded(max, st)
    ensures var p := Next(max, st);
      && Bounded(max, p.state)
      && (p.result == Ok(None) ==> Buffered(p.state) <= max + 3)
    decreases |st.stream|, Rank(st)
  {
    hide GetU32;
    match Step(max, st)
    case Done(_) =>
    case Again(st') => NextBounded(max, st');
  }

  /** Polls that keep finding records run out: each consumes a header or the pending boundary. */
  function Work(st: State): nat {
    |st.stream| + Rank(st)
  }

  lemma {:induction false} NextProgress(max: nat, st: State)
    ensures var p := Next(max, st);
      && Work(p.state) <= Work(st)
      && (p.result.Ok? && p.result.value.Some? ==> Work(p.state) < Work(st))
    decreases |st.stream|, Rank(st)
  {
    hide GetU32;
    match Step(max, st)
    case Done(_) =>
    case Again(st') => NextProgress(max, st');
  }

  // --- Every run --------------------------------------------------------------------------

  /** What a caller does to a reassembler, in any order. */
  datatype Event = Feed(data: Bytes) | Poll

  /** State, records handed out, and whether an error has been reported. */
  datatype Trace = Trace(state: State, emitted: seq<Bytes>, failed: bool, lastWasNone: bool)

  function Run(max: nat, events: seq<Event>): Trace {
    if events == [] then Trace(FRESH, [], false, false)
    else
      var t := Run(max, events[..|events| - 1]);
      match events[|events| - 1]
      case Feed(data) => t.(state := Push(t.state, data), lastWasNone := false)
      case Poll =>
        var p := Next(max, t.state);
        match p.result
        case Ok(None) => t.(state := p.state, lastWasNone := true)
        case Ok(Some(rec)) => t.(state := p.state, emitted := t.emitted + [rec], lastWasNone := false)
        case Err(_) => t.(state := p.state, failed := true, lastWasNone := false)
  }

  function Fed(events: seq<Event>): Bytes {
    if events == [] then []
    else
      var before := Fed(events[..|events| - 1]);
      match events[|events| - 1]
      case Feed(data) => before + data
      case Poll => before
  }

  /** No earlier poll of the run failed. */
  predicate Clean(max: nat, events: seq<Event>) {
    events == [] || !Run(max, events[..|events| - 1]).failed
  }

  /** The invariant of a run: handed-out records plus what is still to come are the parse. */
  lemma {:induction false} RunResumes(max: nat, events: seq<Event>, more: Bytes)
    requires !Run(max, events).failed
    ensures var t := Run(max, events);
      Parse(max, [], Fed(events) + more) == Prepend(t.emitted, Resume(max, Push(t.state, more)))
  {
    hide Parse, ParseFragment, Next;
    if events == [] {
      assert [] + more == more;
    } else {
      var init := events[..|events| - 1];
      var t := Run(max, init);
      match events[|events| - 1]
      case Feed(data) =>
        RunResumes(max, init, data + more);
        Assoc(Fed(init), data, more);
        Assoc(t.state.stream, data, more);
      case Poll =>
        RunResumes(max, init, more);
        NextResumes(max, t.state, more);
        var p := Next(max, t.state);
        if p.result.Ok? && p.result.value.Some? {
          PrependConcat(t.emitted, [p.result.value.value], Resume(max, Push(p.state, more)));
        }
    }
  }

  /**
   * Chunking independence. Until an error is reported, the records handed out are a prefix of
   * the parse of everything fed; they are all of it when the last poll found nothing; and an
   * error is reported at exactly the record where the parse finds an oversized one.
   */
  lemma {:induction false} ChunkingIndependence(max: nat, events: seq<Event>)
    requires Clean(max, events)
    ensures var t, whole := Run(max, events), Parse(max, [], Fed(events));
      && t.emitted <= whole.records
      && (t.lastWasNone && !t.failed ==> whole == Parsed(t.emitted, Pending))
      && (t.failed ==> whole == Parsed(t.emitted, Oversized))
  {
    hide Parse, Resume, Next;
    assert Fed(events) + [] == Fed(events);
    if events != [] {
      var init := events[..|events| - 1];
      var t := Run(max, init);
      PushNothing(t.state);
      RunResumes(max, init, []);
      assert Fed(init) + [] == Fed(init);
      NextResumes(max, t.state, []);
      assert t.emitted + [] == t.emitted;
    }
    if !Run(max, events).failed {
      RunResumes(max, events, []);
      PushNothing(Run(max, events).state);
    }
  }

  /** The bounds hold in every run, even after an error. */
  lemma {:induction false} RunBounded(max: nat, events: seq<Event>)
    ensures Bounded(max, Run(max, events).state)
    ensures Run(max, events).lastWasNone ==> Buffered(Run(max, events).state) <= max + 3
  {
    if events != [] {
      var init := events[..|events| - 1];
      RunBounded(max, init);
      NextBounded(max, Run(max, init).state);
    }
  }

  /** How many fragment headers a poll consumes. */
  function Headers(max: nat, st: State): nat
    decreases |st.stream|, Rank(st)
  {
    var own := if st.fragRemaining.None? && |st.stream| >= 4 then 1 else 0;
    match Step(max, st)
    case Done(_) => own
    case Again(st') => own + Headers(max, st')
  }

  function RunHeaders(max: nat, events: seq<Event>): nat {
    if events == [] then 0
    else
      var init := events[..|events| - 1];
      RunHeaders(max, init) + if events[|events| - 1].Poll? then Headers(max, Run(max, init).state) else 0
  }

  function Total(records: seq<Bytes>): nat {
    if records == [] then 0 else Total(records[..|records| - 1]) + |records[|records| - 1]|
  }

  lemma {:induction false} NextConserves(max: nat, st: State)
    ensures var p := Next(max, st);
      Buffered(st) == 4 * Headers(max, st) + Buffered(p.state)
                    + if p.result.Ok? && p.result.value.Some? then |p.result.value.value| else 0
    decreases |st.stream|, Rank(st)
  {
    hide GetU32;
    match Step(max, st)
    case Done(_) =>
    case Again(st') => NextConserves(max, st');
  }

  /** Every byte fed is in a header, in a record handed out, or still buffered. */
  lemma {:induction false} Conservation(max: nat, events: seq<Event>)
    ensures var t := Run(max, events);
      |Fed(events)| == 4 * RunHeaders(max, events) + Total(t.emitted) + Buffered(t.state)
  {
    hide Next, Headers;
    if events != [] {
      var init := events[..|events| - 1];
      Conservation(max, init);
      var t := Run(max, init);
      NextConserves(max, t.state);
      var p := Next(max, t.state);
      if p.result.Ok? && p.result.value.Some? {
        var rec := p.result.value.value;
        assert (t.emitted + [rec])[..|t.emitted|] == t.emitted;
      }
    }
  }

  // --- Fragmentation ----------------------------------------------------------------------

  /** A record as its sender cuts it: at least one fragment, possibly empty ones. */
  type Fragments = fs: seq<Bytes> | fs != [] && forall i :: 0 <= i < |fs| ==> |fs[i]| < LAST_FRAGMENT
    witness [[]]

  function OnWire(fs: Fragments): Bytes {
    PutU32(Header(|fs| == 1, |fs[0]|)) + fs[0] + (if |fs| == 1 then [] else OnWire(fs[1..]))
  }

  lemma {:induction false} WireNotEmpty(fs: Fragments)
    ensures OnWire(fs) != []
  {
    hide PutU32;
  }

  function StreamOf(records: seq<Fragments>): Bytes {
    if records == [] then [] else OnWire(records[0]) + StreamOf(records[1..])
  }

  lemma {:induction false} StreamSnoc(records: seq<Fragments>, last: Fragments)
    ensures StreamOf(records + [last]) == StreamOf(records) + OnWire(last)
  {
    if records == [] {
      assert [last][1..] == [];
      assert OnWire(last) + [] == [] + OnWire(last);
    } else {
      assert (records + [last])[1..] == records[1..] + [last];
      StreamSnoc(records[1..], last);
      Assoc(OnWire(records[0]), StreamOf(records[1..]), OnWire(last));
    }
  }

  function Whole(records: seq<Fragments>): seq<Bytes> {
    seq(|records|, i requires 0 <= i < |records| => Join(records[i]))
  }

  lemma {:induction false} JoinOne(fs: Fragments)
    requires |fs| == 1
    ensures Join(fs) == fs[0]
  {
    assert Join(fs) == fs[0] + [];
  }

  lemma {:induction false} ParseOneFragment(max: nat, acc: Bytes, last: bool, f: Bytes, tail: Bytes)
    requires |f| < LAST_FRAGMENT && |acc| + |f| <= max
    ensures Parse(max, acc, PutU32(Header(last, |f|)) + (f + tail))
         == if last then Prepend([acc + f], Parse(max, [], tail)) else Parse(max, acc + f, tail)
  {
    var header := Header(last, |f|);
    var s := PutU32(header) + (f + tail);
    GetPutU32(header, f + tail);
    assert header % LAST_FRAGMENT == |f| && (header >= LAST_FRAGMENT) == last;
    assert s[4..] == f + tail;
    assert (f + tail)[..|f|] == f && (f + tail)[|f|..] == tail;
  }

  lemma {:induction false} ParseFragments(max: nat, acc: Bytes, fs: Fragments, rest: Bytes)
    requires |acc| + |Join(fs)| <= max
    ensures Parse(max, acc, OnWire(fs) + rest) == Prepend([acc + Join(fs)], Parse(max, [], rest))
    decreases |fs|
  {
    hide PutU32, GetU32, Parse;
    var last := |fs| == 1;
    var header := PutU32(Header(last, |fs[0]|));
    var more := if last then [] else OnWire(fs[1..]);
    Assoc(header + fs[0], more, rest);
    Assoc(header, fs[0], more + rest);
    ParseOneFragment(max, acc, last, fs[0], more + rest);
    if last {
      JoinOne(fs);
      assert [] + rest == rest;
    } else {
      Assoc(acc, fs[0], Join(fs[1..]));
      ParseFragments(max, acc + fs[0], fs[1..], rest);
    }
  }

  /** Any list of records within the limit, however fragmented, parses to those records. */
  lemma {:induction false} FragmentationRoundTrip(max: nat, records: seq<Fragments>, rest: Bytes)
    requires forall i :: 0 <= i < |records| ==> |Join(records[i])| <= max
    ensures Parse(max, [], StreamOf(records) + rest) == Prepend(Whole(records), Parse(max, [], rest))
  {
    hide Parse, OnWire, Join;
    if records == [] {
      assert [] + rest == rest;
      PrependConcat([], [], Parse(max, [], rest));
    } else {
      var tail := records[1..];
      Assoc(OnWire(records[0]), StreamOf(tail), rest);
      ParseFragments(max, [], records[0], StreamOf(tail) + rest);
      assert [] + Join(records[0]) == Join(records[0]);
      FragmentationRoundTrip(max, tail, rest);
      assert Whole(records) == [Join(records[0])] + Whole(tail);
      PrependConcat([Join(records[0])], Whole(tail), Parse(max, [], rest));
    }
  }

  lemma {:induction false} ParseTooLarge(max: nat, acc: Bytes, last: bool, len: nat, tail: Bytes)
    requires len < LAST_FRAGMENT && |acc| + len > max
    ensures Parse(max, acc, PutU32(Header(last, len)) + tail) == Parsed([], Oversized)
  {
    var header := Header(last, len);
    GetPutU32(header, tail);
    assert header % LAST_FRAGMENT == len;
  }

  /** A record over the limit is found out however it is fragmented, before it is complete. */
  lemma {:induction false} OversizedFragments(max: nat, acc: Bytes, fs: Fragments, rest: Bytes)
    requires |acc| <= max < |acc| + |Join(fs)|
    ensures Parse(max, acc, OnWire(fs) + rest) == Parsed([], Oversized)
    decreases |fs|
  {
    hide PutU32, GetU32, Parse;
    var last := |fs| == 1;
    if last {
      JoinOne(fs);
    }
    var header := PutU32(Header(last, |fs[0]|));
    var more := if last then [] else OnWire(fs[1..]);
    Assoc(header + fs[0], more, rest);
    Assoc(header, fs[0], more + rest);
    if |acc| + |fs[0]| > max {
      ParseTooLarge(max, acc, last, |fs[0]|, fs[0] + (more + rest));
    } else {
      ParseOneFragment(max, acc, last, fs[0], more + rest);
      OversizedFragments(max, acc + fs[0], fs[1..], rest);
    }
  }

  /**
   * Why everything above stops at the first error: the oversized fragment's header is gone by
   * then, and its data is taken for headers and records of the stream.
   */
  lemma {:induction false} AfterOversized(max: nat, acc: Bytes, flag: bool, last: bool, len: nat, data: Bytes)
    requires len < LAST_FRAGMENT && |acc| + len > max
    ensures var p := Next(max, State(PutU32(Header(last, len)) + data, acc, None, flag));
      p == Polled(State(data, acc, None, last), Err(RecordTooLarge)) && Resume(max, p.state) == Parse(max, acc, data)
  {
    var header := Header(last, len);
    GetPutU32(header, data);
    assert header % LAST_FRAGMENT == len && (header >= LAST_FRAGMENT) == last;
    assert (PutU32(header) + data)[4..] == data;
  }

  lemma {:induction false} ParseNothing(max: nat)
    ensures Parse(max, [], []) == Parsed([], Pending)
  {
  }

  /**
   * End to end: a run fed a prefix of such a stream hands out a prefix of the records, never
   * fails, and hands out all of them once the whole stream is in and a poll found nothing.
   */
  lemma {:induction false} FragmentedDelivery(max: nat, records: seq<Fragments>, events: seq<Event>)
    requires forall i :: 0 <= i < |records| ==> |Join(records[i])| <= max
    requires Clean(max, events) && Fed(events) <= StreamOf(records)
    ensures var t := Run(max, events);
      && !t.failed
      && t.emitted <= Whole(records)
      && (Fed(events) == StreamOf(records) && t.lastWasNone ==> t.emitted == Whole(records))
  {
    hide Parse, StreamOf, Resume, Next, Join;
    var fed := Fed(events);
    var more := StreamOf(records)[|fed|..];
    assert fed + more == StreamOf(records) + [];
    FragmentationRoundTrip(max, records, []);
    assert Parse(max, [], fed + more) == Parsed(Whole(records), Pending) by {
      ParseNothing(max);
      assert Whole(records) + [] == Whole(records);
    }
    ChunkingIndependence(max, events);
    if Run(max, events).failed {
      var init := events[..|events| - 1];
      RunResumes(max, init, more);
      NextResumes(max, Run(max, init).state, more);
      assert false;
    }
    RunResumes(max, events, more);
    if fed == StreamOf(records) {
      assert more == [] && fed + more == fed;
    }
  }

  /** The layout of section 11 of RFC 5531: a word with the top bit for the last fragment, then data. */
  lemma {:induction false} FrameLayout(record: Bytes)
    ensures Frame(record) ==
      if |record| < 0x8000_0000 then Ok(PutU32(0x8000_0000 + |record|) + record) else Err(RecordTooLarge)
  {
  }

  lemma {:induction false} FragmentLayout(first: Bytes, second: Bytes)
    requires |first| < 0x8000_0000 && |second| < 0x8000_0000
    ensures OnWire([first, second]) == PutU32(|first|) + first + (PutU32(0x8000_0000 + |second|) + second)
  {
    hide PutU32;
    var fs: Fragments := [first, second];
    var last: Fragments := [second];
    assert fs[1..] == last;
    assert OnWire(last) == PutU32(0x8000_0000 + |second|) + second + [];
  }

  /** `frame` produces one such stream, so any receiver gets the record back whole. */
  lemma {:induction false} FrameRoundTrip(max: nat, record: Bytes, rest: Bytes)
    requires |record| <= max
    ensures Frame(record).Ok? <==> |record| < LAST_FRAGMENT
    ensures Frame(record).Ok? ==>
      Parse(max, [], Frame(record).value + rest) == Prepend([record], Parse(max, [], rest))
  {
    if |record| < LAST_FRAGMENT {
      var fs: Fragments := [record];
      assert Join(fs) == record + [] == record;
      assert OnWire(fs) == Frame(record).value;
      ParseFragments(max, [], fs, rest);
      assert [] + Join(fs) == record;
    }
  }

  // --- The class --------------------------------------------------------------------------

  class RecordReassembler {
    var stream: Bytes
    var record: Bytes
    var fragRemaining: Option<nat>
    var lastFragment: bool
    const maxRecord: nat

    ghost function View(): State
      reads this
    {
      State(stream, record, fragRemaining, lastFragment)
    }

    constructor WithMax(max: nat)
      ensures View() == FRESH && maxRecord == max
    {
      stream := [];
      record := [];
      fragRemaining := None;
      lastFragment := false;
      maxRecord := max;
    }

    method PushData(data: Bytes)
      modifies this
      ensures View() == Push(old(View()), data)
    {
      stream := stream + data;
    }

    method NextRecord() returns (r: Result<Option<Bytes>, TooLarge>)
      modifies this
      ensures Polled(View(), r) == Next(maxRecord, old(View()))
    {
      while true
        invariant Next(maxRecord, View()) == Next(maxRecord, old(View()))
        decreases |stream|, Rank(View())
      {
        match fragRemaining
        case None =>
          if |stream| < 4 {
            return Ok(None);
          }
          var header := GetU32(stream);
          stream := stream[4..];
          lastFragment := header >= LAST_FRAGMENT;
          var len := header % LAST_FRAGMENT;
          if |record| + len > maxRecord {
            return Err(RecordTooLarge);
          }
          fragRemaining := Some(len);
        case Some(remaining) =>
          if remaining == 0 {
            if lastFragment {
              var complete := record;
              record := [];
              fragRemaining := None;
              lastFragment := false;
              return Ok(Some(complete));
            }
            fragRemaining := None;
          } else {
            if stream == [] {
              return Ok(None);
            }
            var take := if remaining < |stream| then remaining else |stream|;
            var chunk := stream[..take];
            stream := stream[take..];
            record := record + chunk;
            fragRemaining := Some(remaining - take);
          }
      }
    }
  }
}
