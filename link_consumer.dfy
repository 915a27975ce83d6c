/**
 * The stream consumer (url-projector/consumer/link_consumer.go): an outer loop
 * that creates a broker consumer, subscribes and reconnects after a fixed
 * delay, and an inner loop that polls, decodes and reconciles one message at a
 * time. The broker is a finite sequence of poll outcomes; everything the loops
 * do that is visible from outside (consumer creation, subscription, polls,
 * reconcile calls, closes, sleeps) is recorded in a trace.
 */
module LinkConsumer {
  import opened Wrappers
  import opened LinkModel
  import opened Envelope
  import opened LinkService

  /** The fixed reconnect delay, in milliseconds. */
  const RetryDelayMs: nat := 5000

  /** The broker error codes the loop distinguishes. */
  datatype KafkaCode = TimedOut | AllBrokersDown | OtherCode(code: int)

  /** What one read from the broker yields. */
  datatype PollOutcome =
    | Received(value: RawMessage)
    | KafkaError(code: KafkaCode, fatal: bool)
    | NonKafkaError(text: string)

  /** What the inner loop does with one outcome. */
  datatype Reaction = Apply(envelope: Envelope) | SkipMalformed | KeepPolling | LeaveLoop

  /**
   * A received message is reconciled when it parses and skipped otherwise;
   * the loop is left only on "all brokers down" or a fatal broker error, and
   * every other error, the poll timeout included, keeps it polling.
   */
  function Classify(o: PollOutcome): (r: Reaction)
    ensures r.Apply? <==> o.Received? && o.value.Encoded?
    ensures r.Apply? ==> r.envelope == o.value.envelope
    ensures r.SkipMalformed? <==> o.Received? && o.value.Malformed?
    ensures r.LeaveLoop? <==> o.KafkaError? && o.code != TimedOut && (o.code == AllBrokersDown || o.fatal)
  {
    match o
    case Received(value) =>
      var parsed := ParseToEnvelope(value);
      if parsed.Success? then Apply(parsed.value) else SkipMalformed
    case KafkaError(code, fatal) =>
      if code == TimedOut then KeepPolling
      else if code == AllBrokersDown || fatal then LeaveLoop
      else KeepPolling
    case NonKafkaError(_) => KeepPolling
  }

  /** The externally visible steps of the relay. */
  datatype Action =
    | NewConsumer(ok: bool)
    | Subscribe(ok: bool)
    | Poll(outcome: PollOutcome)
    | ApplyLogic(envelope: Envelope)
    | Close
    | Sleep(ms: nat)

  /** One connection attempt of the outer loop, with what the broker delivers in it. */
  datatype Attempt = CreateFails | SubscribeFails | Session(outcomes: seq<PollOutcome>)

  // ---------------------------------------------------------------------------
  // Specification of the inner loop

  /** Whether some outcome ends the inner loop. */
  predicate Leaves(os: seq<PollOutcome>) {
    os != [] && (Classify(os[0]).LeaveLoop? || Leaves(os[1..]))
  }

  /** How many outcomes the inner loop reads: up to and including the first leaving one. */
  function Consumed(os: seq<PollOutcome>): (n: nat)
    ensures n <= |os|
  {
    if os == [] then 0
    else if Classify(os[0]).LeaveLoop? then 1
    else 1 + Consumed(os[1..])
  }

  /** The trace of one poll. */
  function StepTrace(o: PollOutcome): seq<Action> {
    if Classify(o).Apply? then [Poll(o), ApplyLogic(Classify(o).envelope)] else [Poll(o)]
  }

  /** The trace of one subscribed session: each outcome in turn, up to and including the first leaving one. */
  function SessionTrace(os: seq<PollOutcome>): seq<Action> {
    if os == [] then []
    else StepTrace(os[0]) + (if Classify(os[0]).LeaveLoop? then [] else SessionTrace(os[1..]))
  }

  /** The envelopes handed to reconciliation in a trace, in order. */
  function AppliedEvents(t: seq<Action>): seq<Envelope> {
    if t == [] then []
    else (if t[0].ApplyLogic? then [t[0].envelope] else []) + AppliedEvents(t[1..])
  }

  /** The envelopes of the received messages that parse, in receive order. */
  function ParsedEnvelopes(os: seq<PollOutcome>): seq<Envelope> {
    if os == [] then []
    else
      (if os[0].Received? && os[0].value.Encoded? then [os[0].value.envelope] else [])
      + ParsedEnvelopes(os[1..])
  }

  // ---------------------------------------------------------------------------
  // Specification of the outer loop

  /** A session whose inner loop is still running at the end of the observed outcomes. */
  predicate Ongoing(a: Attempt) {
    a.Session? && !Leaves(a.outcomes)
  }

  function AttemptTrace(a: Attempt): seq<Action> {
    match a
    case CreateFails => [NewConsumer(false), Sleep(RetryDelayMs)]
    case SubscribeFails => [NewConsumer(true), Subscribe(false), Close, Sleep(RetryDelayMs)]
    case Session(os) =>
      [NewConsumer(true), Subscribe(true)] + SessionTrace(os)
      + (if Leaves(os) then [Close, Sleep(RetryDelayMs)] else [])
  }

  /**
   * The trace of the whole relay over the observed attempts: every attempt in
   * turn, up to and including the first session still consuming at the end.
   */
  function RunTrace(attempts: seq<Attempt>): seq<Action> {
    if attempts == [] then []
    else AttemptTrace(attempts[0]) + (if Ongoing(attempts[0]) then [] else RunTrace(attempts[1..]))
  }

  /**
   * The parsed messages of every session of the run, each session's up to
   * its first loop-ending outcome, in the order they were received.
   */
  function RunParsed(attempts: seq<Attempt>): seq<Envelope> {
    if attempts == [] then []
    else
      var a := attempts[0];
      (if a.Session? then ParsedEnvelopes(a.outcomes[..Consumed(a.outcomes)]) else [])
      + (if Ongoing(a) then [] else RunParsed(attempts[1..]))
  }

  /** Whether the observed run ends inside a session that is still consuming. */
  predicate EndsConsuming(attempts: seq<Attempt>) {
    attempts != [] && (Ongoing(attempts[0]) || EndsConsuming(attempts[1..]))
  }

  // ---------------------------------------------------------------------------
  // The relay

  class Relay {
    const service: LinkService
    var trace: seq<Action>
    /** The store as it was when the relay started. */
    ghost var initial: map<int, Link>

    /** The store is what reconciling every relayed event, in order, leaves from the initial store. */
    ghost predicate Synced()
      reads this, service.repo
    {
      service.repo.docs == Replay(initial, service.repo.available, AppliedEvents(trace))
    }

    constructor (s: LinkService)
      ensures service == s && trace == [] && initial == s.repo.docs
      ensures Synced()
    {
      service := s;
      trace := [];
      initial := s.repo.docs;
    }

    /**
     * One poll of the inner loop: a parsed message is reconciled at once, a
     * malformed one is skipped; a timeout, a non-fatal broker error or any
     * other error keeps the loop polling; "all brokers down" or a fatal
     * error ends it. Returns whether the loop ends.
     */
    method HandleOutcome(o: PollOutcome) returns (leave: bool)
      requires Synced()
      modifies this`trace, service.repo`docs
      ensures Synced()
      ensures leave == Classify(o).LeaveLoop?
      ensures trace == old(trace) + StepTrace(o)
      ensures service.repo.docs
        == Replay(old(service.repo.docs), service.repo.available, AppliedEvents(StepTrace(o)))
    {
      StepFacts(o);
      ReplayOfExtendedTrace(initial, service.repo.available, trace, StepTrace(o));
      leave := false;
      trace := trace + [Poll(o)];
      match o {
        case Received(value) =>
          var parsed := ParseToEnvelope(value);
          if parsed.Success? {
            trace := trace + [ApplyLogic(parsed.value)];
            var _ := service.ApplyLogic(parsed.value);
            assert [parsed.value][1..] == [];
          }
        case KafkaError(code, fatal) =>
          if code == TimedOut {
          } else if code == AllBrokersDown || fatal {
            leave := true;
          }
        case NonKafkaError(_) =>
      }
      assert trace == old(trace) + StepTrace(o);
      assert service.repo.docs
        == Replay(old(service.repo.docs), service.repo.available, AppliedEvents(StepTrace(o)));
    }

    /**
     * Polls until an outcome ends the loop or the observed outcomes run out,
     * handling each outcome before the next poll.
     */
    method ConsumeLoop(outcomes: seq<PollOutcome>) returns (left: bool)
      requires Synced()
      modifies this`trace, service.repo`docs
      ensures Synced()
      ensures left <==> Leaves(outcomes)
      ensures trace == old(trace) + SessionTrace(outcomes)
      ensures service.repo.docs
        == Replay(old(service.repo.docs), service.repo.available, AppliedEvents(SessionTrace(outcomes)))
    {
      ghost var pending := SessionTrace(outcomes);
      var i := 0;
      left := false;
      assert outcomes[0..] == outcomes;
      while i < |outcomes| && !left
        invariant 0 <= i <= |outcomes|
        invariant Synced()
        invariant left ==> Leaves(outcomes)
        invariant !left ==> Leaves(outcomes) == Leaves(outcomes[i..])
        invariant pending == if left then [] else SessionTrace(outcomes[i..])
        invariant old(trace) + SessionTrace(outcomes) == trace + pending
      {
        var o := outcomes[i];
        ghost var before := trace;
        left := HandleOutcome(o);
        assert outcomes[i..][0] == o && outcomes[i..][1..] == outcomes[i + 1..];
        SessionStep(outcomes[i..], left);
        pending := if left then [] else SessionTrace(outcomes[i + 1..]);
        AppendAssoc(before, StepTrace(o), pending);
        i := i + 1;
        assert pending == if left then [] else SessionTrace(outcomes[i..]);
      }
      if !left {
        assert outcomes[i..] == [];
      }
      ReplayOfExtendedTrace(initial, service.repo.available, old(trace), SessionTrace(outcomes));
    }

    /**
     * One pass of the outer loop: create a consumer, subscribe, consume until
     * the inner loop ends, close the consumer and wait. A creation failure
     * only waits; a subscription failure closes the consumer, then waits.
     * Returns whether the session is still consuming when its outcomes run out.
     */
    method Connect(a: Attempt) returns (consuming: bool)
      requires Synced()
      modifies this`trace, service.repo`docs
      ensures Synced()
      ensures consuming == Ongoing(a)
      ensures trace == old(trace) + AttemptTrace(a)
      ensures service.repo.docs
        == Replay(old(service.repo.docs), service.repo.available, AppliedEvents(AttemptTrace(a)))
    {
      consuming := false;
      match a {
        case CreateFails =>
          AppendWithoutApply(trace, [NewConsumer(false), Sleep(RetryDelayMs)]);
          trace := trace + [NewConsumer(false), Sleep(RetryDelayMs)];
        case SubscribeFails =>
          AppendWithoutApply(trace, [NewConsumer(true), Subscribe(false), Close, Sleep(RetryDelayMs)]);
          trace := trace + [NewConsumer(true), Subscribe(false), Close, Sleep(RetryDelayMs)];
        case Session(os) =>
          var opening := [NewConsumer(true), Subscribe(true)];
          AppendWithoutApply(trace, opening);
          trace := trace + opening;
          var left := ConsumeLoop(os);
          var closing := if left then [Close, Sleep(RetryDelayMs)] else [];
          AppendWithoutApply(trace, closing);
          trace := trace + closing;
          consuming := !left;
          AppendAssoc(old(trace), opening, SessionTrace(os));
          AppendAssoc(old(trace), opening + SessionTrace(os), closing);
      }
      ReplayOfExtendedTrace(initial, service.repo.available, old(trace), AttemptTrace(a));
    }

    /**
     * The outer loop over the observed connection attempts; it retries after
     * every attempt and stops only at a session that is still consuming when
     * its outcomes run out.
     */
    method LinkConsumer(attempts: seq<Attempt>)
      requires Synced()
      modifies this`trace, service.repo`docs
      ensures Synced()
      ensures trace == old(trace) + RunTrace(attempts)
      ensures service.repo.docs
        == Replay(old(service.repo.docs), service.repo.available, AppliedEvents(RunTrace(attempts)))
      ensures service.repo.docs == Replay(old(service.repo.docs), service.repo.available, RunParsed(attempts))
    {
      ghost var pending := RunTrace(attempts);
      var k := 0;
      var consuming := false;
      assert attempts[0..] == attempts;
      while k < |attempts| && !consuming
        invariant 0 <= k <= |attempts|
        invariant Synced()
        invariant pending == if consuming then [] else RunTrace(attempts[k..])
        invariant old(trace) + RunTrace(attempts) == trace + pending
      {
        var a := attempts[k];
        ghost var before := trace;
        consuming := Connect(a);
        assert attempts[k..][0] == a && attempts[k..][1..] == attempts[k + 1..];
        RunStep(attempts[k..], consuming);
        pending := if consuming then [] else RunTrace(attempts[k + 1..]);
        AppendAssoc(before, AttemptTrace(a), pending);
        k := k + 1;
        assert pending == if consuming then [] else RunTrace(attempts[k..]);
      }
      if !consuming {
        assert attempts[k..] == [];
      }
      ReplayOfExtendedTrace(initial, service.repo.available, old(trace), RunTrace(attempts));
      RunAppliesParsedMessages(attempts);
    }
  }

  // ---------------------------------------------------------------------------
  // Lemmas

  lemma AppendAssoc<T>(a: seq<T>, b: seq<T>, c: seq<T>)
    ensures a + b + c == a + (b + c)
  {
  }

  /** Reconcile calls of two traces in turn are those of their concatenation. */
  lemma {:induction false} AppliedEventsAppend(a: seq<Action>, b: seq<Action>)
    ensures AppliedEvents(a + b) == AppliedEvents(a) + AppliedEvents(b)
    decreases |a|
  {
    if a == [] {
      assert a + b == b;
    } else {
      assert (a + b)[0] == a[0] && (a + b)[1..] == a[1..] + b;
      AppliedEventsAppend(a[1..], b);
    }
  }

  /** Reconciling the events of a longer trace continues from the store the shorter one left. */
  lemma ReplayOfExtendedTrace(docs: map<int, Link>, available: bool, done: seq<Action>, more: seq<Action>)
    ensures Replay(docs, available, AppliedEvents(done + more))
      == Replay(Replay(docs, available, AppliedEvents(done)), available, AppliedEvents(more))
  {
    AppliedEventsAppend(done, more);
    ReplayAppend(docs, available, AppliedEvents(done), AppliedEvents(more));
  }

  /** Steps with no reconcile call leave the relayed events as they were. */
  lemma AppendWithoutApply(done: seq<Action>, more: seq<Action>)
    requires forall i :: 0 <= i < |more| ==> !more[i].ApplyLogic?
    ensures AppliedEvents(done + more) == AppliedEvents(done)
  {
    NoApplyNoEvents(more);
    AppliedEventsAppend(done, more);
    assert AppliedEvents(done) + [] == AppliedEvents(done);
  }

  /** What one poll contributes: at most one reconcile call, and no consumer handle. */
  lemma StepFacts(o: PollOutcome)
    ensures AppliedEvents(StepTrace(o)) == if Classify(o).Apply? then [Classify(o).envelope] else []
    ensures OpenHandles(StepTrace(o)) == 0
  {
    var t := StepTrace(o);
    if Classify(o).Apply? {
      var e := Classify(o).envelope;
      assert t == [Poll(o), ApplyLogic(e)];
      assert t[1..][1..] == [];
      assert AppliedEvents(t[1..]) == [e] && OpenHandles(t[1..]) == 0;
    } else {
      assert t == [Poll(o)] && t[1..] == [];
    }
  }

  /** One poll of the inner loop, on the trace and on whether the loop ends. */
  lemma SessionStep(os: seq<PollOutcome>, leave: bool)
    requires os != [] && leave == Classify(os[0]).LeaveLoop?
    ensures SessionTrace(os) == StepTrace(os[0]) + (if leave then [] else SessionTrace(os[1..]))
    ensures Leaves(os) <==> leave || Leaves(os[1..])
  {
  }

  /** One attempt of the outer loop, on the trace. */
  lemma RunStep(attempts: seq<Attempt>, ongoing: bool)
    requires attempts != [] && ongoing == Ongoing(attempts[0])
    ensures RunTrace(attempts) == AttemptTrace(attempts[0]) + (if ongoing then [] else RunTrace(attempts[1..]))
  {
  }

  /** A trace with no reconcile call hands nothing to reconciliation. */
  lemma {:induction false} NoApplyNoEvents(t: seq<Action>)
    requires forall i :: 0 <= i < |t| ==> !t[i].ApplyLogic?
    ensures AppliedEvents(t) == []
    decreases |t|
  {
    if t != [] {
      NoApplyNoEvents(t[1..]);
    }
  }

  /** The reconcile calls of an attempt are those of its session. */
  lemma AppliedOfAttempt(a: Attempt)
    ensures AppliedEvents(AttemptTrace(a))
      == if a.Session? then AppliedEvents(SessionTrace(a.outcomes)) else []
  {
    match a {
      case CreateFails =>
        NoApplyNoEvents(AttemptTrace(a));
      case SubscribeFails =>
        NoApplyNoEvents(AttemptTrace(a));
      case Session(os) =>
        var head := [NewConsumer(true), Subscribe(true)];
        var tail: seq<Action> := if Leaves(os) then [Close, Sleep(RetryDelayMs)] else [];
        assert AttemptTrace(a) == head + SessionTrace(os) + tail;
        NoApplyNoEvents(head);
        NoApplyNoEvents(tail);
        AppliedEventsAppend(head, SessionTrace(os));
        AppliedEventsAppend(head + SessionTrace(os), tail);
    }
  }

  /**
   * The store effect of a session is the fold of reconciliation over the
   * parsed messages received up to the first loop-ending outcome: each is
   * handed over exactly once, in receive order, and nothing else is.
   */
  lemma {:induction false} SessionAppliesParsedMessages(os: seq<PollOutcome>)
    ensures AppliedEvents(SessionTrace(os)) == ParsedEnvelopes(os[..Consumed(os)])
    decreases |os|
  {
    if os != [] {
      var o := os[0];
      var rest := if Classify(o).LeaveLoop? then [] else SessionTrace(os[1..]);
      AppliedEventsAppend(StepTrace(o), rest);
      StepFacts(o);
      var taken := os[..Consumed(os)];
      assert taken[0] == o;
      if Classify(o).LeaveLoop? {
        assert taken[1..] == [];
      } else {
        assert taken[1..] == os[1..][..Consumed(os[1..])];
        SessionAppliesParsedMessages(os[1..]);
      }
    }
  }

  /**
   * The store effect of a whole run is the fold of reconciliation over the
   * parsed messages of its sessions, in receive order.
   */
  lemma {:induction false} RunAppliesParsedMessages(attempts: seq<Attempt>)
    ensures AppliedEvents(RunTrace(attempts)) == RunParsed(attempts)
    decreases |attempts|
  {
    if attempts != [] {
      var a := attempts[0];
      var rest := if Ongoing(a) then [] else RunTrace(attempts[1..]);
      AppliedEventsAppend(AttemptTrace(a), rest);
      AppliedOfAttempt(a);
      if a.Session? {
        SessionAppliesParsedMessages(a.outcomes);
      }
      if !Ongoing(a) {
        RunAppliesParsedMessages(attempts[1..]);
      }
    }
  }

  /** Every reconcile call comes right after the poll whose outcome parsed to its envelope. */
  predicate ApplyAfterItsPoll(t: seq<Action>) {
    && (t != [] ==> !t[0].ApplyLogic?)
    && forall i :: 0 < i < |t| && t[i].ApplyLogic? ==>
         t[i - 1].Poll? && Classify(t[i - 1].outcome) == Apply(t[i].envelope)
  }

  /** Every poll that yields a parsed message is followed at once, before any other step, by its reconcile call. */
  predicate PollThenItsApply(t: seq<Action>) {
    forall i :: 0 <= i < |t| && t[i].Poll? && Classify(t[i].outcome).Apply? ==>
      i + 1 < |t| && t[i + 1] == ApplyLogic(Classify(t[i].outcome).envelope)
  }

  lemma ApplyAfterItsPollAppend(a: seq<Action>, b: seq<Action>)
    requires ApplyAfterItsPoll(a) && ApplyAfterItsPoll(b)
    ensures ApplyAfterItsPoll(a + b)
  {
    var t := a + b;
    forall i | 0 < i < |t| && t[i].ApplyLogic?
      ensures t[i - 1].Poll? && Classify(t[i - 1].outcome) == Apply(t[i].envelope)
    {
      if i > |a| {
        assert t[i] == b[i - |a|];
        assert t[i - 1] == b[i - |a| - 1];
      } else if i < |a| {
        assert t[i] == a[i];
        assert t[i - 1] == a[i - 1];
      } else {
        assert false;
      }
    }
  }

  lemma PollThenItsApplyAppend(a: seq<Action>, b: seq<Action>)
    requires PollThenItsApply(a) && PollThenItsApply(b)
    ensures PollThenItsApply(a + b)
  {
    var t := a + b;
    forall i | 0 <= i < |t| && t[i].Poll? && Classify(t[i].outcome).Apply?
      ensures i + 1 < |t| && t[i + 1] == ApplyLogic(Classify(t[i].outcome).envelope)
    {
      if i >= |a| {
        assert t[i] == b[i - |a|];
        if i + 1 < |t| {
          assert t[i + 1] == b[i - |a| + 1];
        }
      } else {
        assert t[i] == a[i];
        assert i + 1 < |a|;
        assert t[i + 1] == a[i + 1];
      }
    }
  }

  /** One poll's steps pair the poll with the reconcile call of the message it received, if any. */
  lemma StepPairsPollAndApply(o: PollOutcome)
    ensures ApplyAfterItsPoll(StepTrace(o)) && PollThenItsApply(StepTrace(o))
  {
    var t := StepTrace(o);
    if Classify(o).Apply? {
      assert t == [Poll(o), ApplyLogic(Classify(o).envelope)];
      assert t[1] == ApplyLogic(Classify(o).envelope);
    } else {
      assert t == [Poll(o)];
    }
  }

  /**
   * In a session each reconcile call comes right after the poll that
   * received its message, and each received message that parses is
   * reconciled before the next poll.
   */
  lemma {:induction false} ApplyFollowsItsPoll(os: seq<PollOutcome>)
    ensures ApplyAfterItsPoll(SessionTrace(os)) && PollThenItsApply(SessionTrace(os))
    decreases |os|
  {
    if os != [] {
      var o := os[0];
      var rest := if Classify(o).LeaveLoop? then [] else SessionTrace(os[1..]);
      if !Classify(o).LeaveLoop? {
        ApplyFollowsItsPoll(os[1..]);
      }
      StepPairsPollAndApply(o);
      ApplyAfterItsPollAppend(StepTrace(o), rest);
      PollThenItsApplyAppend(StepTrace(o), rest);
    }
  }

  /** Only "all brokers down" and fatal errors that are not timeouts end the inner loop. */
  lemma LeaveOnlyOnBrokersDownOrFatal(o: PollOutcome)
    ensures Classify(o).LeaveLoop?
      <==> o.KafkaError? && o.code != TimedOut && (o.code == AllBrokersDown || o.fatal)
  {
  }

  /** A timeout, a non-fatal broker error or a non-broker error is just one more poll. */
  lemma TransientOutcomesOnlyPoll(o: PollOutcome)
    requires o.NonKafkaError? || (o.KafkaError? && (o.code == TimedOut || (o.code != AllBrokersDown && !o.fatal)))
    ensures Classify(o) == KeepPolling && StepTrace(o) == [Poll(o)]
  {
  }

  /** A malformed message is skipped: one poll, no reconcile call, the loop goes on. */
  lemma MalformedMessageSkipped(bytes: seq<bv8>)
    ensures Classify(Received(Malformed(bytes))) == SkipMalformed
    ensures StepTrace(Received(Malformed(bytes))) == [Poll(Received(Malformed(bytes)))]
  {
  }

  /**
   * A timeout never ends the inner loop: with no leaving outcome before it,
   * the loop reads past it and ends exactly where the outcomes after it say.
   */
  lemma {:induction false} TimeoutDoesNotEndSession(pre: seq<PollOutcome>, fatal: bool, post: seq<PollOutcome>)
    requires !Leaves(pre)
    ensures Leaves(pre + [KafkaError(TimedOut, fatal)] + post) <==> Leaves(post)
    ensures Consumed(pre + [KafkaError(TimedOut, fatal)] + post) == |pre| + 1 + Consumed(post)
    decreases |pre|
  {
    var os := pre + [KafkaError(TimedOut, fatal)] + post;
    if pre == [] {
      assert os[1..] == post;
    } else {
      assert os[0] == pre[0];
      assert os[1..] == pre[1..] + [KafkaError(TimedOut, fatal)] + post;
      TimeoutDoesNotEndSession(pre[1..], fatal, post);
    }
  }

  /** A session only polls and reconciles: it never sleeps, creates or closes a consumer. */
  lemma {:induction false} SessionOnlyPollsAndApplies(os: seq<PollOutcome>)
    ensures forall i :: 0 <= i < |SessionTrace(os)| ==> SessionTrace(os)[i].Poll? || SessionTrace(os)[i].ApplyLogic?
    decreases |os|
  {
    if os != [] && !Classify(os[0]).LeaveLoop? {
      SessionOnlyPollsAndApplies(os[1..]);
    }
  }

  lemma AttemptSleepsUseRetryDelay(a: Attempt)
    ensures forall i :: 0 <= i < |AttemptTrace(a)| ==> (AttemptTrace(a)[i].Sleep? ==> AttemptTrace(a)[i].ms == RetryDelayMs)
  {
    if a.Session? {
      SessionOnlyPollsAndApplies(a.outcomes);
    }
  }

  /** Every wait of the outer loop is the same constant delay. */
  lemma {:induction false} AllSleepsUseRetryDelay(attempts: seq<Attempt>)
    ensures forall i :: 0 <= i < |RunTrace(attempts)| ==>
      (RunTrace(attempts)[i].Sleep? ==> RunTrace(attempts)[i].ms == RetryDelayMs)
    decreases |attempts|
  {
    if attempts != [] {
      AttemptSleepsUseRetryDelay(attempts[0]);
      AllSleepsUseRetryDelay(attempts[1..]);
    }
  }

  /** Consumer handles opened minus handles closed over a trace. */
  function OpenHandles(t: seq<Action>): int {
    if t == [] then 0
    else (if t[0] == NewConsumer(true) then 1 else if t[0] == Close then -1 else 0) + OpenHandles(t[1..])
  }

  lemma {:induction false} OpenHandlesAppend(a: seq<Action>, b: seq<Action>)
    ensures OpenHandles(a + b) == OpenHandles(a) + OpenHandles(b)
    decreases |a|
  {
    if a == [] {
      assert a + b == b;
    } else {
      assert (a + b)[0] == a[0] && (a + b)[1..] == a[1..] + b;
      OpenHandlesAppend(a[1..], b);
    }
  }

  lemma {:induction false} SessionOpensNothing(os: seq<PollOutcome>)
    ensures OpenHandles(SessionTrace(os)) == 0
    decreases |os|
  {
    if os != [] {
      var o := os[0];
      var rest := if Classify(o).LeaveLoop? then [] else SessionTrace(os[1..]);
      if !Classify(o).LeaveLoop? {
        SessionOpensNothing(os[1..]);
      }
      OpenHandlesAppend(StepTrace(o), rest);
      StepFacts(o);
    }
  }

  /** An attempt that completes closes every consumer handle it opened. */
  lemma CompletedAttemptIsBalanced(a: Attempt)
    requires !Ongoing(a)
    ensures OpenHandles(AttemptTrace(a)) == 0
  {
    match a {
      case CreateFails =>
        var t := AttemptTrace(a);
        assert t[1..][1..] == [];
        assert OpenHandles(t[1..]) == 0;
      case SubscribeFails =>
        var t := AttemptTrace(a);
        assert t[3..][1..] == [];
        assert OpenHandles(t[3..]) == 0;
        assert t[2..][1..] == t[3..];
        assert OpenHandles(t[2..]) == -1;
        assert t[1..][1..] == t[2..];
        assert OpenHandles(t[1..]) == -1;
      case Session(os) =>
        var head := [NewConsumer(true), Subscribe(true)];
        var tail := [Close, Sleep(RetryDelayMs)];
        assert head[1..][1..] == [];
        assert tail[1..][1..] == [];
        SessionOpensNothing(os);
        OpenHandlesAppend(head, SessionTrace(os));
        OpenHandlesAppend(head + SessionTrace(os), tail);
    }
  }

  /**
   * At the end of a run the relay holds at most one consumer handle: every
   * completed attempt closed what it opened, so the run ends with none open,
   * or with exactly the handle of the session still consuming.
   */
  lemma {:induction false} AtMostCurrentHandleOpen(attempts: seq<Attempt>)
    ensures OpenHandles(RunTrace(attempts)) == if EndsConsuming(attempts) then 1 else 0
    decreases |attempts|
  {
    if attempts != [] {
      var a := attempts[0];
      var rest := if Ongoing(a) then [] else RunTrace(attempts[1..]);
      OpenHandlesAppend(AttemptTrace(a), rest);
      if Ongoing(a) {
        var os := a.outcomes;
        var head := [NewConsumer(true), Subscribe(true)];
        assert head[1..][1..] == [];
        assert AttemptTrace(a) == head + SessionTrace(os);
        SessionOpensNothing(os);
        OpenHandlesAppend(head, SessionTrace(os));
      } else {
        CompletedAttemptIsBalanced(a);
        AtMostCurrentHandleOpen(attempts[1..]);
      }
    }
  }
}
