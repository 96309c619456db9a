/**
 The background worker that reports heartbeats and session events to the console.

 The worker is a step machine: its program counter stands at one of the awaits of
 the spawned loop, and every input is either something the environment does
 (a session sends an event, the reporter is dropped, time passes) or the
 completion of the await. `Next` is total, so a run is any sequence of inputs.
 Everything the worker does is written to `log`, and the laws are about that log.
 */
module ConsoleReporter {
  import opened Strings

  type Event = string

  const CHANNEL_CAPACITY: nat := 256
  const REQUEST_TIMEOUT: nat := 5
  const DRAIN_SECONDS: nat := 60
  const USIZE_MAX: nat := 0xFFFF_FFFF_FFFF_FFFF

  function RetrySeconds(failures: nat): (seconds: nat)
    ensures 30 <= seconds <= 300
  {
    match failures
    case 0 => 30
    case 1 => 60
    case _ => 300
  }

  function SaturatingSucc(n: nat): nat {
    if n < USIZE_MAX then n + 1 else USIZE_MAX
  }

  datatype Response = Status(code: nat) | TransportError

  predicate Delivered(r: Response) {
    r.Status? && 200 <= r.code < 300
  }

  /** A client error that no retry can repair. */
  predicate Rejected(r: Response) {
    r.Status? && 400 <= r.code < 500 && r.code != 409 && r.code != 429 && r.code != 401
  }

  datatype Entry =
    | RoundStart(at: nat)
    | HeartbeatPost
    | HeartbeatDelivered(at: nat)
    | HeartbeatWait(at: nat, seconds: nat)
    | SessionPost(event: Event)
    | SessionResolved(event: Event, response: Response)
    | EventWait(at: nat, seconds: nat)

  /** The await the worker stands at. */
  datatype Pc =
    | AwaitPayload
    | AwaitHeartbeat
    | HeartbeatBackoff
    | AwaitEvent
    | AwaitSession(event: Event)
    | EventBackoff
    | Returned

  datatype Input =
    | Send(event: Event)
    | Cancel
    | CloseSender
    | Tick(seconds: nat)
    | Payload(present: bool)
    | Reply(response: Response)
    | Wake

  datatype Worker = Worker(
    pc: Pc,
    failures: nat,
    eventFailures: nat,
    pending: Option<Event>,
    deadline: nat,
    timer: nat,             // when the current request times out or the current sleep ends
    now: nat,
    queue: seq<Event>,
    closed: bool,
    cancelled: bool,
    accepted: seq<Event>,   // everything the channel ever took
    log: seq<Entry>)

  function Init(): Worker {
    Worker(AwaitPayload, 0, 0, None, 0, 0, 0, [], false, false, [], [RoundStart(0)])
  }

  // ------------------------------------------------------------ the machine

  function BeginRound(s: Worker): Worker {
    s.(pc := AwaitPayload, log := s.log + [RoundStart(s.now)])
  }

  function HeartbeatFailure(s: Worker): Worker {
    var pause := RetrySeconds(s.failures);
    s.(pc := HeartbeatBackoff, timer := s.now + pause, log := s.log + [HeartbeatWait(s.now, pause)])
  }

  function StartSession(s: Worker, event: Event): Worker {
    s.(pc := AwaitSession(event), pending := None, timer := s.now + REQUEST_TIMEOUT,
       log := s.log + [SessionPost(event)])
  }

  /** The top of the inner loop: the pending event first, else wait for one. */
  function Drain(s: Worker): Worker {
    if s.pending.Some? then StartSession(s, s.pending.value) else s.(pc := AwaitEvent)
  }

  function HeartbeatSuccess(s: Worker): Worker {
    Drain(s.(failures := 0, deadline := s.now + DRAIN_SECONDS,
             log := s.log + [HeartbeatDelivered(s.now)]))
  }

  function SessionReply(s: Worker, event: Event, r: Response): Worker {
    if Delivered(r) || Rejected(r) then
      var t := s.(eventFailures := if Delivered(r) then 0 else s.eventFailures,
                  log := s.log + [SessionResolved(event, r)]);
      if s.now >= s.deadline then BeginRound(t) else Drain(t)
    else
      var pause := RetrySeconds(s.eventFailures);
      s.(pc := EventBackoff, pending := Some(event), timer := s.now + pause,
         log := s.log + [EventWait(s.now, pause)])
  }

  /** Whether the await the worker stands at is completed by this input. */
  predicate Completes(s: Worker, input: Input) {
    match s.pc
    case AwaitPayload => input.Payload?
    case AwaitHeartbeat => input.Reply?
    case AwaitSession(_) => input.Reply?
    case HeartbeatBackoff => input.Wake? && (s.cancelled || s.now >= s.timer)
    case EventBackoff => input.Wake? && (s.cancelled || s.now >= s.timer)
    case AwaitEvent => input.Wake? && (s.cancelled || s.queue != [] || s.closed || s.now >= s.deadline)
    case Returned => false
  }

  /** The worker runs on from its await to the next one. Cancellation always wins the select. */
  function Proceed(s: Worker, input: Input): Worker
    requires Completes(s, input)
  {
    if s.cancelled then s.(pc := Returned)
    else
      match s.pc
      case AwaitPayload =>
        if input.present
        then s.(pc := AwaitHeartbeat, timer := s.now + REQUEST_TIMEOUT, log := s.log + [HeartbeatPost])
        else HeartbeatFailure(s)
      case AwaitHeartbeat =>
        if Delivered(input.response) then HeartbeatSuccess(s) else HeartbeatFailure(s)
      case HeartbeatBackoff => BeginRound(s.(failures := SaturatingSucc(s.failures)))
      case AwaitEvent =>
        if s.queue != [] then StartSession(s.(queue := s.queue[1..]), s.queue[0])
        else if s.closed then s.(pc := Returned)
        else BeginRound(s)
      case AwaitSession(event) => SessionReply(s, event, input.response)
      case EventBackoff => BeginRound(s.(eventFailures := SaturatingSucc(s.eventFailures)))
  }

  /** Time passes at an await, but never beyond the timeout that would end it. */
  predicate MayTick(s: Worker, seconds: nat) {
    match s.pc
    case AwaitPayload => true
    case AwaitEvent => s.now + seconds <= s.deadline
    case Returned => true
    case _ => s.now + seconds <= s.timer
  }

  function Environment(s: Worker, input: Input): Worker {
    match input
    case Send(event) =>
      if s.pc.Returned? || s.closed || |s.queue| >= CHANNEL_CAPACITY then s
      else s.(queue := s.queue + [event], accepted := s.accepted + [event])
    case Cancel => s.(cancelled := true)
    case CloseSender => s.(closed := true)
    case Tick(seconds) => if MayTick(s, seconds) then s.(now := s.now + seconds) else s
    case _ => s
  }

  function Next(s: Worker, input: Input): Worker {
    if Completes(s, input) then Proceed(s, input) else Environment(s, input)
  }

  function Run(s: Worker, inputs: seq<Input>): Worker {
    if inputs == [] then s else Next(Run(s, inputs[..|inputs| - 1]), inputs[|inputs| - 1])
  }

  // ---------------------------------------------------------- reading the log

  /** Events resolved so far, in order. */
  function Resolved(log: seq<Entry>): seq<Event> {
    if log == [] then []
    else
      var last := log[|log| - 1];
      Resolved(log[..|log| - 1]) + (if last.SessionResolved? then [last.event] else [])
  }

  /** When this round's heartbeat was delivered; none before that. */
  function OpenSince(log: seq<Entry>): Option<nat> {
    if log == [] then None
    else
      match log[|log| - 1]
      case RoundStart(_) => None
      case HeartbeatDelivered(at) => Some(at)
      case _ => OpenSince(log[..|log| - 1])
  }

  /** Whether the first unresolved event was posted since the last delivered heartbeat. */
  function Attempted(log: seq<Entry>): bool {
    if log == [] then false
    else
      match log[|log| - 1]
      case SessionPost(_) => true
      case HeartbeatDelivered(_) => false
      case SessionResolved(_, _) => false
      case _ => Attempted(log[..|log| - 1])
  }

  /** Failed heartbeats since the last delivered one. */
  function HeartbeatStreak(log: seq<Entry>): nat {
    if log == [] then 0
    else
      match log[|log| - 1]
      case HeartbeatDelivered(_) => 0
      case HeartbeatWait(_, _) => HeartbeatStreak(log[..|log| - 1]) + 1
      case _ => HeartbeatStreak(log[..|log| - 1])
  }

  /** Failed session posts since the last delivered event. */
  function EventStreak(log: seq<Entry>): nat {
    if log == [] then 0
    else
      match log[|log| - 1]
      case SessionResolved(_, r) => if Delivered(r) then 0 else EventStreak(log[..|log| - 1])
      case EventWait(_, _) => EventStreak(log[..|log| - 1]) + 1
      case _ => EventStreak(log[..|log| - 1])
  }

  /** When the wait the log ends in is over. */
  function Due(log: seq<Entry>): Option<nat> {
    if log == [] then None
    else
      match log[|log| - 1]
      case HeartbeatWait(at, seconds) => Some(at + seconds)
      case EventWait(at, seconds) => Some(at + seconds)
      case _ => None
  }

  /** What is promised of one log entry, given the entries before it. */
  ghost predicate Lawful(before: seq<Entry>, entry: Entry, accepted: seq<Event>) {
    (Due(before).Some? ==> entry.RoundStart?) &&
    match entry
    case SessionPost(event) =>
      // only after this round's heartbeat, in acceptance order, once per heartbeat
      && OpenSince(before).Some?
      && !Attempted(before)
      && |Resolved(before)| < |accepted|
      && event == accepted[|Resolved(before)|]
    case SessionResolved(event, r) =>
      && Attempted(before)
      && |Resolved(before)| < |accepted|
      && event == accepted[|Resolved(before)|]
      && (Delivered(r) || Rejected(r))
    case HeartbeatWait(_, seconds) => seconds == RetrySeconds(HeartbeatStreak(before))
    case EventWait(_, seconds) => seconds == RetrySeconds(EventStreak(before))
    case RoundStart(at) =>
      // a wait is kept to the second; without one the round lasts until its deadline or the last reply
      && (Due(before).Some? ==> at == Due(before).value)
      && (OpenSince(before).Some? && Due(before).None? ==>
            OpenSince(before).value + DRAIN_SECONDS <= at <= OpenSince(before).value + DRAIN_SECONDS + REQUEST_TIMEOUT)
      && (OpenSince(before).Some? ==> at <= OpenSince(before).value + DRAIN_SECONDS + REQUEST_TIMEOUT + 300)
    case _ => true
  }

  ghost predicate LawfulLog(log: seq<Entry>, accepted: seq<Event>) {
    log == [] || (var before := log[..|log| - 1];
                  LawfulLog(before, accepted) && Lawful(before, log[|log| - 1], accepted))
  }

  lemma LawfulAppend(log: seq<Entry>, entry: Entry, accepted: seq<Event>)
    requires LawfulLog(log, accepted) && Lawful(log, entry, accepted)
    ensures LawfulLog(log + [entry], accepted)
  {
    assert (log + [entry])[..|log|] == log;
  }

  lemma {:induction false} LawfulAccept(log: seq<Entry>, accepted: seq<Event>, event: Event)
    requires LawfulLog(log, accepted)
    ensures LawfulLog(log, accepted + [event])
  {
    if log != [] {
      LawfulAccept(log[..|log| - 1], accepted, event);
    }
  }

  /** Every entry of a lawful log is lawful after the entries before it. */
  lemma {:induction false} LawfulEntry(log: seq<Entry>, accepted: seq<Event>, k: nat)
    requires LawfulLog(log, accepted) && k < |log|
    ensures Lawful(log[..k], log[k], accepted)
  {
    if k < |log| - 1 {
      LawfulEntry(log[..|log| - 1], accepted, k);
      assert log[..|log| - 1][..k] == log[..k];
    }
  }

  lemma ReadAppend(log: seq<Entry>, entry: Entry)
    ensures (log + [entry])[..|log|] == log
    ensures Resolved(log + [entry]) == Resolved(log) + (if entry.SessionResolved? then [entry.event] else [])
  {
    assert (log + [entry])[..|log|] == log;
  }

  // ---------------------------------------------------------- the invariant

  /** The event taken from the channel and not yet resolved. */
  function InHand(s: Worker): seq<Event> {
    if s.pc.AwaitSession? then [s.pc.event]
    else if s.pending.Some? then [s.pending.value]
    else []
  }

  ghost predicate Conserved(s: Worker) {
    s.accepted == Resolved(s.log) + InHand(s) + s.queue
  }

  ghost predicate Draining(s: Worker) {
    s.pc.AwaitEvent? || s.pc.AwaitSession? || s.pc.EventBackoff?
  }

  ghost predicate Timely(s: Worker) {
    if !Draining(s) then OpenSince(s.log).None?
    else
      && OpenSince(s.log) == Some(s.deadline - DRAIN_SECONDS)
      && (s.pc.AwaitEvent? ==> s.now <= s.deadline)
      && (s.pc.AwaitSession? ==> s.now <= s.timer <= s.deadline + REQUEST_TIMEOUT)
      && (s.pc.EventBackoff? ==> s.now <= s.timer <= s.deadline + REQUEST_TIMEOUT + 300)
  }

  /** The worker stands at a wait exactly when its log ends in one. */
  ghost predicate Paused(s: Worker) {
    if s.pc.HeartbeatBackoff? || s.pc.EventBackoff? then Due(s.log) == Some(s.timer) && s.now <= s.timer
    else Due(s.log).None?
  }

  /** A saturated counter waits as long as the exact one. */
  ghost predicate Counts(counter: nat, exact: nat) {
    counter == if exact < USIZE_MAX then exact else USIZE_MAX
  }

  ghost predicate Counted(s: Worker) {
    && Counts(if s.pc.HeartbeatBackoff? then SaturatingSucc(s.failures) else s.failures, HeartbeatStreak(s.log))
    && Counts(if s.pc.EventBackoff? then SaturatingSucc(s.eventFailures) else s.eventFailures, EventStreak(s.log))
  }

  ghost predicate Shaped(s: Worker) {
    && (s.pc.AwaitSession? || s.pc.AwaitEvent? ==> s.pending.None?)
    && (s.pc.AwaitSession? <==> (Attempted(s.log) && s.pending.None?))
    && (s.pc.EventBackoff? ==> s.pending.Some?)
  }

  ghost predicate Inv(s: Worker) {
    && LawfulLog(s.log, s.accepted)
    && (!s.pc.Returned? ==> Conserved(s) && Timely(s) && Counted(s) && Shaped(s) && Paused(s))
    && Resolved(s.log) <= s.accepted
    && |s.queue| <= CHANNEL_CAPACITY
  }

  lemma RetryOfCounter(counter: nat, exact: nat)
    requires Counts(counter, exact)
    ensures RetrySeconds(counter) == RetrySeconds(exact)
    ensures Counts(SaturatingSucc(counter), exact + 1)
  {
  }

  lemma ReadRoundStart(log: seq<Entry>, at: nat)
    ensures var l := log + [RoundStart(at)];
            && Resolved(l) == Resolved(log) && OpenSince(l).None? && Attempted(l) == Attempted(log)
            && HeartbeatStreak(l) == HeartbeatStreak(log) && EventStreak(l) == EventStreak(log)
  {
    ReadAppend(log, RoundStart(at));
  }

  lemma BeginRoundKeepsInv(s: Worker)
    requires LawfulLog(s.log, s.accepted) && Conserved(s.(pc := AwaitPayload)) && |s.queue| <= CHANNEL_CAPACITY
    requires Counted(s.(pc := AwaitPayload)) && Shaped(s.(pc := AwaitPayload))
    requires Lawful(s.log, RoundStart(s.now), s.accepted)
    ensures Inv(BeginRound(s))
  {
    LawfulAppend(s.log, RoundStart(s.now), s.accepted);
    ReadRoundStart(s.log, s.now);
    var t := BeginRound(s);
    assert Conserved(t) && Timely(t);
    assert Counted(t) && Shaped(t) && Paused(t);
  }

  lemma ReadHeartbeatWait(log: seq<Entry>, at: nat, seconds: nat)
    ensures var l := log + [HeartbeatWait(at, seconds)];
            && Resolved(l) == Resolved(log) && OpenSince(l) == OpenSince(log) && Attempted(l) == Attempted(log)
            && HeartbeatStreak(l) == HeartbeatStreak(log) + 1 && EventStreak(l) == EventStreak(log)
  {
    ReadAppend(log, HeartbeatWait(at, seconds));
  }

  lemma ReadHeartbeatDelivered(log: seq<Entry>, at: nat)
    ensures var l := log + [HeartbeatDelivered(at)];
            && Resolved(l) == Resolved(log) && OpenSince(l) == Some(at) && !Attempted(l)
            && HeartbeatStreak(l) == 0 && EventStreak(l) == EventStreak(log)
  {
    ReadAppend(log, HeartbeatDelivered(at));
  }

  lemma HeartbeatFailureKeepsInv(s: Worker)
    requires Inv(s) && (s.pc.AwaitPayload? || s.pc.AwaitHeartbeat?)
    ensures Inv(HeartbeatFailure(s))
  {
    RetryOfCounter(s.failures, HeartbeatStreak(s.log));
    var pause := RetrySeconds(s.failures);
    LawfulAppend(s.log, HeartbeatWait(s.now, pause), s.accepted);
    ReadHeartbeatWait(s.log, s.now, pause);
    var t := HeartbeatFailure(s);
    assert Conserved(t) && Timely(t);
    assert Counted(t) && Shaped(t) && Paused(t);
  }

  /** Posting an event: the state before the post, with the event still in front. */
  lemma StartSessionKeepsInv(s: Worker, event: Event)
    requires LawfulLog(s.log, s.accepted) && !Attempted(s.log) && Due(s.log).None?
    requires s.accepted == Resolved(s.log) + [event] + s.queue && |s.queue| <= CHANNEL_CAPACITY
    requires OpenSince(s.log) == Some(s.deadline - DRAIN_SECONDS) && s.now <= s.deadline
    requires Counts(s.failures, HeartbeatStreak(s.log)) && Counts(s.eventFailures, EventStreak(s.log))
    ensures Inv(StartSession(s, event))
  {
    ReadAppend(s.log, SessionPost(event));
    LawfulAppend(s.log, SessionPost(event), s.accepted);
  }

  /** A state at the top of the inner loop, whatever await it came from. */
  ghost predicate Ready(s: Worker) {
    && LawfulLog(s.log, s.accepted) && !Attempted(s.log) && Due(s.log).None?
    && s.accepted == Resolved(s.log) + (if s.pending.Some? then [s.pending.value] else []) + s.queue
    && |s.queue| <= CHANNEL_CAPACITY
    && OpenSince(s.log) == Some(s.deadline - DRAIN_SECONDS) && s.now <= s.deadline
    && Counts(s.failures, HeartbeatStreak(s.log)) && Counts(s.eventFailures, EventStreak(s.log))
  }

  lemma DrainKeepsInv(s: Worker)
    requires Ready(s)
    ensures Inv(Drain(s))
  {
    if s.pending.Some? {
      StartSessionKeepsInv(s, s.pending.value);
    }
  }

  lemma DeliveredKeepsReadings(s: Worker)
    requires Inv(s) && s.pc.AwaitHeartbeat?
    ensures var log := s.log + [HeartbeatDelivered(s.now)];
            && s.accepted == Resolved(log) + (if s.pending.Some? then [s.pending.value] else []) + s.queue
            && OpenSince(log) == Some(s.now) && !Attempted(log) && Due(s.log).None?
            && Counts(0, HeartbeatStreak(log)) && Counts(s.eventFailures, EventStreak(log))
  {
    ReadHeartbeatDelivered(s.log, s.now);
    assert Conserved(s) && Counted(s) && Paused(s);
  }

  function Opened(s: Worker): Worker {
    s.(failures := 0, deadline := s.now + DRAIN_SECONDS, log := s.log + [HeartbeatDelivered(s.now)])
  }

  lemma DeliveredIsReady(s: Worker)
    requires Inv(s) && s.pc.AwaitHeartbeat?
    ensures Ready(Opened(s))
  {
    DeliveredKeepsReadings(s);
    LawfulAppend(s.log, HeartbeatDelivered(s.now), s.accepted);
  }

  lemma HeartbeatSuccessKeepsInv(s: Worker)
    requires Inv(s) && s.pc.AwaitHeartbeat?
    ensures Inv(HeartbeatSuccess(s))
  {
    var t := Opened(s);
    assert HeartbeatSuccess(s) == Drain(t);
    DeliveredIsReady(s);
    DrainKeepsInv(t);
  }

  lemma ResolveKeepsInv(s: Worker, r: Response)
    requires Inv(s) && s.pc.AwaitSession? && (Delivered(r) || Rejected(r))
    ensures Inv(SessionReply(s, s.pc.event, r))
  {
    var entry := SessionResolved(s.pc.event, r);
    ReadAppend(s.log, entry);
    LawfulAppend(s.log, entry, s.accepted);
    var t := s.(eventFailures := if Delivered(r) then 0 else s.eventFailures, log := s.log + [entry]);
    assert t.accepted == Resolved(t.log) + [] + t.queue;
    assert !Attempted(t.log);
    assert OpenSince(t.log) == OpenSince(s.log);
    if s.now >= s.deadline {
      BeginRoundKeepsInv(t);
    } else {
      DrainKeepsInv(t);
    }
  }

  lemma RetryKeepsInv(s: Worker, r: Response)
    requires Inv(s) && s.pc.AwaitSession? && !Delivered(r) && !Rejected(r)
    ensures Inv(SessionReply(s, s.pc.event, r))
  {
    RetryOfCounter(s.eventFailures, EventStreak(s.log));
    var entry := EventWait(s.now, RetrySeconds(s.eventFailures));
    ReadAppend(s.log, entry);
    LawfulAppend(s.log, entry, s.accepted);
  }

  lemma PayloadKeepsInv(s: Worker, input: Input)
    requires Inv(s) && s.pc.AwaitPayload? && Completes(s, input) && !s.cancelled
    ensures Inv(Proceed(s, input))
  {
    if input.present {
      ReadAppend(s.log, HeartbeatPost);
      LawfulAppend(s.log, HeartbeatPost, s.accepted);
    } else {
      HeartbeatFailureKeepsInv(s);
    }
  }

  lemma ReceiveKeepsInv(s: Worker, input: Input)
    requires Inv(s) && s.pc.AwaitEvent? && Completes(s, input) && !s.cancelled
    ensures Inv(Proceed(s, input))
  {
    if s.queue != [] {
      assert s.queue == [s.queue[0]] + s.queue[1..];
      StartSessionKeepsInv(s.(queue := s.queue[1..]), s.queue[0]);
    } else if !s.closed {
      BeginRoundKeepsInv(s);
    }
  }

  lemma BackoffKeepsInv(s: Worker, input: Input)
    requires Inv(s) && (s.pc.HeartbeatBackoff? || s.pc.EventBackoff?) && Completes(s, input) && !s.cancelled
    ensures Inv(Proceed(s, input))
  {
    if s.pc.HeartbeatBackoff? {
      BeginRoundKeepsInv(s.(failures := SaturatingSucc(s.failures)));
    } else {
      BeginRoundKeepsInv(s.(eventFailures := SaturatingSucc(s.eventFailures)));
    }
  }

  lemma ReplyKeepsInv(s: Worker, input: Input)
    requires Inv(s) && (s.pc.AwaitHeartbeat? || s.pc.AwaitSession?) && Completes(s, input) && !s.cancelled
    ensures Inv(Proceed(s, input))
  {
    var r := input.response;
    if s.pc.AwaitHeartbeat? {
      if Delivered(r) { HeartbeatSuccessKeepsInv(s); } else { HeartbeatFailureKeepsInv(s); }
    } else {
      if Delivered(r) || Rejected(r) { ResolveKeepsInv(s, r); } else { RetryKeepsInv(s, r); }
    }
  }

  lemma ProceedKeepsInv(s: Worker, input: Input)
    requires Inv(s) && Completes(s, input)
    ensures Inv(Proceed(s, input))
  {
    if !s.cancelled {
      match s.pc
      case AwaitPayload => PayloadKeepsInv(s, input);
      case AwaitEvent => ReceiveKeepsInv(s, input);
      case HeartbeatBackoff => BackoffKeepsInv(s, input);
      case EventBackoff => BackoffKeepsInv(s, input);
      case AwaitHeartbeat => ReplyKeepsInv(s, input);
      case AwaitSession(_) => ReplyKeepsInv(s, input);
    }
  }

  lemma EnvironmentKeepsInv(s: Worker, input: Input)
    requires Inv(s)
    ensures Inv(Environment(s, input))
  {
    if input.Send? {
      LawfulAccept(s.log, s.accepted, input.event);
    }
  }

  lemma {:induction false} RunKeepsInv(inputs: seq<Input>)
    ensures Inv(Run(Init(), inputs))
  {
    if inputs != [] {
      var before := inputs[..|inputs| - 1];
      RunKeepsInv(before);
      var s := Run(Init(), before);
      var input := inputs[|inputs| - 1];
      if Completes(s, input) {
        ProceedKeepsInv(s, input);
      } else {
        EnvironmentKeepsInv(s, input);
      }
    }
  }

  // ------------------------------------------------------ laws of every run

  /**
   Until the worker returns nothing is lost, duplicated or reordered; after it
   returns the resolved events are still a prefix of the accepted ones.
   */
  lemma EventsConserved(inputs: seq<Input>)
    ensures var s := Run(Init(), inputs);
            && (!s.pc.Returned? ==> s.accepted == Resolved(s.log) + InHand(s) + s.queue)
            && Resolved(s.log) <= s.accepted
            && |s.queue| <= 256
  {
    RunKeepsInv(inputs);
  }

  /** Order, gating, backoff and timing of every single action of every run. */
  lemma EveryActionLawful(inputs: seq<Input>, k: nat)
    requires k < |Run(Init(), inputs).log|
    ensures var s := Run(Init(), inputs); Lawful(s.log[..k], s.log[k], s.accepted)
  {
    RunKeepsInv(inputs);
    LawfulEntry(Run(Init(), inputs).log, Run(Init(), inputs).accepted, k);
  }

  // ------------------------------------------------------ the laws in numbers

  /** The replies after which an event is done with. */
  predicate Settles(r: Response) {
    r.Status? && (200 <= r.code <= 299 || (400 <= r.code <= 499 && r.code !in {401, 409, 429}))
  }

  /**
   In every run, a reply to a session post resolves its event if and only if its
   code is 200 to 299, or 400 to 499 and none of 401, 409 and 429. After any
   other reply, or none, the event stays in hand and the worker waits.
   */
  lemma ReplyResolvesIff(inputs: seq<Input>, r: Response)
    requires Run(Init(), inputs).pc.AwaitSession? && !Run(Init(), inputs).cancelled
    ensures var s := Run(Init(), inputs);
            var t := Run(Init(), inputs + [Reply(r)]);
            && t.accepted == s.accepted && t.queue <= s.queue
            && if Settles(r) then Resolved(t.log) == Resolved(s.log) + [s.pc.event]
               else Resolved(t.log) == Resolved(s.log) && InHand(t) == [s.pc.event] && t.pc.EventBackoff?
                    && t.queue == s.queue
  {
    var s := Run(Init(), inputs);
    RunKeepsInv(inputs);
    assert (inputs + [Reply(r)])[..|inputs|] == inputs;
    ReplyReads(s, r);
  }

  lemma ReplyReads(s: Worker, r: Response)
    requires Inv(s) && s.pc.AwaitSession? && !s.cancelled
    ensures var t := SessionReply(s, s.pc.event, r);
            Resolved(t.log) == Resolved(s.log) + if Settles(r) then [s.pc.event] else []
  {
    var resolved := s.log + [SessionResolved(s.pc.event, r)];
    ReadAppend(s.log, SessionResolved(s.pc.event, r));
    ReadAppend(resolved, RoundStart(s.now));
    ReadAppend(s.log, EventWait(s.now, RetrySeconds(s.eventFailures)));
    assert Resolved(s.log) + [] == Resolved(s.log);
  }

  /** A heartbeat opens the round if and only if its reply has a code of 200 to 299. */
  lemma HeartbeatDeliveredIff(inputs: seq<Input>, r: Response)
    requires Run(Init(), inputs).pc.AwaitHeartbeat? && !Run(Init(), inputs).cancelled
    ensures var t := Run(Init(), inputs + [Reply(r)]);
            if r.Status? && 200 <= r.code <= 299
            then OpenSince(t.log) == Some(t.now) && (t.pc.AwaitEvent? || t.pc.AwaitSession?)
            else OpenSince(t.log).None? && t.pc.HeartbeatBackoff?
  {
    var s := Run(Init(), inputs);
    RunKeepsInv(inputs);
    assert (inputs + [Reply(r)])[..|inputs|] == inputs;
    RunKeepsInv(inputs + [Reply(r)]);
    ReadHeartbeatDelivered(s.log, s.now);
    ReadHeartbeatWait(s.log, s.now, RetrySeconds(s.failures));
  }

  /** Thirty seconds, then sixty, then three hundred. */
  function Patience(failures: nat): nat {
    if failures == 0 then 30 else if failures == 1 then 60 else 300
  }

  /** The law of one entry, in numbers. */
  ghost predicate InNumbers(before: seq<Entry>, entry: Entry) {
    && (entry.HeartbeatWait? ==> entry.seconds == Patience(HeartbeatStreak(before)))
    && (entry.EventWait? ==> entry.seconds == Patience(EventStreak(before)))
    && (before != [] ==>
          var last := before[|before| - 1];
          last.HeartbeatWait? || last.EventWait? ==> entry == RoundStart(last.at + last.seconds))
    && (entry.RoundStart? && OpenSince(before).Some? ==>
          var (open, last) := (OpenSince(before).value, before[|before| - 1]);
          && entry.at <= open + 365
          && (!last.EventWait? && !last.HeartbeatWait? ==> open + 60 <= entry.at <= open + 65))
  }

  lemma LawfulInNumbers(before: seq<Entry>, entry: Entry, accepted: seq<Event>)
    requires Lawful(before, entry, accepted)
    ensures InNumbers(before, entry)
  {
  }

  /**
   In every run: a wait lasts 30, 60 or 300 seconds by the failures since the
   last success, what follows it is a new round exactly when it is over, a round
   without a wait lasts 60 to 65 seconds, and no round lasts longer than 365.
   */
  lemma WaitsInNumbers(inputs: seq<Input>, k: nat)
    requires k < |Run(Init(), inputs).log|
    ensures InNumbers(Run(Init(), inputs).log[..k], Run(Init(), inputs).log[k])
  {
    EveryActionLawful(inputs, k);
    var s := Run(Init(), inputs);
    LawfulInNumbers(s.log[..k], s.log[k], s.accepted);
  }

  /** A heartbeat is posted exactly when there is a payload; without one it counts as failed. */
  lemma PayloadPosts(s: Worker, present: bool)
    requires s.pc.AwaitPayload? && !s.cancelled
    ensures var t := Next(s, Payload(present));
            if present then t.pc == AwaitHeartbeat && t.log == s.log + [HeartbeatPost]
            else t.pc == HeartbeatBackoff && |t.log| == |s.log| + 1 && t.log[|s.log|].HeartbeatWait?
  {
  }

  /** At the top of the inner loop: the next event is taken if there is one, even after the deadline or a close. */
  lemma ReceivesFirst(s: Worker)
    requires s.pc.AwaitEvent? && !s.cancelled
    ensures var t := Next(s, Wake);
            if s.queue != [] then
              t.pc == AwaitSession(s.queue[0]) && t.queue == s.queue[1..] && t.log == s.log + [SessionPost(s.queue[0])]
            else if s.closed then t.pc == Returned && t.log == s.log
            else if s.now >= s.deadline then t.pc == AwaitPayload && t.log == s.log + [RoundStart(s.now)]
            else t == s
  {
  }

  /** The worker returns exactly when it is cancelled at an await, or its channel is closed and empty. */
  lemma ReturnsIff(s: Worker, input: Input)
    requires !s.pc.Returned?
    ensures Next(s, input).pc.Returned? <==>
            Completes(s, input) && (s.cancelled || (s.pc.AwaitEvent? && s.queue == [] && s.closed))
  {
  }

  /** A sent event is taken exactly while the worker runs, the channel is open and fewer than 256 events wait. */
  lemma SendTakenIff(s: Worker, event: Event)
    ensures var t := Next(s, Send(event));
            if !s.pc.Returned? && !s.closed && |s.queue| < 256
            then t.accepted == s.accepted + [event] && t.queue == s.queue + [event]
            else t == s
  {
  }

  lemma {:induction false} OpenSinceWitness(log: seq<Entry>) returns (j: nat)
    requires OpenSince(log).Some?
    ensures j < |log| && log[j] == HeartbeatDelivered(OpenSince(log).value)
    ensures forall m :: j < m < |log| ==> !log[m].RoundStart?
  {
    var n := |log| - 1;
    if log[n].HeartbeatDelivered? {
      j := n;
    } else {
      j := OpenSinceWitness(log[..n]);
    }
  }

  lemma {:induction false} AttemptedWitness(log: seq<Entry>, i: nat)
    requires i < |log| && log[i].SessionPost?
    requires forall m :: i < m < |log| ==> !log[m].SessionResolved? && !log[m].HeartbeatDelivered?
    ensures Attempted(log)
  {
    if i < |log| - 1 {
      AttemptedWitness(log[..|log| - 1], i);
    }
  }

  /** A session is posted only after a heartbeat delivered in the same round. */
  lemma PostFollowsHeartbeat(inputs: seq<Input>, k: nat)
    requires k < |Run(Init(), inputs).log| && Run(Init(), inputs).log[k].SessionPost?
    ensures var log := Run(Init(), inputs).log;
            exists j :: 0 <= j < k && log[j].HeartbeatDelivered? && forall m :: j < m < k ==> !log[m].RoundStart?
  {
    EveryActionLawful(inputs, k);
    var log := Run(Init(), inputs).log;
    var j := OpenSinceWitness(log[..k]);
    assert log[j].HeartbeatDelivered? && forall m :: j < m < k ==> !log[m].RoundStart? by {
      assert forall m :: 0 <= m < k ==> log[..k][m] == log[m];
    }
  }

  /** Between two posts with nothing resolved in between lies another delivered heartbeat. */
  lemma RepostFollowsHeartbeat(inputs: seq<Input>, i: nat, k: nat)
    requires i < k < |Run(Init(), inputs).log|
    requires Run(Init(), inputs).log[i].SessionPost? && Run(Init(), inputs).log[k].SessionPost?
    requires forall m :: i < m < k ==> !Run(Init(), inputs).log[m].SessionResolved?
    ensures exists j :: i < j < k && Run(Init(), inputs).log[j].HeartbeatDelivered?
  {
    EveryActionLawful(inputs, k);
    var log := Run(Init(), inputs).log;
    if forall j :: i < j < k ==> !log[j].HeartbeatDelivered? {
      AttemptedWitness(log[..k], i);
    }
  }

  /** Once cancellation is visible the worker does nothing more: no post, no wait, no new round. */
  lemma {:induction false} CancelledWorkerIsSilent(s: Worker, inputs: seq<Input>)
    requires s.cancelled
    ensures Run(s, inputs).cancelled && Run(s, inputs).log == s.log
  {
    if inputs != [] {
      CancelledWorkerIsSilent(s, inputs[..|inputs| - 1]);
    }
  }

  // ------------------------------------------------------------------ progress

  lemma {:induction false} RunConcat(s: Worker, a: seq<Input>, b: seq<Input>)
    ensures Run(s, a + b) == Run(Run(s, a), b)
  {
    if b == [] {
      assert a + b == a;
    } else {
      var n := |b| - 1;
      RunConcat(s, a, b[..n]);
      assert (a + b)[..|a + b| - 1] == a + b[..n];
    }
  }

  lemma RunOne(s: Worker, input: Input)
    ensures Run(s, [input]) == Next(s, input)
  {
    assert [input][..0] == [];
  }

  /** The worker still runs, and nobody cancels it or closes its channel. */
  predicate Running(s: Worker) {
    !s.cancelled && !s.closed && !s.pc.Returned?
  }

  /** A script of passing time, wake-ups, payloads and delivered replies only. */
  predicate Kind(input: Input) {
    input.Tick? || input.Wake? || (input.Payload? && input.present) || (input.Reply? && Delivered(input.response))
  }

  predicate AllKind(script: seq<Input>) {
    forall i :: 0 <= i < |script| ==> Kind(script[i])
  }

  function Outstanding(s: Worker): nat
    requires Resolved(s.log) <= s.accepted
  {
    |s.accepted| - |Resolved(s.log)|
  }

  /** How many awaits lie before the next session reply. */
  function Distance(pc: Pc): nat {
    match pc
    case AwaitSession(_) => 0
    case AwaitEvent => 1
    case AwaitHeartbeat => 2
    case AwaitPayload => 3
    case _ => 4
  }

  /** The kind input that moves the worker on. */
  function KindInput(s: Worker): (input: Input)
    ensures Kind(input)
  {
    match s.pc
    case AwaitPayload => Payload(true)
    case AwaitHeartbeat => Reply(Status(200))
    case AwaitSession(_) => Reply(Status(200))
    case _ => Wake
  }

  /** Waits until the sleep the worker stands at is over. */
  function Rested(s: Worker): Worker {
    if (s.pc.HeartbeatBackoff? || s.pc.EventBackoff?) && s.now < s.timer then s.(now := s.timer) else s
  }

  /** How long the sleep still lasts. */
  function RestSeconds(s: Worker): nat {
    if (s.pc.HeartbeatBackoff? || s.pc.EventBackoff?) && s.now < s.timer then s.timer - s.now else 0
  }

  lemma RestedByTick(s: Worker)
    ensures Rested(s) == Next(s, Tick(RestSeconds(s)))
  {
  }

  lemma RestedKeepsInv(s: Worker)
    requires Inv(s)
    ensures Inv(Rested(s))
  {
    var t := Rested(s);
    if !s.pc.Returned? {
      assert Conserved(t) && Shaped(t);
      assert Counted(t) && Timely(t);
    }
  }

  /** Resolving the event in hand takes it off the outstanding ones. */
  lemma ReplyResolves(s: Worker)
    requires Inv(s) && Running(s) && s.pc.AwaitSession?
    ensures var t := Proceed(s, Reply(Status(200)));
            Running(t) && t.accepted == s.accepted && Resolved(t.log) == Resolved(s.log) + [s.pc.event]
  {
    var entry := SessionResolved(s.pc.event, Status(200));
    ReadAppend(s.log, entry);
    ReadAppend(s.log + [entry], RoundStart(s.now));
  }

  lemma DeliveredAdvances(s: Worker)
    requires Running(s) && s.pc.AwaitHeartbeat?
    ensures var t := HeartbeatSuccess(s);
            && Running(t) && t.accepted == s.accepted && Resolved(t.log) == Resolved(s.log)
            && Distance(t.pc) < Distance(s.pc)
  {
    var log := s.log + [HeartbeatDelivered(s.now)];
    ReadAppend(s.log, HeartbeatDelivered(s.now));
    if s.pending.Some? { ReadAppend(log, SessionPost(s.pending.value)); }
  }

  /** At any other await with work left, the kind input leads one await closer to a session reply. */
  lemma KindStepAdvances(s: Worker)
    requires Inv(s) && Running(s) && !s.pc.AwaitSession? && Rested(s) == s
    requires s.pc.AwaitEvent? ==> s.queue != []
    ensures Completes(s, KindInput(s))
    ensures var t := Proceed(s, KindInput(s));
            && Running(t) && t.accepted == s.accepted && Resolved(t.log) == Resolved(s.log)
            && Distance(t.pc) < Distance(s.pc)
  {
    match s.pc
    case AwaitPayload => ReadAppend(s.log, HeartbeatPost);
    case AwaitHeartbeat => DeliveredAdvances(s);
    case AwaitEvent => ReadAppend(s.log, SessionPost(s.queue[0]));
    case HeartbeatBackoff => ReadAppend(s.log, RoundStart(s.now));
    case EventBackoff => ReadAppend(s.log, RoundStart(s.now));
  }

  /** A rest and one kind input, as a script. */
  lemma KindStep(s: Worker) returns (script: seq<Input>)
    requires Inv(s) && Running(s) && Completes(Rested(s), KindInput(s))
    ensures AllKind(script) && Run(s, script) == Proceed(Rested(s), KindInput(s)) && Inv(Run(s, script))
  {
    RestedByTick(s);
    RestedKeepsInv(s);
    var rest := Tick(RestSeconds(s));
    script := [rest] + [KindInput(s)];
    RunConcat(s, [rest], [KindInput(s)]);
    RunOne(s, rest);
    RunOne(Rested(s), KindInput(s));
    ProceedKeepsInv(Rested(s), KindInput(s));
  }

  lemma AllKindConcat(a: seq<Input>, b: seq<Input>)
    requires AllKind(a) && AllKind(b)
    ensures AllKind(a + b)
  {
  }

  lemma {:induction false} KindScript(s: Worker) returns (script: seq<Input>)
    requires Inv(s) && Running(s)
    ensures AllKind(script) && Run(s, script).accepted == s.accepted
    ensures Resolved(Run(s, script).log) == s.accepted
    decreases Outstanding(s), Distance(s.pc)
  {
    if s.pc.AwaitEvent? && s.queue == [] {
      script := [];
    } else {
      var r := Rested(s);
      RestedKeepsInv(s);
      if s.pc.AwaitSession? { ReplyResolves(r); } else { KindStepAdvances(r); }
      var first := KindStep(s);
      var t := Run(s, first);
      assert t == Proceed(r, KindInput(r));
      var rest := KindScript(t);
      script := first + rest;
      RunConcat(s, first, rest);
      AllKindConcat(first, rest);
    }
  }

  /**
   Progress: from every reachable state in which the worker still runs, some
   script of passing time and delivered replies resolves every accepted event.
   */
  lemma EveryEventCanBeResolved(inputs: seq<Input>) returns (script: seq<Input>)
    requires Running(Run(Init(), inputs))
    ensures AllKind(script)
    ensures var t := Run(Init(), inputs + script);
            t.accepted == Run(Init(), inputs).accepted && Resolved(t.log) == t.accepted
  {
    RunKeepsInv(inputs);
    script := KindScript(Run(Init(), inputs));
    RunConcat(Init(), inputs, script);
  }

  // -------------------------------------------------- the loop as it is coded

  /** How a stretch of the loop ended: the worker is over, a new round is due, or it goes on. */
  datatype Flow = Finished | NextRound | Onward

  /** `run` lists the machine's states along a script of inputs. */
  ghost predicate IsRun(script: seq<Input>, run: seq<Worker>) {
    && |run| == |script| + 1 && run[0] == Init()
    && forall k :: 0 <= k < |script| ==> run[k + 1] == Next(run[k], script[k])
  }

  lemma {:induction false} RunStates(script: seq<Input>, run: seq<Worker>, k: nat)
    requires IsRun(script, run) && k <= |script|
    ensures run[k] == Run(Init(), script[..k])
  {
    if k > 0 {
      RunStates(script, run, k - 1);
      assert script[..k][..k - 1] == script[..k - 1];
    }
  }

  /** The spawned loop over a script of inputs, in place; it refines the machine. */
  class ReporterWorker {
    var failures: nat
    var eventFailures: nat
    var pending: Option<Event>
    var deadline: nat
    var timer: nat
    var now: nat
    var queue: seq<Event>
    var closed: bool
    var cancelled: bool
    var position: nat
    var pc: Pc
    var accepted: seq<Event>
    var log: seq<Entry>

    function View(): Worker
      reads this
    {
      Worker(pc, failures, eventFailures, pending, deadline, timer, now, queue, closed, cancelled, accepted, log)
    }

    constructor ()
      ensures BeginRound(View()) == Init() && position == 0
    {
      failures, eventFailures, pending, deadline, timer, now := 0, 0, None, 0, 0, 0;
      queue, closed, cancelled, position := [], false, false, 0;
      pc, accepted, log := AwaitPayload, [], [];
    }

    /** One await: the environment acts until the await completes or the script ends. */
    method Await(script: seq<Input>, ghost run: seq<Worker>) returns (outcome: Option<Input>)
      requires IsRun(script, run) && position <= |script| && View() == run[position]
      modifies this`now, this`queue, this`closed, this`cancelled, this`accepted, this`position
      ensures old(position) <= position <= |script|
      ensures outcome.None? ==> position == |script| && View() == run[position]
      ensures outcome.Some? ==>
                && old(position) < position && outcome.value == script[position - 1]
                && Completes(View(), outcome.value)
                && Proceed(View(), outcome.value) == run[position]
    {
      while position < |script|
        invariant old(position) <= position <= |script|
        invariant View() == run[position]
      {
        var input := script[position];
        position := position + 1;
        if Completes(View(), input) {
          return Some(input);
        }
        match input {
          case Send(event) =>
            if !pc.Returned? && !closed && |queue| < CHANNEL_CAPACITY {
              queue := queue + [event];
              accepted := accepted + [event];
            }
          case Cancel => cancelled := true;
          case CloseSender => closed := true;
          case Tick(seconds) =>
            if MayTick(View(), seconds) { now := now + seconds; }
          case Payload(_) =>
          case Reply(_) =>
          case Wake =>
        }
      }
      return None;
    }

    ghost predicate Over(script: seq<Input>, run: seq<Worker>)
      reads this
    {
      && position <= |script| && |run| == |script| + 1 && View() == run[position]
      && (position == |script| || pc.Returned?)
    }

    /**
     The spawned loop. After any script it is where the machine is, unless the
     worker returned before the script ended.
     */
    method Spawned(script: seq<Input>, ghost run: seq<Worker>)
      requires IsRun(script, run) && BeginRound(View()) == Init() && position == 0
      modifies this
      ensures Over(script, run)
    {
      while true
        invariant position <= |script|
        invariant BeginRound(View()) == run[position]
        decreases |script| - position
      {
        var finished := Round(script, run);
        if finished { return; }
      }
    }

    /** One round of the loop: a heartbeat, and once it is delivered the events. */
    method Round(script: seq<Input>, ghost run: seq<Worker>) returns (finished: bool)
      requires IsRun(script, run) && position <= |script| && BeginRound(View()) == run[position]
      modifies this
      ensures finished ==> Over(script, run)
      ensures !finished ==> old(position) < position <= |script| && BeginRound(View()) == run[position]
    {
      log := log + [RoundStart(now)];
      pc := AwaitPayload;
      var flow := Heartbeat(script, run);
      if flow.Finished? { return true; }
      if flow.NextRound? { return false; }
      failures := 0;
      deadline := now + DRAIN_SECONDS;
      log := log + [HeartbeatDelivered(now)];
      finished := DrainEvents(script, run);
    }

    /** The heartbeat of one round, with its backoff when it fails. */
    method Heartbeat(script: seq<Input>, ghost run: seq<Worker>) returns (flow: Flow)
      requires IsRun(script, run) && position <= |script| && View() == run[position] && pc.AwaitPayload?
      modifies this
      ensures flow.Finished? ==> Over(script, run)
      ensures !flow.Finished? ==> old(position) < position <= |script|
      ensures flow.NextRound? ==> BeginRound(View()) == run[position]
      ensures flow.Onward? ==> HeartbeatSuccess(View()) == run[position]
    {
      var outcome := Await(script, run);
      if outcome.None? { return Finished; }
      if cancelled { pc := Returned; return Finished; }
      if outcome.value.present {
        flow := PostHeartbeat(script, run);
      } else {
        flow := HeartbeatSleep(script, run);
      }
    }

    method PostHeartbeat(script: seq<Input>, ghost run: seq<Worker>) returns (flow: Flow)
      requires IsRun(script, run) && position <= |script|
      requires View().(pc := AwaitHeartbeat, timer := now + REQUEST_TIMEOUT, log := log + [HeartbeatPost])
               == run[position]
      modifies this
      ensures flow.Finished? ==> Over(script, run)
      ensures !flow.Finished? ==> old(position) < position <= |script|
      ensures flow.NextRound? ==> BeginRound(View()) == run[position]
      ensures flow.Onward? ==> HeartbeatSuccess(View()) == run[position]
    {
      log := log + [HeartbeatPost];
      timer := now + REQUEST_TIMEOUT;
      pc := AwaitHeartbeat;
      var outcome := Await(script, run);
      if outcome.None? { return Finished; }
      if cancelled { pc := Returned; return Finished; }
      if Delivered(outcome.value.response) { return Onward; }
      flow := HeartbeatSleep(script, run);
    }

    method HeartbeatSleep(script: seq<Input>, ghost run: seq<Worker>) returns (flow: Flow)
      requires IsRun(script, run) && position <= |script| && HeartbeatFailure(View()) == run[position]
      modifies this
      ensures flow.Finished? ==> Over(script, run)
      ensures !flow.Finished? ==> flow.NextRound? && old(position) < position <= |script|
      ensures flow.NextRound? ==> BeginRound(View()) == run[position]
    {
      var pause := RetrySeconds(failures);
      log := log + [HeartbeatWait(now, pause)];
      timer := now + pause;
      pc := HeartbeatBackoff;
      var outcome := Await(script, run);
      if outcome.None? { return Finished; }
      if cancelled { pc := Returned; return Finished; }
      failures := SaturatingSucc(failures);
      return NextRound;
    }

    /** The inner loop of one round; `finished` when the worker returned or the script ended. */
    method DrainEvents(script: seq<Input>, ghost run: seq<Worker>) returns (finished: bool)
      requires IsRun(script, run) && position <= |script| && Drain(View()) == run[position]
      modifies this
      ensures finished ==> Over(script, run)
      ensures !finished ==> old(position) <= position <= |script| && BeginRound(View()) == run[position]
    {
      while true
        invariant old(position) <= position <= |script|
        invariant Drain(View()) == run[position]
        decreases |script| - position
      {
        var event;
        if pending.Some? {
          event := pending.value;
          pending := None;
        } else {
          var flow;
          flow, event := Receive(script, run);
          if flow.Finished? { return true; }
          if flow.NextRound? { return false; }
        }
        var flow := PostSession(event, script, run);
        if flow.Finished? { return true; }
        if flow.NextRound? { return false; }
        if now >= deadline {
          return false;
        }
      }
    }

    method Receive(script: seq<Input>, ghost run: seq<Worker>) returns (flow: Flow, event: Event)
      requires IsRun(script, run) && position <= |script| && View().(pc := AwaitEvent) == run[position]
      modifies this
      ensures flow.Finished? ==> Over(script, run)
      ensures !flow.Finished? ==> old(position) < position <= |script|
      ensures flow.NextRound? ==> BeginRound(View()) == run[position]
      ensures flow.Onward? ==> StartSession(View(), event) == run[position] && pending == old(pending)
    {
      event := "";
      pc := AwaitEvent;
      var outcome := Await(script, run);
      if outcome.None? { return Finished, event; }
      if cancelled { pc := Returned; return Finished, event; }
      if queue != [] {
        event := queue[0];
        queue := queue[1..];
        return Onward, event;
      } else if closed {
        pc := Returned;
        return Finished, event;
      }
      return NextRound, event;
    }

    method PostSession(event: Event, script: seq<Input>, ghost run: seq<Worker>) returns (flow: Flow)
      requires IsRun(script, run) && position <= |script| && StartSession(View(), event) == run[position]
      requires pending.None?
      modifies this
      ensures flow.Finished? ==> Over(script, run)
      ensures !flow.Finished? ==> old(position) < position <= |script|
      ensures flow.NextRound? ==> BeginRound(View()) == run[position]
      ensures flow.Onward? ==>
                (if now >= deadline then BeginRound(View()) else Drain(View())) == run[position]
    {
      log := log + [SessionPost(event)];
      timer := now + REQUEST_TIMEOUT;
      pc := AwaitSession(event);
      var outcome := Await(script, run);
      if outcome.None? { return Finished; }
      if cancelled { pc := Returned; return Finished; }
      flow := HandleReply(event, outcome.value.response, script, run);
    }

    /** The reply to a session post: resolved, or kept pending for a later round. */
    method HandleReply(event: Event, response: Response, script: seq<Input>, ghost run: seq<Worker>)
      returns (flow: Flow)
      requires IsRun(script, run) && position <= |script| && SessionReply(View(), event, response) == run[position]
      requires pc == AwaitSession(event) && pending.None?
      modifies this
      ensures flow.Finished? ==> Over(script, run)
      ensures !flow.Finished? ==> old(position) <= position <= |script|
      ensures flow.NextRound? ==> BeginRound(View()) == run[position]
      ensures flow.Onward? ==>
                (if now >= deadline then BeginRound(View()) else Drain(View())) == run[position]
    {
      if Delivered(response) {
        eventFailures := 0;
        log := log + [SessionResolved(event, response)];
        return Onward;
      }
      if Rejected(response) {
        log := log + [SessionResolved(event, response)];
        return Onward;
      }
      pending := Some(event);
      flow := EventSleep(script, run);
    }

    method EventSleep(script: seq<Input>, ghost run: seq<Worker>) returns (flow: Flow)
      requires IsRun(script, run) && position <= |script| && pending.Some?
      requires var pause := RetrySeconds(eventFailures);
               View().(pc := EventBackoff, timer := now + pause, log := log + [EventWait(now, pause)]) == run[position]
      modifies this
      ensures flow.Finished? ==> Over(script, run)
      ensures !flow.Finished? ==> flow.NextRound? && old(position) < position <= |script|
      ensures flow.NextRound? ==> BeginRound(View()) == run[position]
    {
      var pause := RetrySeconds(eventFailures);
      log := log + [EventWait(now, pause)];
      timer := now + pause;
      pc := EventBackoff;
      var outcome := Await(script, run);
      if outcome.None? { return Finished; }
      if cancelled { pc := Returned; return Finished; }
      eventFailures := SaturatingSucc(eventFailures);
      return NextRound;
    }
  }
}
