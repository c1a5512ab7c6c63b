/** The tool loop of the dispatcher: depth and budget counters carried in event payloads bound how often
    a tool result is turned into a new request to the oracle. */
module Automation {
  import opened Common

  /** A payload entry as the dispatcher may find it; booleans do not pass for integers. */
  datatype Raw = Absent | Integer(n: int) | NotInteger

  datatype Reason = MaxDepth | BudgetExhausted | RepeatedEquivalentEvent

  datatype Kind =
    | ToolOutput(resumeOracle: bool)
    | ToolResultAdapted
    | OracleRequest
    | OracleContextMessage
    | AnalysisPromoted
    | AutomationStopped(reason: Reason)
    | OtherEvent

  /** An event of the log. `cause` is the position of the event it continues, `digest` the hash of a
      tool result, `signature` the one an adapted result records, and `dispatched` says that the
      dispatcher emitted it. */
  datatype Message = Message(kind: Kind, cause: Option<nat>, correlation: Option<Id>, digest: int,
                             depth: Raw, budget: Raw, signature: Option<int>, dispatched: bool)

  datatype Limits = Limits(maxDepth: int, maxBudget: int)

  predicate Bounded(limits: Limits) {
    limits.maxDepth >= 0 && limits.maxBudget >= 1
  }

  function AtLeastZero(n: int): nat {
    if n < 0 then 0 else n
  }

  /** `_automation_state`. */
  function Depth(m: Message): nat {
    if m.depth.Integer? then AtLeastZero(m.depth.n) else 0
  }

  function Budget(limits: Limits, m: Message): nat {
    AtLeastZero(if m.budget.Integer? then m.budget.n else limits.maxBudget)
  }

  // ------------------------------------------------------------------- one dispatch

  /** `list_events(correlation_id=...)` filters only by a correlation that is there. */
  predicate SameCorrelation(source: Message, m: Message) {
    source.correlation.None? || m.correlation == source.correlation
  }

  predicate HasEquivalent(log: seq<Message>, source: Message) {
    exists k :: 0 <= k < |log| && IsEquivalent(log[k], source)
  }

  predicate IsEquivalent(m: Message, source: Message) {
    m.kind == ToolResultAdapted && SameCorrelation(source, m) && m.signature == Some(source.digest)
  }

  datatype Decision = Nothing | Stop(reason: Reason) | Emit(message: Message)

  function Adapted(limits: Limits, source: Message, i: nat): Message {
    Message(ToolResultAdapted, Some(i), source.correlation, 0, Integer(Depth(source) + 1),
            Integer(AtLeastZero(Budget(limits, source) - 1)), Some(source.digest), true)
  }

  /** A request keeps the counters it finds; one that resumes after a tool result pays for itself. */
  function Request(limits: Limits, source: Message, i: nat): Message {
    Message(OracleRequest, Some(i), source.correlation, 0, source.depth,
            if source.kind == ToolResultAdapted then Integer(AtLeastZero(Budget(limits, source) - 1)) else source.budget,
            source.signature, true)
  }

  /** The rules on the loop, and the stop logic of `_execute`. */
  function Decide(limits: Limits, log: seq<Message>, i: nat): Decision
    requires i < |log|
  {
    var source := log[i];
    match source.kind
    case ToolOutput(resumeOracle) =>
      if !resumeOracle then Nothing
      else if Depth(source) >= limits.maxDepth then Stop(MaxDepth)
      else if Budget(limits, source) <= 0 then Stop(BudgetExhausted)
      else if HasEquivalent(log, source) then Stop(RepeatedEquivalentEvent)
      else Emit(Adapted(limits, source, i))
    case ToolResultAdapted =>
      if Budget(limits, source) <= 0 then Stop(BudgetExhausted)
      else if AlreadyEmitted(log, i, OracleRequest) then Nothing
      else Emit(Request(limits, source, i))
    case OracleContextMessage => if AlreadyEmitted(log, i, OracleRequest) then Nothing else Emit(Request(limits, source, i))
    case AnalysisPromoted => if AlreadyEmitted(log, i, OracleRequest) then Nothing else Emit(Request(limits, source, i))
    case _ => Nothing
  }

  predicate AlreadyEmitted(log: seq<Message>, i: nat, kind: Kind) {
    exists k :: 0 <= k < |log| && EmittedFor(log[k], i, kind)
  }

  predicate EmittedFor(m: Message, i: nat, kind: Kind) {
    m.dispatched && m.cause == Some(i) && m.kind == kind
  }

  function StopMessage(limits: Limits, source: Message, i: nat, reason: Reason): Message {
    Message(AutomationStopped(reason), Some(i), source.correlation, 0, Integer(Depth(source)),
            Integer(Budget(limits, source)),
            if source.kind == ToolResultAdapted then source.signature else Some(source.digest), true)
  }

  function Rank(kind: Kind): nat {
    match kind
    case ToolOutput(_) => 2
    case ToolResultAdapted => 1
    case OracleContextMessage => 1
    case AnalysisPromoted => 1
    case _ => 0
  }

  /** The log after `dispatch` of its event `i`, with everything that cascades from it. */
  function Dispatched(limits: Limits, log: seq<Message>, i: nat): seq<Message>
    requires i < |log|
    decreases Rank(log[i].kind)
  {
    match Decide(limits, log, i)
    case Nothing => log
    case Stop(reason) =>
      if AlreadyEmitted(log, i, AutomationStopped(reason)) then log
      else log + [StopMessage(limits, log[i], i, reason)]
    case Emit(message) => Dispatched(limits, log + [message], |log|)
  }

  /** The event for which dispatching event `i` comes to emit a request, directly or at the end of the cascade. */
  function RequestedFor(limits: Limits, log: seq<Message>, i: nat): (source: Option<nat>)
    requires i < |log|
    decreases Rank(log[i].kind)
  {
    match Decide(limits, log, i)
    case Nothing => None
    case Stop(_) => None
    case Emit(message) =>
      if message.kind == OracleRequest then Some(i) else RequestedFor(limits, log + [message], |log|)
  }

  /** One emission of a cascade: a request ends it, and an adapted result goes on to its own. */
  lemma EmitStep(limits: Limits, log: seq<Message>, i: nat, message: Message)
    requires i < |log| && Decide(limits, log, i) == Emit(message)
    ensures Rank(message.kind) < Rank(log[i].kind)
    ensures Dispatched(limits, log, i) == Dispatched(limits, log + [message], |log|)
    ensures message.kind == OracleRequest ==>
              message == Request(limits, log[i], i) && RequestedFor(limits, log, i) == Some(i)
              && Dispatched(limits, log, i) == log + [message] && RequestedFor(limits, log + [message], |log|) == None
    ensures message.kind != OracleRequest ==>
              RequestedFor(limits, log, i) == RequestedFor(limits, log + [message], |log|)
  {
    var one := log + [message];
    assert one[|log|] == message;
    if message.kind == OracleRequest { assert Decide(limits, one, |log|) == Nothing; }
  }

  // ------------------------------------------------------------- logs that can arise

  /** Outside the dispatcher, an event starts with fresh counters or copies those of its cause. Only the
      dispatcher adapts tool results and continues from them. */
  ghost predicate FromOutside(limits: Limits, log: seq<Message>, m: Message) {
    && m.kind != ToolResultAdapted && !m.dispatched
    && match m.cause
       case None => Depth(m) == 0 && Budget(limits, m) == limits.maxBudget
       case Some(i) => i < |log| && m.depth == log[i].depth && m.budget == log[i].budget
                       && !(log[i].kind == ToolResultAdapted && m.kind == OracleRequest)
  }

  ghost predicate FromDispatcher(limits: Limits, log: seq<Message>, m: Message) {
    m.cause.Some? && m.cause.value < |log|
    && match Decide(limits, log, m.cause.value)
       case Nothing => false
       case Stop(reason) => m == StopMessage(limits, log[m.cause.value], m.cause.value, reason)
       case Emit(message) => m == message
  }

  ghost predicate Legal(limits: Limits, log: seq<Message>) {
    log != [] ==>
      var earlier := log[..|log| - 1];
      var m := log[|log| - 1];
      Legal(limits, earlier) && (FromOutside(limits, earlier, m) || FromDispatcher(limits, earlier, m))
  }

  lemma LegalSnoc(limits: Limits, log: seq<Message>, m: Message)
    requires Legal(limits, log) && (FromOutside(limits, log, m) || FromDispatcher(limits, log, m))
    ensures Legal(limits, log + [m])
  {
    assert (log + [m])[..|log|] == log;
  }

  /** Dispatching an event of a legal log leaves a legal log that only grows. */
  lemma {:induction false} DispatchedIsLegal(limits: Limits, log: seq<Message>, i: nat)
    requires Legal(limits, log) && i < |log|
    ensures Legal(limits, Dispatched(limits, log, i)) && log <= Dispatched(limits, log, i)
    decreases Rank(log[i].kind)
  {
    match Decide(limits, log, i)
    case Nothing =>
    case Stop(reason) =>
      LegalSnoc(limits, log, StopMessage(limits, log[i], i, reason));
    case Emit(message) =>
      LegalSnoc(limits, log, message);
      DispatchedIsLegal(limits, log + [message], |log|);
  }

  // ------------------------------------------------------------------- causal chains

  predicate Causal(log: seq<Message>) {
    forall i :: 0 <= i < |log| && log[i].cause.Some? ==> log[i].cause.value < i
  }

  lemma {:induction false} LegalIsCausal(limits: Limits, log: seq<Message>)
    requires Legal(limits, log)
    ensures Causal(log)
  {
    if log != [] {
      LegalIsCausal(limits, log[..|log| - 1]);
      assert forall i :: 0 <= i < |log| - 1 ==> log[..|log| - 1][i] == log[i];
    }
  }

  /** How many tool results were adapted on the way to event `i`. */
  function Adaptations(log: seq<Message>, i: nat): nat
    requires Causal(log) && i < |log|
  {
    (if log[i].kind == ToolResultAdapted then 1 else 0)
    + if log[i].cause.Some? then Adaptations(log, log[i].cause.value) else 0
  }

  /** How many times, on the way to event `i`, a tool result led to a new request. */
  function Cycles(log: seq<Message>, i: nat): nat
    requires Causal(log) && i < |log|
  {
    if log[i].cause.None? then 0
    else
      var c := log[i].cause.value;
      Cycles(log, c) + if log[c].kind == ToolResultAdapted && log[i].kind == OracleRequest then 1 else 0
  }

  lemma {:induction false} CountsInPrefix(log: seq<Message>, n: nat, i: nat)
    requires Causal(log) && i < n <= |log|
    ensures Causal(log[..n])
    ensures Adaptations(log[..n], i) == Adaptations(log, i) && Cycles(log[..n], i) == Cycles(log, i)
    decreases i
  {
    if log[i].cause.Some? { CountsInPrefix(log, n, log[i].cause.value); }
  }

  /** The counters of an event record exactly what happened on the way to it. */
  ghost predicate Accounted(limits: Limits, log: seq<Message>, i: nat)
    requires Causal(log) && i < |log|
  {
    var adapted, cycles := Adaptations(log, i), Cycles(log, i);
    && Depth(log[i]) == adapted <= limits.maxDepth
    && Budget(limits, log[i]) + adapted + cycles == limits.maxBudget
    && cycles + (if log[i].kind == ToolResultAdapted then 1 else 0) <= adapted
  }

  lemma NewEventIsAccounted(limits: Limits, log: seq<Message>, m: Message)
    requires Bounded(limits) && Causal(log + [m])
    requires FromOutside(limits, log, m) || FromDispatcher(limits, log, m)
    requires m.cause.Some? ==> m.cause.value < |log| && Accounted(limits, log + [m], m.cause.value)
    ensures Accounted(limits, log + [m], |log|)
  {
    if m.cause.Some? {
      assert (log + [m])[m.cause.value] == log[m.cause.value];
    }
  }

  lemma {:induction false} EveryEventIsAccounted(limits: Limits, log: seq<Message>, i: nat)
    requires Bounded(limits) && Legal(limits, log) && i < |log|
    ensures Causal(log) && Accounted(limits, log, i)
    decreases |log|, i
  {
    LegalIsCausal(limits, log);
    var n := |log| - 1;
    var earlier := log[..n];
    assert log == earlier + [log[n]];
    if i < n {
      EveryEventIsAccounted(limits, earlier, i);
      CountsInPrefix(log, n, i);
    } else {
      if log[n].cause.Some? { EveryEventIsAccounted(limits, log, log[n].cause.value); }
      NewEventIsAccounted(limits, earlier, log[n]);
    }
  }

  /** Automation is bounded along every causal chain of every log. */
  lemma AutomationIsBounded(limits: Limits, log: seq<Message>, i: nat)
    requires Bounded(limits) && Legal(limits, log) && i < |log|
    ensures Causal(log) && Cycles(log, i) <= Least(limits.maxDepth, limits.maxBudget / 2)
  {
    EveryEventIsAccounted(limits, log, i);
  }

  lemma LegalIsBounded(limits: Limits, log: seq<Message>)
    requires Bounded(limits) && Legal(limits, log)
    ensures Causal(log)
    ensures forall k :: 0 <= k < |log| ==> Cycles(log, k) <= Least(limits.maxDepth, limits.maxBudget / 2)
  {
    LegalIsCausal(limits, log);
    forall k | 0 <= k < |log| ensures Cycles(log, k) <= Least(limits.maxDepth, limits.maxBudget / 2) {
      AutomationIsBounded(limits, log, k);
    }
  }

  /** A request that has gone round `n` times, in a log that used the digests below `n`. */
  ghost predicate WentRound(limits: Limits, log: seq<Message>, n: nat) {
    && log != [] && Legal(limits, log) && Causal(log)
    && log[|log| - 1].kind == OracleRequest && Cycles(log, |log| - 1) == n
    && Depth(log[|log| - 1]) == n && Budget(limits, log[|log| - 1]) == limits.maxBudget - 2 * n
    && forall k :: 0 <= k < |log| && log[k].signature.Some? ==> log[k].signature.value < n
  }

  /** One more round: a tool result caused by the last request, adapted, and a new request. */
  lemma OneMoreRound(limits: Limits, log: seq<Message>, n: nat) returns (longer: seq<Message>)
    requires Bounded(limits) && WentRound(limits, log, n)
    requires n < limits.maxDepth && 2 * n + 2 <= limits.maxBudget
    ensures WentRound(limits, longer, n + 1)
  {
    var last := |log| - 1;
    var output := Message(ToolOutput(true), Some(last), None, n, log[last].depth, log[last].budget, None, false);
    LegalSnoc(limits, log, output);
    var one := log + [output];
    assert !HasEquivalent(one, output);
    var adapted := Adapted(limits, output, last + 1);
    assert Decide(limits, one, last + 1) == Emit(adapted);
    LegalSnoc(limits, one, adapted);
    var two := one + [adapted];
    LegalIsCausal(limits, two);
    assert forall k :: 0 <= k < |one| && one[k].cause.Some? ==> one[k].cause.value < k;
    assert !AlreadyEmitted(two, last + 2, OracleRequest);
    var request := Request(limits, adapted, last + 2);
    assert Decide(limits, two, last + 2) == Emit(request);
    LegalSnoc(limits, two, request);
    longer := two + [request];
    LegalIsCausal(limits, longer);
    assert longer[..|log|] == log;
    CountsInPrefix(longer, |log|, last);
    assert longer[last + 1] == output && longer[last + 2] == adapted && longer[last + 3] == request;
    assert Cycles(longer, last + 1) == n && Cycles(longer, last + 2) == n;
  }

  /** The bound is reached: any smaller number of rounds can happen. */
  lemma {:induction false} BoundIsTight(limits: Limits, n: nat) returns (log: seq<Message>)
    requires Bounded(limits) && n <= Least(limits.maxDepth, limits.maxBudget / 2)
    ensures WentRound(limits, log, n)
  {
    if n == 0 {
      log := [Message(OracleRequest, None, None, 0, Absent, Absent, None, false)];
      assert log[..0] == [];
    } else {
      var fewer := BoundIsTight(limits, n - 1);
      log := OneMoreRound(limits, fewer, n - 1);
    }
  }

  // ---------------------------------------------------------- dispatching an event again

  lemma EquivalentStays(log: seq<Message>, longer: seq<Message>, source: Message)
    requires log <= longer && HasEquivalent(log, source)
    ensures HasEquivalent(longer, source)
  {
    var k :| 0 <= k < |log| && IsEquivalent(log[k], source);
    assert longer[k] == log[k];
  }

  /** A recorded stop for a repetition means that there was one. */
  lemma {:induction false} RepetitionWasThere(limits: Limits, log: seq<Message>, i: nat)
    requires Legal(limits, log) && i < |log|
    requires AlreadyEmitted(log, i, AutomationStopped(RepeatedEquivalentEvent))
    ensures HasEquivalent(log, log[i])
  {
    var k :| 0 <= k < |log| && EmittedFor(log[k], i, AutomationStopped(RepeatedEquivalentEvent));
    var n := |log| - 1;
    var earlier := log[..n];
    assert log == earlier + [log[n]];
    if k < n {
      LegalIsCausal(limits, log);
      assert earlier[k] == log[k] && log[k].cause.value < k;
      RepetitionWasThere(limits, earlier, i);
    } else {
      assert FromDispatcher(limits, earlier, log[n]);
      assert Decide(limits, earlier, i) == Stop(RepeatedEquivalentEvent);
    }
    EquivalentStays(earlier, log, log[i]);
  }

  /** What a tool result that was adapted does when it is dispatched again: one stop is recorded. */
  lemma AdaptedThenRepeated(limits: Limits, log: seq<Message>, i: nat)
    requires Legal(limits, log) && i < |log| && log[i].kind == ToolOutput(true) && Decide(limits, log, i).Emit?
    ensures var once := Dispatched(limits, log, i);
            i < |once| && Dispatched(limits, once, i)
                          == once + [StopMessage(limits, log[i], i, RepeatedEquivalentEvent)]
  {
    var adapted := Adapted(limits, log[i], i);
    var one := log + [adapted];
    LegalSnoc(limits, log, adapted);
    DispatchedIsLegal(limits, one, |log|);
    var once := Dispatched(limits, log, i);
    assert one <= once && once[i] == log[i] && once[|log|] == adapted;
    assert IsEquivalent(once[|log|], once[i]);
    if AlreadyEmitted(log, i, AutomationStopped(RepeatedEquivalentEvent)) { RepetitionWasThere(limits, log, i); }
    CascadeOf(limits, one, |log|);
    assert forall k :: 0 <= k < |log| ==> once[k] == log[k];
    assert !AlreadyEmitted(once, i, AutomationStopped(RepeatedEquivalentEvent));
    assert Decide(limits, once, i) == Stop(RepeatedEquivalentEvent);
  }

  /** Whatever an adapted result brings about cites it. */
  lemma CascadeOf(limits: Limits, log: seq<Message>, i: nat)
    requires i < |log| && log[i].kind == ToolResultAdapted
    ensures log <= Dispatched(limits, log, i)
    ensures forall k :: |log| <= k < |Dispatched(limits, log, i)| ==> Dispatched(limits, log, i)[k].cause == Some(i)
  {
    if Decide(limits, log, i).Emit? {
      var request := Decide(limits, log, i).message;
      assert Decide(limits, log + [request], |log|) == Nothing;
    }
  }

  /** Dispatching an event twice is dispatching it once, except for a tool result that was adapted. */
  lemma RedispatchIsIdempotentIff(limits: Limits, log: seq<Message>, i: nat)
    requires Legal(limits, log) && i < |log|
    ensures var once := Dispatched(limits, log, i);
            i < |once| && (Dispatched(limits, once, i) == once
                           <==> !(log[i].kind == ToolOutput(true) && Decide(limits, log, i).Emit?))
  {
    DispatchedIsLegal(limits, log, i);
    var once := Dispatched(limits, log, i);
    assert once[i] == log[i];
    match Decide(limits, log, i)
    case Nothing =>
    case Stop(reason) =>
      var stopped := log + [StopMessage(limits, log[i], i, reason)];
      assert EmittedFor(stopped[|log|], i, AutomationStopped(reason));
      assert AlreadyEmitted(once, i, AutomationStopped(reason));
      if HasEquivalent(log, log[i]) { EquivalentStays(log, once, log[i]); }
      assert Decide(limits, once, i) == Stop(reason);
    case Emit(message) =>
      if log[i].kind == ToolOutput(true) {
        AdaptedThenRepeated(limits, log, i);
      } else {
        var one := log + [message];
        assert Decide(limits, one, |log|) == Nothing && once == one;
        assert EmittedFor(once[|log|], i, OracleRequest);
        assert Decide(limits, once, i) == Nothing;
      }
  }
}
