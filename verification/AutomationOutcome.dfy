/** What the dispatch of one event leaves in the log, read off the fields of the event and of the log. */
module AutomationOutcome {
  import opened Common
  import opened Automation

  /** The counters an event carries: negative or missing ones count as none used. */
  ghost function DepthOf(m: Message): nat {
    if m.depth.Integer? && m.depth.n > 0 then m.depth.n else 0
  }

  ghost function BudgetOf(limits: Limits, m: Message): nat
    requires Bounded(limits)
  {
    if m.budget == NotInteger || m.budget == Absent then limits.maxBudget
    else if m.budget.n > 0 then m.budget.n
    else 0
  }

  /** The dispatcher has answered event `i` in this way before. */
  ghost predicate Answered(log: seq<Message>, i: nat, kind: Kind) {
    exists k :: 0 <= k < |log| && log[k].dispatched && log[k].cause == Some(i) && log[k].kind == kind
  }

  /** The same result has been adapted before, in the same correlation if there is one. */
  ghost predicate Repeats(log: seq<Message>, i: nat)
    requires i < |log|
  {
    exists k :: 0 <= k < |log| && log[k].kind == ToolResultAdapted && log[k].signature == Some(log[i].digest)
                && (log[i].correlation.Some? ==> log[k].correlation == log[i].correlation)
  }

  /** One event more, emitted for event `i`. */
  ghost predicate Adds(log: seq<Message>, longer: seq<Message>, i: nat, kind: Kind)
    requires i < |log|
  {
    && |longer| == |log| + 1 && longer[..|log|] == log
    && var m := longer[|log|];
       m.kind == kind && m.cause == Some(i) && m.correlation == log[i].correlation && m.dispatched && m.digest == 0
  }

  /** A stop with this reason is on record for event `i`, once. */
  ghost predicate Stops(limits: Limits, log: seq<Message>, longer: seq<Message>, i: nat, reason: Reason)
    requires Bounded(limits) && i < |log|
  {
    if Answered(log, i, AutomationStopped(reason)) then longer == log
    else
      && Adds(log, longer, i, AutomationStopped(reason))
      && longer[|log|].depth == Integer(DepthOf(log[i])) && longer[|log|].budget == Integer(BudgetOf(limits, log[i]))
      && longer[|log|].signature == if log[i].kind == ToolResultAdapted then log[i].signature else Some(log[i].digest)
  }

  /** The oracle is asked for event `i`, once, with its counters; only a resumption pays. */
  ghost predicate Asks(limits: Limits, log: seq<Message>, longer: seq<Message>, i: nat, hasProfile: nat -> bool,
                       refused: Option<nat>)
    requires Bounded(limits) && i < |log|
  {
    if Answered(log, i, OracleRequest) then longer == log && refused.None?
    else if !hasProfile(i) then longer == log && refused == Some(i)
    else
      && refused.None? && Adds(log, longer, i, OracleRequest)
      && longer[|log|].depth == log[i].depth && longer[|log|].signature == log[i].signature
      && longer[|log|].budget ==
         if log[i].kind != ToolResultAdapted then log[i].budget
         else Integer(if BudgetOf(limits, log[i]) == 0 then 0 else BudgetOf(limits, log[i]) - 1)
  }

  /** An adapted result resumes the oracle while its budget lasts. */
  ghost predicate Resumes(limits: Limits, log: seq<Message>, longer: seq<Message>, i: nat, hasProfile: nat -> bool,
                          refused: Option<nat>)
    requires Bounded(limits) && i < |log|
  {
    if BudgetOf(limits, log[i]) == 0 then Stops(limits, log, longer, i, BudgetExhausted) && refused.None?
    else Asks(limits, log, longer, i, hasProfile, refused)
  }

  /** A tool result is adapted, one deeper and one poorer, and what it was adapted to resumes the oracle. */
  ghost predicate Adapts(limits: Limits, log: seq<Message>, longer: seq<Message>, i: nat, hasProfile: nat -> bool,
                         refused: Option<nat>)
    requires Bounded(limits) && i < |log|
  {
    && |longer| > |log| && Adds(log, longer[..|log| + 1], i, ToolResultAdapted)
    && longer[|log|].depth == Integer(DepthOf(log[i]) + 1)
    && longer[|log|].budget == Integer(if BudgetOf(limits, log[i]) == 0 then 0 else BudgetOf(limits, log[i]) - 1)
    && longer[|log|].signature == Some(log[i].digest)
    && Resumes(limits, longer[..|log| + 1], longer, |log|, hasProfile, refused)
  }

  /** What a dispatch does, kind by kind. */
  ghost predicate Outcome(limits: Limits, log: seq<Message>, longer: seq<Message>, i: nat, hasProfile: nat -> bool,
                          refused: Option<nat>)
    requires Bounded(limits) && i < |log|
  {
    match log[i].kind
    case ToolOutput(true) =>
      if DepthOf(log[i]) >= limits.maxDepth then Stops(limits, log, longer, i, MaxDepth) && refused.None?
      else if BudgetOf(limits, log[i]) == 0 then Stops(limits, log, longer, i, BudgetExhausted) && refused.None?
      else if Repeats(log, i) then Stops(limits, log, longer, i, RepeatedEquivalentEvent) && refused.None?
      else Adapts(limits, log, longer, i, hasProfile, refused)
    case ToolResultAdapted => Resumes(limits, log, longer, i, hasProfile, refused)
    case OracleContextMessage => Asks(limits, log, longer, i, hasProfile, refused)
    case AnalysisPromoted => Asks(limits, log, longer, i, hasProfile, refused)
    case _ => longer == log && refused.None?
  }

  lemma AnsweredIff(log: seq<Message>, i: nat, kind: Kind)
    ensures Answered(log, i, kind) <==> AlreadyEmitted(log, i, kind)
  {
    if k :| 0 <= k < |log| && log[k].dispatched && log[k].cause == Some(i) && log[k].kind == kind {
      assert EmittedFor(log[k], i, kind);
    }
  }

  lemma RepeatsIff(log: seq<Message>, i: nat)
    requires i < |log|
    ensures Repeats(log, i) <==> HasEquivalent(log, log[i])
  {
    if k :| 0 <= k < |log| && log[k].kind == ToolResultAdapted && log[k].signature == Some(log[i].digest)
            && (log[i].correlation.Some? ==> log[k].correlation == log[i].correlation)
    {
      assert IsEquivalent(log[k], log[i]);
    }
    if k :| 0 <= k < |log| && IsEquivalent(log[k], log[i]) {
      assert log[k].kind == ToolResultAdapted;
    }
  }

  lemma StopIs(limits: Limits, log: seq<Message>, i: nat, reason: Reason)
    requires Bounded(limits) && i < |log| && Decide(limits, log, i) == Stop(reason)
    ensures Stops(limits, log, Dispatched(limits, log, i), i, reason)
    ensures RequestedFor(limits, log, i).None?
  {
    AnsweredIff(log, i, AutomationStopped(reason));
  }

  /** A dispatch that comes to a request asks for it, or is refused. */
  ghost predicate Leaves(limits: Limits, log: seq<Message>, longer: seq<Message>, i: nat, hasProfile: nat -> bool,
                         refused: Option<nat>)
    requires i < |log|
  {
    && (var source := RequestedFor(limits, log, i);
        refused == if source.Some? && !hasProfile(source.value) then source else None)
    && (refused.None? ==> longer == Dispatched(limits, log, i))
    && (refused.Some? ==>
          refused.value < |longer|
          && longer + [Request(limits, longer[refused.value], refused.value)] == Dispatched(limits, log, i))
  }

  lemma AskIs(limits: Limits, log: seq<Message>, longer: seq<Message>, i: nat, hasProfile: nat -> bool,
              refused: Option<nat>)
    requires Bounded(limits) && i < |log| && Leaves(limits, log, longer, i, hasProfile, refused)
    requires Decide(limits, log, i) == if AlreadyEmitted(log, i, OracleRequest) then Nothing
                                       else Emit(Request(limits, log[i], i))
    ensures Asks(limits, log, longer, i, hasProfile, refused)
  {
    AnsweredIff(log, i, OracleRequest);
    if !AlreadyEmitted(log, i, OracleRequest) {
      EmitStep(limits, log, i, Request(limits, log[i], i));
      if refused.Some? { assert longer == (log + [Request(limits, log[i], i)])[..|log|]; }
    }
  }

  lemma ResumeIs(limits: Limits, log: seq<Message>, longer: seq<Message>, i: nat, hasProfile: nat -> bool,
                 refused: Option<nat>)
    requires Bounded(limits) && i < |log| && log[i].kind == ToolResultAdapted
    requires Leaves(limits, log, longer, i, hasProfile, refused)
    ensures Resumes(limits, log, longer, i, hasProfile, refused)
  {
    if Budget(limits, log[i]) <= 0 {
      StopIs(limits, log, i, BudgetExhausted);
    } else {
      AskIs(limits, log, longer, i, hasProfile, refused);
    }
  }

  lemma AdaptIs(limits: Limits, log: seq<Message>, longer: seq<Message>, i: nat, hasProfile: nat -> bool,
                refused: Option<nat>)
    requires Bounded(limits) && i < |log| && Leaves(limits, log, longer, i, hasProfile, refused)
    requires Decide(limits, log, i) == Emit(Adapted(limits, log[i], i))
    ensures Adapts(limits, log, longer, i, hasProfile, refused)
  {
    var one := log + [Adapted(limits, log[i], i)];
    EmitStep(limits, log, i, Adapted(limits, log[i], i));
    assert Leaves(limits, one, longer, |log|, hasProfile, refused);
    ResumeIs(limits, one, longer, |log|, hasProfile, refused);
    assert longer[..|log| + 1] == one;
  }

  /** A dispatch does what its outcome says, whatever kind of event it is given. */
  lemma OutcomeIs(limits: Limits, log: seq<Message>, longer: seq<Message>, i: nat, hasProfile: nat -> bool,
                  refused: Option<nat>)
    requires Bounded(limits) && i < |log| && Leaves(limits, log, longer, i, hasProfile, refused)
    ensures Outcome(limits, log, longer, i, hasProfile, refused)
  {
    RepeatsIff(log, i);
    var decision := Decide(limits, log, i);
    match log[i].kind
    case ToolOutput(_) =>
      if decision.Stop? {
        StopIs(limits, log, i, decision.reason);
      } else if decision.Emit? {
        AdaptIs(limits, log, longer, i, hasProfile, refused);
      }
    case ToolResultAdapted => ResumeIs(limits, log, longer, i, hasProfile, refused);
    case OracleContextMessage => AskIs(limits, log, longer, i, hasProfile, refused);
    case AnalysisPromoted => AskIs(limits, log, longer, i, hasProfile, refused);
    case _ =>
  }
}
