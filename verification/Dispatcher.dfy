/** The event dispatcher: its log grows by outside events and by what it emits itself. */
module Dispatcher {
  import opened Common
  import opened Automation
  import opened AutomationOutcome

  class EventDispatcher {
    const limits: Limits
    var log: seq<Message>

    ghost predicate Valid()
      reads this
    {
      Bounded(limits) && Legal(limits, log)
    }

    constructor (limits: Limits)
      requires Bounded(limits)
      ensures Valid() && this.limits == limits && log == []
    {
      this.limits, log := limits, [];
    }

    /** An event appended by another component. */
    method Observe(m: Message)
      requires Valid() && FromOutside(limits, log, m)
      modifies this
      ensures Valid() && log == old(log) + [m]
    {
      LegalSnoc(limits, log, m);
      log := log + [m];
    }

    /** `_emit_automation_stop`: one stop for each event and reason. */
    method EmitStop(i: nat, reason: Reason)
      requires Valid() && i < |log| && Decide(limits, log, i) == Stop(reason)
      modifies this
      ensures Valid()
      ensures log == if old(AlreadyEmitted(log, i, AutomationStopped(reason))) then old(log)
                     else old(log) + [StopMessage(limits, old(log)[i], i, reason)]
    {
      if !AlreadyEmitted(log, i, AutomationStopped(reason)) {
        LegalSnoc(limits, log, StopMessage(limits, log[i], i, reason));
        log := log + [StopMessage(limits, log[i], i, reason)];
      }
    }

    /** `dispatch`: run the rule that matches and dispatch the event it emits in turn. No event of the
        log, nor any it goes on to cause, continues more cycles than the limits allow. A request for an
        event whose model profile cannot be resolved is refused; what the dispatch emitted before stays. */
    method Dispatch(i: nat, hasProfile: nat -> bool) returns (refused: Option<nat>)
      requires Valid() && i < |log|
      modifies this
      ensures Valid() && old(log) <= log
      ensures Leaves(limits, old(log), log, i, hasProfile, refused)
      ensures Outcome(limits, old(log), log, i, hasProfile, refused)
      ensures Causal(log)
      ensures forall k :: 0 <= k < |log| ==> Cycles(log, k) <= Least(limits.maxDepth, limits.maxBudget / 2)
      decreases Rank(log[i].kind), 1
    {
      match Decide(limits, log, i) {
        case Nothing => refused := None;
        case Stop(reason) =>
          EmitStop(i, reason);
          refused := None;
        case Emit(message) => refused := EmitAndGoOn(i, message, hasProfile);
      }
      OutcomeIs(limits, old(log), log, i, hasProfile, refused);
      LegalIsBounded(limits, log);
    }

    method EmitAndGoOn(i: nat, message: Message, hasProfile: nat -> bool) returns (refused: Option<nat>)
      requires Valid() && i < |log| && Decide(limits, log, i) == Emit(message)
      modifies this
      ensures Valid() && old(log) <= log
      ensures Leaves(limits, old(log), log, i, hasProfile, refused)
      decreases Rank(log[i].kind), 0
    {
      EmitStep(limits, log, i, message);
      if message.kind == OracleRequest && !hasProfile(i) { return Some(i); }
      LegalSnoc(limits, log, message);
      log := log + [message];
      refused := Dispatch(|log| - 1, hasProfile);
    }
  }
}
