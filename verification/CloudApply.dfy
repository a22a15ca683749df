/** What the cloud backend does with the outcome of a confirmation: whether it
    approves the apply, and whether it overrides a soft-failed policy check. */
module CloudApply {
  import opened Confirm

  // ------------------------------------------------------------------ apply

  datatype ApplyOptions = ApplyOptions(
    autoApprove: bool, hasUI: bool, input: bool, savedPlan: bool)

  /** The answers of the server that `opApply` acts on, up to the decision. */
  datatype PlanPhase = PlanPhase(
    failed: bool,        // a step before the confirmation returned an error
    nothingToDo: bool,   // no changes, or the run was canceled or errored
    confirmable: bool)

  datatype ApplyDecision =
    | Stop               // returns before the approval
    | Continue(approve: bool)

  /** Whether `opApply` asks, given the answers before the question. */
  predicate Asks(op: ApplyOptions, p: PlanPhase) {
    && !op.savedPlan && !p.failed && !p.nothingToDo
    && (op.autoApprove || p.confirmable)
    && op.hasUI && !op.autoApprove && op.input
  }

  /** When the approval call is made: on a nil answer if there was a question,
      otherwise only where no question is due. */
  predicate Approves(op: ApplyOptions, p: PlanPhase, answer: Outcome) {
    if Asks(op, p) then answer == Nil
    else
      && !op.autoApprove && !p.failed && p.confirmable
      && (op.savedPlan || (!p.nothingToDo && !op.hasUI))
  }

  /** When the operation goes on to the apply: nothing stands in the way, and a
      question that is due was put and answered in favour. */
  predicate GoesOn(op: ApplyOptions, p: PlanPhase, answer: Outcome) {
    && !p.failed
    && (p.confirmable || (op.autoApprove && !op.savedPlan))
    && (|| op.savedPlan
        || (&& !p.nothingToDo
            && (op.hasUI && !op.autoApprove ==> op.input && (answer == Nil || answer == Failed(RunApproved)))))
  }

  /** `answer` is what confirm returned, and matters only if it was called. */
  method DecideApply(op: ApplyOptions, p: PlanPhase, answer: Outcome) returns (d: ApplyDecision)
    ensures d == Continue(true) <==> Approves(op, p, answer)
    ensures d.Continue? <==> GoesOn(op, p, answer)
  {
    var approvedElsewhere := false;
    if op.savedPlan {
      if p.failed || !p.confirmable {
        return Stop;
      }
    } else {
      if p.failed {
        return Stop;
      }
      if p.nothingToDo {
        return Stop;
      }
      if !op.autoApprove && !p.confirmable {
        return Stop;
      }
      var mustConfirm := op.hasUI && !op.autoApprove;
      if mustConfirm && op.input {
        if answer != Nil && answer != Failed(RunApproved) {
          return Stop;
        }
        approvedElsewhere := answer == Failed(RunApproved);
      } else if mustConfirm && !op.input {
        return Stop;
      }
    }
    return Continue(!op.autoApprove && !approvedElsewhere);
  }

  /** Where the approval call is left out although the operation goes on: with the
      flag, or because somebody else has approved while the question was open. */
  lemma ApprovalLeftOutIff(op: ApplyOptions, p: PlanPhase, answer: Outcome)
    ensures GoesOn(op, p, answer) && !Approves(op, p, answer)
       <==> GoesOn(op, p, answer) && (op.autoApprove || (Asks(op, p) && answer == Failed(RunApproved)))
    ensures Approves(op, p, answer) ==> GoesOn(op, p, answer)
  {
  }

  // ----------------------------------------------------------------- policy

  datatype CheckStatus =
    | Passes | Errored | HardFailed | SoftFailed | Pending | Queued | Unreachable | OtherCheckStatus

  /** One policy check with the answers the server and the user give about it. */
  datatype PolicyCheck = PolicyCheck(
    readable: bool, status: CheckStatus, overridable: bool,
    answer: Outcome, overrideWorks: bool)

  datatype PolicyOptions = PolicyOptions(
    applying: bool, hasUI: bool, autoApprove: bool, input: bool, runEnded: bool)

  /** A check with no result that a canceled or errored run left behind. */
  predicate Skipped(op: PolicyOptions, pc: PolicyCheck) {
    op.runEnded && (pc.status == Pending || pc.status == Queued || pc.status == Unreachable)
  }

  /** The question about this check may be asked, or is answered by a flag. */
  predicate MayOverride(op: PolicyOptions, pc: PolicyCheck) {
    && pc.status == SoftFailed && op.applying && op.hasUI && pc.overridable
    && (op.autoApprove || (op.input && pc.answer == Nil))
  }

  /** The check does not stand in the way of the run. */
  predicate Cleared(op: PolicyOptions, pc: PolicyCheck) {
    pc.readable &&
    (|| Skipped(op, pc)
     || pc.status == Passes
     || (MayOverride(op, pc) && pc.overrideWorks)
     || (&& pc.status == SoftFailed && op.applying && op.hasUI && pc.overridable
         && !op.autoApprove && op.input && pc.answer == Failed(RunOverridden)))
  }

  /** The override call is made for this check: it may be overridden, and the walk
      gets that far. */
  predicate CallsOverride(op: PolicyOptions, checks: seq<PolicyCheck>, i: nat)
    requires i < |checks|
  {
    && checks[i].readable && MayOverride(op, checks[i])
    && forall k :: 0 <= k < i ==> Cleared(op, checks[k])
  }

  /** Walks the checks in order; `overrides` lists the checks for which the
      override call was made, in order. The run passes exactly when every check is
      cleared. */
  method CheckPolicy(op: PolicyOptions, checks: seq<PolicyCheck>)
    returns (ok: bool, overrides: seq<nat>)
    ensures ok <==> forall i :: 0 <= i < |checks| ==> Cleared(op, checks[i])
    ensures forall i: nat :: i in overrides <==> i < |checks| && CallsOverride(op, checks, i)
    ensures forall j, k :: 0 <= j < k < |overrides| ==> overrides[j] < overrides[k]
  {
    overrides := [];
    for i := 0 to |checks|
      invariant forall k :: 0 <= k < i ==> Cleared(op, checks[k])
      invariant forall j :: 0 <= j < |overrides| ==> overrides[j] < i
      invariant forall k: nat :: k in overrides <==> k < i && CallsOverride(op, checks, k)
      invariant forall j, k :: 0 <= j < k < |overrides| ==> overrides[j] < overrides[k]
    {
      var pc := checks[i];
      if !pc.readable {
        return false, overrides;
      }
      if op.runEnded && (pc.status == Pending || pc.status == Queued || pc.status == Unreachable) {
        continue;
      }
      match pc.status {
        case Passes =>
        case SoftFailed =>
          if !op.applying || !op.hasUI || !pc.overridable {
            return false, overrides;
          }
          if op.autoApprove {
            overrides := overrides + [i];
            if !pc.overrideWorks {
              return false, overrides;
            }
          } else if !op.input {
            return false, overrides;
          } else {
            if pc.answer != Nil && pc.answer != Failed(RunOverridden) {
              return false, overrides;
            }
            if pc.answer != Failed(RunOverridden) {
              overrides := overrides + [i];
              if !pc.overrideWorks {
                return false, overrides;
              }
            }
          }
        case _ =>
          return false, overrides;
      }
    }
    return true, overrides;
  }

  // ------------------------------------------------------- from the keyboard

  /** An interactive apply is approved only after "yes" was typed, whatever the
      poller, the prompt and the outside did in whatever order. */
  lemma InteractiveApplyNeedsYes(op: ApplyOptions, p: PlanPhase, c: Config, run: seq<State>)
    requires op.hasUI && op.input && !op.autoApprove && !op.savedPlan
    requires c.keyword == "yes" && IsRun(c, run) && Last(run).prompt.Returned?
    requires Approves(op, p, Last(run).prompt.outcome)
    ensures Typed(c, Last(run))
  {
    ConfirmedOnlyIfTyped(c, run);
  }

  /** A policy check is overridden without the flag only after "override" was typed. */
  lemma InteractiveOverrideNeedsKeyword(op: PolicyOptions, pc: PolicyCheck, c: Config, run: seq<State>)
    requires !op.autoApprove && MayOverride(op, pc)
    requires c.keyword == "override" && IsRun(c, run) && Last(run).prompt == Returned(pc.answer)
    ensures Typed(c, Last(run))
  {
    ConfirmedOnlyIfTyped(c, run);
  }
}
