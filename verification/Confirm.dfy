/** Waiting for a run to be confirmed: the prompt and the poller race over a
    channel and two contexts. The steps below are the atomic actions of the two
    goroutines and of the outside world, in any interleaving. */
module Confirm {
  import opened Options

  datatype ContextErr = NotDone | Canceled | DeadlineExceeded

  datatype Err =
    | AskError
    | GeneralError
    | RunApproved
    | RunOverridden
    | ApplyDiscarded
    | DestroyDiscarded
    | ContextError(err: ContextErr)

  /** What is sent on the channel: a Go error, possibly nil. */
  datatype Outcome = Nil | Failed(err: Err)

  datatype InputErr = NoInputErr | InputCanceled | OtherInputErr

  /** What one read of the run found. */
  datatype RunRead = ReadFailed | Run(status: RunStatus, confirmable: bool)

  datatype RunStatus = PolicyOverride | PostPlanAwaitingDecision | Discarded | OtherStatus

  /** The prompt: each constructor is the point just before one atomic action. */
  datatype Prompt =
    | Asking
    | Answered(v: string, inputErr: InputErr)
    | CheckDone(v: string)
    | CheckStop(v: string)
    | ReturnStopErr
    | Cancel(v: string)
    | Compare(v: string)
    | Discard
    | Send(outcome: Outcome)
    | Receive
    | Returned(outcome: Outcome)

  /** The poller; `sent` records whether it has sent an error. */
  datatype Poller =
    | Waiting
    | Reading
    | SendErr(err: Err)
    | Leaving(sent: bool)
    | Gone(sent: bool)

  datatype State = State(
    prompt: Prompt,
    poller: Poller,
    channel: seq<Outcome>,
    stopErr: ContextErr,
    doneErr: ContextErr,
    input: Option<Answer>)

  /** What the input command returned; kept as history. */
  datatype Answer = Answer(text: string, err: InputErr)

  const CAPACITY := 2

  datatype Config = Config(keyword: string, destroy: bool)

  predicate Init(s: State) {
    s.prompt == Asking && s.poller == Waiting && s.channel == []
    && s.doneErr == s.stopErr && s.input == None
  }

  function DiscardErr(c: Config): Err {
    if c.destroy then DestroyDiscarded else ApplyDiscarded
  }

  /** The error that the poller makes of a run, if any. */
  function PollResult(c: Config, r: RunRead): Option<Err> {
    if r.ReadFailed? then Some(GeneralError)
    else if c.keyword == "override" then
      if r.status == PolicyOverride || r.status == PostPlanAwaitingDecision then None
      else if r.status == Discarded then Some(DiscardErr(c))
      else Some(RunOverridden)
    else if c.keyword == "yes" then
      if r.confirmable then None
      else if r.status == Discarded then Some(DiscardErr(c))
      else Some(RunApproved)
    else None
  }

  function AfterRead(c: Config, r: RunRead): Poller {
    match PollResult(c, r)
    case Some(e) => SendErr(e)
    case None => Waiting
  }

  /** Cancelling a context that is already done changes nothing. */
  function CancelCtx(e: ContextErr): ContextErr {
    if e == NotDone then Canceled else e
  }

  predicate PromptStep(c: Config, s: State, t: State) {
    match s.prompt
    case Asking =>
      t.prompt.Answered? && t == s.(prompt := t.prompt, input := Some(Answer(t.prompt.v, t.prompt.inputErr)))
    case Answered(v, e) =>
      t == s.(prompt := if e == OtherInputErr && s.stopErr != Canceled
                        then Send(Failed(AskError)) else CheckDone(v))
    case CheckDone(v) =>
      t == s.(prompt := if s.doneErr == Canceled then ReturnStopErr else CheckStop(v))
    case CheckStop(v) =>
      t == s.(prompt := if s.stopErr == Canceled then ReturnStopErr else Cancel(v))
    case ReturnStopErr =>
      t == s.(prompt := Send(if s.stopErr == NotDone then Nil else Failed(ContextError(s.stopErr))))
    case Cancel(v) =>
      t == s.(prompt := Compare(v), doneErr := CancelCtx(s.doneErr))
    case Compare(v) =>
      t == s.(prompt := if v == c.keyword then Send(Nil) else Discard)
    case Discard =>
      || t == s.(prompt := Send(Failed(GeneralError)))
      || t == s.(prompt := Send(Failed(DiscardErr(c))))
    case Send(outcome) =>
      |s.channel| < CAPACITY && t == s.(prompt := Receive, channel := s.channel + [outcome])
    case Receive =>
      s.channel != [] && t == s.(prompt := Returned(s.channel[0]), channel := s.channel[1..])
    case Returned(_) => false
  }

  ghost predicate PollerStep(c: Config, s: State, t: State) {
    match s.poller
    case Waiting =>
      || (s.doneErr != NotDone && t == s.(poller := Leaving(false)))
      || (s.stopErr != NotDone && t == s.(poller := Leaving(false)))
      || t == s.(poller := Reading)
    case Reading =>
      exists r :: t == s.(poller := AfterRead(c, r))
    case SendErr(e) =>
      |s.channel| < CAPACITY && t == s.(poller := Leaving(true), channel := s.channel + [Failed(e)])
    case Leaving(sent) =>
      t == s.(poller := Gone(sent), doneErr := CancelCtx(s.doneErr))
    case Gone(_) => false
  }

  /** The outside may end the stop context; the end reaches the derived one later. */
  predicate OutsideStep(s: State, t: State) {
    || (s.stopErr == NotDone && t.stopErr != NotDone && t == s.(stopErr := t.stopErr))
    || (s.stopErr != NotDone && s.doneErr == NotDone && t == s.(doneErr := s.stopErr))
  }

  ghost predicate Step(c: Config, s: State, t: State) {
    PromptStep(c, s, t) || PollerStep(c, s, t) || OutsideStep(s, t)
  }

  ghost predicate IsRun(c: Config, run: seq<State>) {
    && run != [] && Init(run[0])
    && forall i :: 0 < i < |run| ==> Step(c, run[i - 1], run[i])
  }

  function Last(run: seq<State>): State
    requires run != []
  {
    run[|run| - 1]
  }

  // -------------------------------------------------------------- invariant

  predicate PollerSent(s: State) {
    (s.poller.Leaving? || s.poller.Gone?) && s.poller.sent
  }

  predicate PromptCanceled(p: Prompt) {
    p.Compare? || p.Discard?
  }

  /** The prompt is still deciding about the answer that was given. */
  predicate Holds(p: Prompt, a: Answer) {
    match p
    case Answered(w, e) => a == Answer(w, e)
    case CheckDone(w) => a.text == w
    case CheckStop(w) => a.text == w
    case Cancel(w) => a.text == w
    case Compare(w) => a.text == w
    case _ => true
  }

  predicate Decided(p: Prompt) {
    p.Send? || p.Receive? || p.Returned?
  }

  predicate Typed(c: Config, s: State) {
    s.input.Some? && s.input.value.text == c.keyword
  }

  predicate Inv(c: Config, s: State) {
    && ChannelInv(c, s)
    && (!s.prompt.Asking? ==> Undisturbed(c, s))
    && (s.prompt.Discard? ==> !Typed(c, s))
  }

  predicate ChannelInv(c: Config, s: State) {
    && (s.prompt.Asking? <==> s.input == None)
    && (s.input.Some? ==> Holds(s.prompt, s.input.value))
    // The derived context ends for one of three reasons.
    && (!Decided(s.prompt) && s.doneErr != NotDone ==>
          s.stopErr != NotDone || PromptCanceled(s.prompt) || PollerSent(s))
    && (!Decided(s.prompt) && s.poller == Leaving(false) ==>
          s.doneErr != NotDone || s.stopErr != NotDone)
    && (PromptCanceled(s.prompt) ==> s.doneErr != NotDone)
    && (s.prompt.ReturnStopErr? ==> s.stopErr != NotDone || PollerSent(s))
    && (s.prompt == Send(Nil) ==> PollerSent(s) || (Typed(c, s) && s.doneErr != NotDone))
    // The channel holds what was sent and not yet received, poller errors only
    // until the prompt has sent.
    && |s.channel| == (if PollerSent(s) then 1 else 0) + (if s.prompt.Receive? then 1 else 0)
    && (!s.prompt.Receive? && !s.prompt.Returned? ==> forall m :: m in s.channel ==> m.Failed?)
    && (s.prompt.Receive? && s.channel[0] == Nil ==> Typed(c, s) && s.doneErr != NotDone)
    && (s.prompt == Returned(Nil) ==> Typed(c, s) && s.doneErr != NotDone)
    && (Decided(s.prompt) ==> ToldToStop(s) || PollerSent(s) || AskFailed(s))
  }

  /** What the prompt makes of an answer when nothing interferes. */
  predicate AnswerLeadsTo(c: Config, a: Answer, outcome: Outcome) {
    if a.err == OtherInputErr then outcome == Failed(AskError)
    else if a.text == c.keyword then outcome == Nil
    else outcome == Failed(GeneralError) || outcome == Failed(DiscardErr(c))
  }

  /** As long as nobody interrupts and the poller reports nothing, the prompt is on
      its way to the outcome that the answer leads to. */
  predicate Undisturbed(c: Config, s: State) {
    s.input.Some? && (s.stopErr == NotDone && !PollerSent(s) ==>
      match s.prompt
      case Send(outcome) => AnswerLeadsTo(c, s.input.value, outcome)
      case Receive => s.channel != [] && AnswerLeadsTo(c, s.input.value, s.channel[0])
      case Returned(outcome) => AnswerLeadsTo(c, s.input.value, outcome)
      case ReturnStopErr => false
      case Answered(_, _) => true
      case Discard => s.input.value.err != OtherInputErr && s.input.value.text != c.keyword
      case _ => s.input.value.err != OtherInputErr)
  }

  /** One of the contexts that the poller watches has ended. */
  predicate ToldToStop(s: State) {
    s.doneErr != NotDone || s.stopErr != NotDone
  }

  /** The only outcome there is, or was, is that the question failed. */
  predicate AskFailed(s: State) {
    match s.prompt
    case Send(outcome) => outcome == Failed(AskError)
    case Receive => s.channel == [Failed(AskError)]
    case Returned(outcome) => outcome == Failed(AskError)
    case _ => false
  }

  lemma PromptStepKeepsInv(c: Config, s: State, t: State)
    requires Inv(c, s) && PromptStep(c, s, t)
    ensures Inv(c, t)
  {
    PromptStepKeepsChannel(c, s, t);
    PromptStepUndisturbed(c, s, t);
  }

  lemma PromptStepUndisturbed(c: Config, s: State, t: State)
    requires Inv(c, s) && PromptStep(c, s, t)
    ensures !t.prompt.Asking? && Undisturbed(c, t) && (t.prompt.Discard? ==> !Typed(c, t))
  {
  }

  lemma PromptStepKeepsChannel(c: Config, s: State, t: State)
    requires ChannelInv(c, s) && PromptStep(c, s, t)
    ensures ChannelInv(c, t)
  {
    if s.prompt.Send? && s.channel != [] {
      assert s.channel[0] in s.channel;
      assert t.channel[0] == s.channel[0];
    }
  }

  lemma PollerStepKeepsInv(c: Config, s: State, t: State)
    requires Inv(c, s) && PollerStep(c, s, t)
    ensures Inv(c, t)
  {
  }

  lemma OutsideStepKeepsInv(c: Config, s: State, t: State)
    requires Inv(c, s) && OutsideStep(s, t)
    ensures Inv(c, t)
  {
  }

  lemma {:induction false} RunKeepsInv(c: Config, run: seq<State>)
    requires IsRun(c, run)
    ensures Inv(c, Last(run))
  {
    if |run| > 1 {
      var before, s, t := run[..|run| - 1], run[|run| - 2], Last(run);
      RunKeepsInv(c, before);
      assert Last(before) == s && Step(c, s, t);
      if PromptStep(c, s, t) {
        PromptStepKeepsInv(c, s, t);
      } else if PollerStep(c, s, t) {
        PollerStepKeepsInv(c, s, t);
      } else {
        OutsideStepKeepsInv(c, s, t);
      }
    }
  }

  // ------------------------------------------------------------ main results

  /** In every interleaving, confirm returns nil only if the keyword was typed,
      and then the poller has been told to stop. */
  lemma ConfirmedOnlyIfTyped(c: Config, run: seq<State>)
    requires IsRun(c, run) && Last(run).prompt == Returned(Nil)
    ensures Typed(c, Last(run)) && Last(run).doneErr != NotDone
  {
    RunKeepsInv(c, run);
  }

  /** The outcome of an undisturbed confirmation: the error of the question if it
      failed, nil if the keyword was typed, and otherwise an error. In particular
      the keyword is always accepted. */
  lemma UndisturbedOutcome(c: Config, run: seq<State>)
    requires IsRun(c, run) && Last(run).prompt.Returned?
    requires Last(run).stopErr == NotDone && !PollerSent(Last(run))
    ensures Last(run).input.Some? && AnswerLeadsTo(c, Last(run).input.value, Last(run).prompt.outcome)
  {
    RunKeepsInv(c, run);
  }

  /** A run is discarded only if something else than the keyword was typed. */
  lemma DiscardOnlyIfNotTyped(c: Config, run: seq<State>)
    requires IsRun(c, run) && Last(run).prompt.Discard?
    ensures Last(run).input.Some? && !Typed(c, Last(run))
  {
    RunKeepsInv(c, run);
  }

  /** The prompt will see that the stop context is canceled. */
  predicate WillSeeCancel(s: State) {
    && s.stopErr == Canceled && !PollerSent(s)
    && match s.prompt
       case Asking => true
       case Answered(_, _) => true
       case CheckDone(_) => true
       case CheckStop(_) => true
       case ReturnStopErr => true
       case Send(outcome) => outcome == Failed(ContextError(Canceled))
       case Receive => s.channel == [Failed(ContextError(Canceled))]
       case Returned(outcome) => outcome == Failed(ContextError(Canceled))
       case _ => false
  }

  lemma StepKeepsWillSeeCancel(c: Config, s: State, t: State)
    requires Inv(c, s) && Step(c, s, t) && WillSeeCancel(s)
    ensures PollerSent(t) || WillSeeCancel(t)
  {
  }

  lemma StepKeepsPollerSent(c: Config, s: State, t: State)
    requires Step(c, s, t) && PollerSent(s)
    ensures PollerSent(t)
  {
  }

  /** Canceling before the answer has been looked at makes confirm return the
      cancellation, whatever was typed, unless the poller has reported an error. */
  lemma {:induction false} CancelWins(c: Config, run: seq<State>, i: nat)
    requires IsRun(c, run) && i < |run| && WillSeeCancel(run[i]) && !PollerSent(Last(run))
    ensures WillSeeCancel(Last(run))
    ensures Last(run).prompt.Returned? ==> Last(run).prompt.outcome == Failed(ContextError(Canceled))
    decreases |run| - i
  {
    if i < |run| - 1 {
      RunKeepsInv(c, run[..i + 1]);
      assert Last(run[..i + 1]) == run[i];
      assert Step(c, run[i], run[i + 1]);
      StepKeepsWillSeeCancel(c, run[i], run[i + 1]);
      if PollerSent(run[i + 1]) {
        PollerSentStays(c, run, i + 1);
      } else {
        CancelWins(c, run, i + 1);
      }
    }
  }

  lemma {:induction false} PollerSentStays(c: Config, run: seq<State>, i: nat)
    requires IsRun(c, run) && i < |run| && PollerSent(run[i])
    ensures PollerSent(Last(run))
    decreases |run| - i
  {
    if i < |run| - 1 {
      assert Step(c, run[i], run[i + 1]);
      StepKeepsPollerSent(c, run[i], run[i + 1]);
      PollerSentStays(c, run, i + 1);
    }
  }

  /** The run can still be answered with the keyword. */
  predicate StillOpen(c: Config, status: RunStatus, confirmable: bool) {
    match c.keyword
    case "override" => status == PolicyOverride || status == PostPlanAwaitingDecision
    case "yes" => confirmable
    case _ => true
  }

  /** The error that a read of the run amounts to. */
  function ReportOf(c: Config, r: RunRead): Err {
    if r.ReadFailed? then GeneralError
    else if r.status == Discarded then (if c.destroy then DestroyDiscarded else ApplyDiscarded)
    else if c.keyword == "yes" then RunApproved
    else RunOverridden
  }

  /** The poller goes on waiting exactly as long as the run can be read and answered.
      Otherwise the next thing it does is to send what it found, and to leave. */
  lemma PollerReportsIff(c: Config, s: State, t: State, r: RunRead)
    requires s.poller == Reading && t == s.(poller := AfterRead(c, r))
    ensures PollerStep(c, s, t)
    ensures t.poller == Waiting <==> r.Run? && StillOpen(c, r.status, r.confirmable)
    ensures t.poller != Waiting ==>
              forall u :: PollerStep(c, t, u) <==>
                |t.channel| < CAPACITY && u == t.(poller := Leaving(true), channel := t.channel + [Failed(ReportOf(c, r))])
  {
  }

  /** A context that has ended stays as it is. */
  lemma ContextsEndOnce(c: Config, s: State, t: State)
    requires Step(c, s, t)
    ensures s.stopErr != NotDone ==> t.stopErr == s.stopErr
    ensures s.doneErr != NotDone ==> t.doneErr == s.doneErr
    ensures OutsideStep(s, t) ==> t.(stopErr := s.stopErr, doneErr := s.doneErr) == s
  {
  }

  /** A cancellation can come at any time and reaches the derived context. */
  lemma CanceledRun(c: Config, v: string) returns (run: seq<State>)
    ensures IsRun(c, run) && Last(run).prompt == Returned(Failed(ContextError(Canceled)))
    ensures Last(run).doneErr == Canceled && Last(run).poller == Waiting
  {
    var s0 := State(Asking, Waiting, [], NotDone, NotDone, None);
    var s1 := s0.(prompt := Answered(v, InputCanceled), input := Some(Answer(v, InputCanceled)));
    var s2 := s1.(stopErr := Canceled);
    var s3 := s2.(doneErr := Canceled);
    var s4 := s3.(prompt := CheckDone(v));
    var s5 := s4.(prompt := ReturnStopErr);
    var e := Failed(ContextError(Canceled));
    var s6 := s5.(prompt := Send(e));
    var s7 := s6.(prompt := Receive, channel := [e]);
    var s8 := s7.(prompt := Returned(e), channel := []);
    assert PromptStep(c, s0, s1) && OutsideStep(s1, s2) && OutsideStep(s2, s3);
    assert PromptStep(c, s3, s4) && PromptStep(c, s4, s5) && PromptStep(c, s5, s6);
    assert PromptStep(c, s6, s7) && PromptStep(c, s7, s8);
    run := [s0, s1, s2, s3, s4, s5, s6, s7, s8];
  }

  /** No send ever waits for room, the prompt can always take its next step once the
      question is answered, and the poller until it is gone. */
  lemma NobodyBlocks(c: Config, run: seq<State>)
    requires IsRun(c, run)
    ensures var s := Last(run);
            && (s.prompt.Send? || s.poller.SendErr? ==> |s.channel| < CAPACITY)
            && (!s.prompt.Returned? && !s.prompt.Asking? ==> exists t :: PromptStep(c, s, t))
            && (!s.poller.Gone? ==> exists t :: PollerStep(c, s, t))
  {
    var s := Last(run);
    RunKeepsInv(c, run);
    if !s.prompt.Returned? && !s.prompt.Asking? {
      var t := NextPrompt(c, s);
      assert PromptStep(c, s, t);
    }
    if !s.poller.Gone? {
      var t := match s.poller
        case Waiting => s.(poller := Reading)
        case Reading => s.(poller := AfterRead(c, ReadFailed))
        case SendErr(e) => s.(poller := Leaving(true), channel := s.channel + [Failed(e)])
        case Leaving(sent) => s.(poller := Gone(sent), doneErr := CancelCtx(s.doneErr))
        case Gone(_) => s;
      assert PollerStep(c, s, t);
    }
  }

  /** When confirm has returned, the poller has been told to stop or is on its way
      out, unless the question itself failed. */
  lemma ReturnStopsPoller(c: Config, run: seq<State>)
    requires IsRun(c, run) && Last(run).prompt.Returned?
    ensures var s := Last(run);
            ToldToStop(s) || s.poller.Leaving? || s.poller.Gone? || s.prompt.outcome == Failed(AskError)
  {
    RunKeepsInv(c, run);
  }

  /** A failed question does leave the poller running: nothing tells it to stop. */
  lemma FailedQuestionLeavesPoller(c: Config, v: string) returns (run: seq<State>)
    ensures IsRun(c, run) && Last(run).prompt == Returned(Failed(AskError))
    ensures !ToldToStop(Last(run)) && Last(run).poller == Waiting
  {
    var s0 := State(Asking, Waiting, [], NotDone, NotDone, None);
    var s1 := s0.(prompt := Answered(v, OtherInputErr), input := Some(Answer(v, OtherInputErr)));
    var s2 := s1.(prompt := Send(Failed(AskError)));
    var s3 := s2.(prompt := Receive, channel := [Failed(AskError)]);
    var s4 := s3.(prompt := Returned(Failed(AskError)), channel := []);
    assert PromptStep(c, s0, s1) && PromptStep(c, s1, s2);
    assert PromptStep(c, s2, s3) && PromptStep(c, s3, s4);
    run := [s0, s1, s2, s3, s4];
  }

  /** One step that the prompt can take. */
  function NextPrompt(c: Config, s: State): (t: State)
    requires Inv(c, s) && !s.prompt.Returned? && !s.prompt.Asking?
    ensures PromptStep(c, s, t)
  {
    match s.prompt
    case Answered(v, e) =>
      s.(prompt := if e == OtherInputErr && s.stopErr != Canceled then Send(Failed(AskError)) else CheckDone(v))
    case CheckDone(v) => s.(prompt := if s.doneErr == Canceled then ReturnStopErr else CheckStop(v))
    case CheckStop(v) => s.(prompt := if s.stopErr == Canceled then ReturnStopErr else Cancel(v))
    case ReturnStopErr =>
      s.(prompt := Send(if s.stopErr == NotDone then Nil else Failed(ContextError(s.stopErr))))
    case Cancel(v) => s.(prompt := Compare(v), doneErr := CancelCtx(s.doneErr))
    case Compare(v) => s.(prompt := if v == c.keyword then Send(Nil) else Discard)
    case Discard => s.(prompt := Send(Failed(GeneralError)))
    case Send(outcome) => s.(prompt := Receive, channel := s.channel + [outcome])
    case Receive => s.(prompt := Returned(s.channel[0]), channel := s.channel[1..])
  }

  /** The poller's error is at the head of the queue, or has been returned. */
  predicate Reported(s: State, e: Err) {
    PollerSent(s) &&
    if s.prompt.Returned? then s.prompt.outcome == Failed(e)
    else s.channel != [] && s.channel[0] == Failed(e)
  }

  lemma {:induction false} ReportStays(c: Config, run: seq<State>, i: nat, e: Err)
    requires IsRun(c, run) && i < |run| && Reported(run[i], e)
    ensures Reported(Last(run), e)
    decreases |run| - i
  {
    if i < |run| - 1 {
      RunKeepsInv(c, run[..i + 1]);
      assert Last(run[..i + 1]) == run[i];
      assert Step(c, run[i], run[i + 1]);
      ReportStays(c, run, i + 1, e);
    }
  }

  /** A change of the run that the poller reports before the answer is sent wins
      over the answer, even over the typed keyword. */
  lemma EarlierReportWins(c: Config, run: seq<State>, i: nat)
    requires IsRun(c, run) && i < |run|
    requires PollerSent(run[i]) && !run[i].prompt.Receive? && !run[i].prompt.Returned?
    requires Last(run).prompt.Returned?
    ensures run[i].channel != [] && run[i].channel[0].Failed?
    ensures Last(run).prompt.outcome == run[i].channel[0]
  {
    RunKeepsInv(c, run[..i + 1]);
    assert Last(run[..i + 1]) == run[i];
    assert run[i].channel[0] in run[i].channel;
    ReportStays(c, run, i, run[i].channel[0].err);
  }
}
