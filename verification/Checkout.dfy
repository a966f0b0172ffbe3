/**
 The checkout progress list: a reducer over nine steps in a fixed order, and
 the actions that one checkout dispatches to it.
 */
module Checkout {
  import opened Wrappers

  // ---------- the reducer ----------

  const STEPS: nat := 9

  /** A step is named by its place in the order. */
  type stepId = n: nat | n < STEPS

  const BUILD_APPROVAL: stepId := 0
  const SIGN_APPROVAL: stepId := 1
  const SUBMIT_APPROVAL: stepId := 2
  const CONFIRM_APPROVAL: stepId := 3
  const BUILD_PAYMENT: stepId := 4
  const SIGN_PAYMENT: stepId := 5
  const SUBMIT_PAYMENT: stepId := 6
  const CONFIRM_PAYMENT: stepId := 7
  const RECORD_PURCHASE: stepId := 8

  datatype Status = Pending | Active | Done | Error

  datatype Entry = Entry(status: Status, detail: Option<string>)

  datatype Phase = Idle | InProgress | Succeeded | Failed

  datatype State = State(phase: Phase, steps: seq<Entry>, errorMessage: Option<string>, receipt: Option<string>)

  datatype Action =
    | Reset
    | Start
    | StepActive(id: stepId, detail: Option<string>)
    | StepDone(id: stepId)
    | Failure(target: Option<stepId>, message: string)
    | Success(receipt: string)

  function InitialSteps(): seq<Entry> {
    seq(STEPS, _ => Entry(Pending, None))
  }

  function FirstUnfinished(steps: seq<Entry>, i: nat): int
    decreases |steps| - i
  {
    if i >= |steps| then -1 else if !steps[i].status.Done? then i else FirstUnfinished(steps, i + 1)
  }

  predicate HasActive(steps: seq<Entry>) {
    exists i :: 0 <= i < |steps| && steps[i].status.Active?
  }

  /** Whether a failure marks the step at `i`. */
  predicate Marked(steps: seq<Entry>, target: Option<stepId>, i: nat)
    requires i < |steps|
  {
    || target == Some(i)
    || steps[i].status.Active?
    || (target.None? && !HasActive(steps) && i == FirstUnfinished(steps, 0))
  }

  function Reduce(s: State, a: Action): State {
    var n := |s.steps|;
    match a
    case Reset => State(Idle, InitialSteps(), None, None)
    case Start => State(InProgress, InitialSteps(), None, None)
    case StepActive(id, detail) =>
      s.(steps := seq(n, i requires 0 <= i < n =>
        if i == id then Entry(Active, detail)
        else if s.steps[i].status.Active? then s.steps[i].(status := Done)
        else s.steps[i]))
    case StepDone(id) =>
      s.(steps := seq(n, i requires 0 <= i < n => if i == id then Entry(Done, None) else s.steps[i]))
    case Failure(target, message) =>
      s.(phase := Failed, errorMessage := Some(message),
         steps := seq(n, i requires 0 <= i < n =>
           if Marked(s.steps, target, i) then s.steps[i].(status := Error) else s.steps[i]))
    case Success(receipt) =>
      s.(phase := Succeeded, receipt := Some(receipt), steps := seq(n, _ => Entry(Done, None)))
  }

  function Initial(): State {
    State(Idle, InitialSteps(), None, None)
  }

  function Run(s: State, actions: seq<Action>): State {
    if actions == [] then s else Reduce(Run(s, actions[..|actions| - 1]), actions[|actions| - 1])
  }

  ghost predicate WellFormed(s: State) {
    && |s.steps| == STEPS
    && forall i, j :: 0 <= i < j < |s.steps| && s.steps[i].status.Active? ==> !s.steps[j].status.Active?
  }

  /** Over every sequence of actions there are nine steps, at most one of them active. */
  lemma {:induction false} AtMostOneActive(actions: seq<Action>)
    ensures WellFormed(Run(Initial(), actions))
  {
    if actions == [] {
    } else {
      AtMostOneActive(actions[..|actions| - 1]);
    }
  }

  lemma {:induction false} FirstUnfinishedExact(steps: seq<Entry>, i: nat)
    ensures FirstUnfinished(steps, i) == -1 <==> forall k :: i <= k < |steps| ==> steps[k].status.Done?
    ensures FirstUnfinished(steps, i) != -1 ==>
      i <= FirstUnfinished(steps, i) < |steps| && !steps[FirstUnfinished(steps, i)].status.Done?
    decreases |steps| - i
  {
    if i >= |steps| || !steps[i].status.Done? {
    } else {
      FirstUnfinishedExact(steps, i + 1);
    }
  }

  /** A failure leaves nothing active, and marks no step exactly when it names none and every step is done. */
  lemma {:induction false} FailureMarks(s: State, target: Option<stepId>, message: string)
    requires |s.steps| == STEPS && forall i :: 0 <= i < STEPS ==> !s.steps[i].status.Error?
    ensures
      var t := Reduce(s, Failure(target, message));
      && t.phase == Failed && !HasActive(t.steps)
      && ((exists i :: 0 <= i < STEPS && t.steps[i].status.Error?)
          <==> target.Some? || exists i :: 0 <= i < STEPS && !s.steps[i].status.Done?)
  {
    FirstUnfinishedExact(s.steps, 0);
    var t := Reduce(s, Failure(target, message));
    if target.Some? {
      assert t.steps[target.value].status.Error?;
    } else if HasActive(s.steps) {
      var i :| 0 <= i < |s.steps| && s.steps[i].status.Active?;
      assert t.steps[i].status.Error?;
    } else if FirstUnfinished(s.steps, 0) != -1 {
      assert t.steps[FirstUnfinished(s.steps, 0)].status.Error?;
    }
  }

  // ---------- one checkout ----------

  datatype Stage =
    | LoadingWallet | BuildingApproval | SigningApproval | SubmittingApproval | ConfirmingApproval
    | BuildingPayment | SigningPayment | SubmittingPayment | ConfirmingPayment

  function StageToStep(stage: Stage): stepId {
    match stage
    case LoadingWallet => BUILD_APPROVAL
    case BuildingApproval => BUILD_APPROVAL
    case SigningApproval => SIGN_APPROVAL
    case SubmittingApproval => SUBMIT_APPROVAL
    case ConfirmingApproval => CONFIRM_APPROVAL
    case BuildingPayment => BUILD_PAYMENT
    case SigningPayment => SIGN_PAYMENT
    case SubmittingPayment => SUBMIT_PAYMENT
    case ConfirmingPayment => CONFIRM_PAYMENT
  }

  /** The step a transaction error is blamed on: always one of the approval. */
  function StepOfErrorStage(stage: string): Option<stepId> {
    if stage in ["load-account", "simulate"] then Some(BUILD_APPROVAL)
    else if stage == "sign" then Some(SIGN_APPROVAL)
    else if stage == "submit" then Some(SUBMIT_APPROVAL)
    else if stage in ["confirm", "timeout"] then Some(CONFIRM_APPROVAL)
    else None
  }

  /** The progress a purchase reports, with `m` polls of the approval and `n` of the payment. */
  function Progress(m: nat, n: nat): seq<Stage> {
    [LoadingWallet, BuildingApproval, SigningApproval, SubmittingApproval, ConfirmingApproval]
    + seq(m, _ => ConfirmingApproval)
    + [BuildingPayment, SigningPayment, SubmittingPayment, ConfirmingPayment]
    + seq(n, _ => ConfirmingPayment)
  }

  /** A progress report, with the text of a poll if it is one. */
  datatype Report = Report(stage: Stage, detail: Option<string>)

  function Activate(reports: seq<Report>): seq<Action> {
    seq(|reports|, i requires 0 <= i < |reports| => StepActive(StageToStep(reports[i].stage), reports[i].detail))
  }

  /** The reports are those of a purchase. */
  predicate Reports(reports: seq<Report>, m: nat, n: nat) {
    |reports| == |Progress(m, n)| && forall i :: 0 <= i < |reports| ==> reports[i].stage == Progress(m, n)[i]
  }

  /** Everything a checkout dispatches short of its final SUCCESS or FAILURE. */
  function Script(reports: seq<Report>, note: Option<string>): seq<Action> {
    [Start] + Activate(reports) + [StepDone(CONFIRM_PAYMENT), StepActive(RECORD_PURCHASE, None)]
    + if note.Some? then [StepActive(RECORD_PURCHASE, note)] else []
  }

  /** Done up to `k`, then `k` in status `at`, then pending. */
  predicate Frontier(steps: seq<Entry>, k: nat, at: Status) {
    && |steps| == STEPS
    && (forall i :: 0 <= i < STEPS && i < k ==> steps[i].status.Done?)
    && (k < STEPS ==> steps[k].status == at)
    && (forall i :: k < i < STEPS ==> steps[i].status.Pending?)
  }

  /** `done* active? pending*`, in step order. */
  ghost predicate InOrder(steps: seq<Entry>) {
    exists k: nat :: k < STEPS && (Frontier(steps, k, Active) || Frontier(steps, k, Pending))
  }

  lemma {:induction false} ActivateNext(s: State, k: nat, id: stepId, detail: Option<string>)
    requires k < STEPS
    requires (Frontier(s.steps, k, Active) && k <= id <= k + 1) || (Frontier(s.steps, k, Pending) && id == k)
    ensures Frontier(Reduce(s, StepActive(id, detail)).steps, id, Active)
  {
  }

  /** Reports that begin with the first step and advance by at most one. */
  predicate Climbs(reports: seq<Report>) {
    && (reports != [] ==> StageToStep(reports[0].stage) == 0)
    && forall i :: 0 <= i < |reports| - 1 ==> Follows(StageToStep(reports[i].stage), StageToStep(reports[i + 1].stage))
  }

  predicate Follows(k: nat, id: nat) {
    k <= id <= k + 1
  }

  lemma {:induction false} ReportsClimb(reports: seq<Report>, m: nat, n: nat)
    requires Reports(reports, m, n)
    ensures |reports| == m + n + 9 && StageToStep(reports[|reports| - 1].stage) == CONFIRM_PAYMENT && Climbs(reports)
  {
    forall i | 0 <= i < |reports| - 1
      ensures Follows(StageToStep(reports[i].stage), StageToStep(reports[i + 1].stage))
    {
      assert reports[i].stage == Progress(m, n)[i] && reports[i + 1].stage == Progress(m, n)[i + 1];
    }
  }

  /** A climbing sequence of activations leaves the last of them active and everything before it done. */
  lemma {:induction false} ClimbInOrder(reports: seq<Report>, s: State)
    requires Frontier(s.steps, 0, Pending) && Climbs(reports)
    ensures
      var t := Run(s, Activate(reports));
      && t.phase == s.phase
      && if reports == [] then t == s else Frontier(t.steps, StageToStep(reports[|reports| - 1].stage), Active)
  {
    if reports == [] {
    } else {
      var before, last := reports[..|reports| - 1], reports[|reports| - 1];
      ClimbInOrder(before, s);
      assert Activate(reports)[..|reports| - 1] == Activate(before);
      var mid := Run(s, Activate(before));
      if before != [] {
        var k := |before| - 1;
        assert before[k] == reports[k] && Follows(StageToStep(reports[k].stage), StageToStep(reports[k + 1].stage));
        ActivateNext(mid, StageToStep(before[k].stage), StageToStep(last.stage), last.detail);
      } else {
        ActivateNext(mid, 0, StageToStep(last.stage), last.detail);
      }
    }
  }

  lemma {:induction false} RunAppend(s: State, a: seq<Action>, b: seq<Action>)
    ensures Run(s, a + b) == Run(Run(s, a), b)
    decreases |b|
  {
    if b == [] {
      assert a + b == a;
    } else {
      assert (a + b)[..|a + b| - 1] == a + b[..|b| - 1];
      RunAppend(s, a, b[..|b| - 1]);
    }
  }

  /** The state after the first `k` actions of a checkout, from whatever state it started in. */
  function After(s: State, reports: seq<Report>, note: Option<string>, k: nat): State
    requires k <= |Script(reports, note)|
  {
    Run(s, Script(reports, note)[..k])
  }

  lemma {:induction false} StartIsFresh(s: State)
    ensures Run(s, [Start]) == Reduce(s, Start) && Frontier(Reduce(s, Start).steps, 0, Pending)
  {
    assert [Start][..0] == [];
  }

  /** The part of a checkout that follows the purchase's own reports. */
  lemma {:induction false} TailInOrder(s: State, reports: seq<Report>, note: Option<string>, k: nat)
    requires Climbs(reports) && reports != [] && StageToStep(reports[|reports| - 1].stage) == CONFIRM_PAYMENT
    requires 1 + |reports| <= k <= |Script(reports, note)|
    ensures
      var t := After(s, reports, note, k);
      && t.phase == InProgress
      && (k == 1 + |reports| ==> Frontier(t.steps, CONFIRM_PAYMENT, Active))
      && (k == 2 + |reports| ==> Frontier(t.steps, RECORD_PURCHASE, Pending))
      && (k >= 3 + |reports| ==> Frontier(t.steps, RECORD_PURCHASE, Active))
  {
    var script := Script(reports, note);
    if k == 1 + |reports| {
      assert script[..k] == [Start] + Activate(reports);
      RunAppend(s, [Start], Activate(reports));
      StartIsFresh(s);
      ClimbInOrder(reports, Reduce(s, Start));
    } else {
      TailInOrder(s, reports, note, k - 1);
      assert script[..k][..k - 1] == script[..k - 1];
      assert script[..k][k - 1] == script[k - 1];
    }
  }

  lemma {:induction false} PrefixClimbs(reports: seq<Report>, n: nat)
    requires Climbs(reports) && n <= |reports|
    ensures Climbs(reports[..n])
  {
    var first := reports[..n];
    forall i | 0 <= i < |first| - 1 ensures Follows(StageToStep(first[i].stage), StageToStep(first[i + 1].stage)) {
      assert Follows(StageToStep(reports[i].stage), StageToStep(reports[i + 1].stage));
    }
  }

  lemma {:induction false} HeadInOrder(s: State, reports: seq<Report>, note: Option<string>, k: nat)
    requires Climbs(reports) && 1 <= k <= 1 + |reports|
    ensures
      var t := After(s, reports, note, k);
      && t.phase == InProgress
      && if k == 1 then Frontier(t.steps, 0, Pending) else Frontier(t.steps, StageToStep(reports[k - 2].stage), Active)
  {
    var first := reports[..k - 1];
    PrefixClimbs(reports, k - 1);
    assert Script(reports, note)[..k] == [Start] + Activate(first);
    RunAppend(s, [Start], Activate(first));
    StartIsFresh(s);
    ClimbInOrder(first, Reduce(s, Start));
  }

  /** The step shown for report number `i` of a purchase whose approval is polled `m` times. */
  function StepShown(m: nat, i: nat): (step: nat)
    ensures step <= 7
  {
    if i <= 1 then 0
    else if i <= 4 then i - 1
    else if i <= 4 + m then 3
    else if i <= 8 + m then i - m - 1
    else 7
  }

  lemma {:induction false} ReportsShown(m: nat, n: nat, i: nat)
    requires i < |Progress(m, n)|
    ensures StageToStep(Progress(m, n)[i]) == StepShown(m, i)
  {
    var approval := [LoadingWallet, BuildingApproval, SigningApproval, SubmittingApproval, ConfirmingApproval];
    var payment := [BuildingPayment, SigningPayment, SubmittingPayment, ConfirmingPayment];
    if i < 5 {
      assert Progress(m, n)[i] == approval[i];
    } else if i < 5 + m {
      assert Progress(m, n)[i] == ConfirmingApproval;
    } else if i < 9 + m {
      assert Progress(m, n)[i] == payment[i - 5 - m];
    } else {
      assert Progress(m, n)[i] == ConfirmingPayment;
    }
  }

  /** While the purchase reports, the step of the last report is active with its detail, and those before are done. */
  lemma {:induction false} LastReportShows(s: State, reports: seq<Report>, m: nat, n: nat, note: Option<string>, i: nat)
    requires Reports(reports, m, n) && i < |reports|
    ensures
      var t := After(s, reports, note, i + 2);
      && Frontier(t.steps, StepShown(m, i), Active)
      && t.steps[StepShown(m, i)].detail == reports[i].detail
  {
    ReportsClimb(reports, m, n);
    ReportsShown(m, n, i);
    HeadInOrder(s, reports, note, i + 2);
    DetailShown(s, reports, note, i);
  }

  lemma {:induction false} DetailShown(s: State, reports: seq<Report>, note: Option<string>, i: nat)
    requires i < |reports|
    ensures
      var t, step := After(s, reports, note, i + 2), StageToStep(reports[i].stage);
      step < |t.steps| ==> t.steps[step].detail == reports[i].detail
  {
    ReportIsAction(reports, note, i);
    RunNext(s, Script(reports, note), i + 1);
  }

  lemma {:induction false} ReportIsAction(reports: seq<Report>, note: Option<string>, i: nat)
    requires i < |reports|
    ensures |Script(reports, note)| > i + 1
    ensures Script(reports, note)[i + 1] == StepActive(StageToStep(reports[i].stage), reports[i].detail)
  {
    assert ([Start] + Activate(reports))[i + 1] == Activate(reports)[i];
  }

  /** The errors that a transaction can meet while its last report is `stage`. */
  predicate Raises(stage: Stage, error: string) {
    match stage
    case LoadingWallet => false
    case BuildingApproval => error in ["load-account", "simulate"]
    case SigningApproval => error == "sign"
    case SubmittingApproval => error == "submit"
    case ConfirmingApproval => error in ["confirm", "timeout"]
    case BuildingPayment => error in ["load-account", "simulate"]
    case SigningPayment => error == "sign"
    case SubmittingPayment => error == "submit"
    case ConfirmingPayment => error in ["confirm", "timeout"]
  }

  /**
   An error of the approval marks the one step it happened in; the same error
   of the payment marks its step and, four before it, the approval's as well.
   */
  lemma {:induction false} TransactionErrorMarks(s: State, reports: seq<Report>, m: nat, n: nat, note: Option<string>,
                                                 i: nat, error: string, message: string)
    requires Reports(reports, m, n) && i < |reports| && Raises(reports[i].stage, error)
    ensures
      var p := StepShown(m, i);
      var t := Reduce(After(s, reports, note, i + 2), Failure(StepOfErrorStage(error), message));
      && |t.steps| == 9 && t.errorMessage == Some(message)
      && forall k :: 0 <= k < 9 ==> (t.steps[k].status.Error? <==> k == p || (p >= 4 && k == p - 4))
  {
    LastReportShows(s, reports, m, n, note, i);
    ReportsShown(m, n, i);
    FrontierFails(After(s, reports, note, i + 2), StepShown(m, i), StepOfErrorStage(error), message);
  }

  /**
   At every moment of a checkout before it ends, for any number of polls, the
   statuses read done* active? pending*; a step is active except right after
   the start and between the purchase and its recording.
   */
  lemma {:induction false} CheckoutInOrder(s: State, reports: seq<Report>, m: nat, n: nat, note: Option<string>, k: nat)
    requires Reports(reports, m, n) && 1 <= k <= |Script(reports, note)|
    ensures
      var t := After(s, reports, note, k);
      t.phase == InProgress && InOrder(t.steps) && (HasActive(t.steps) <==> k != 1 && k != 2 + |reports|)
  {
    ReportsClimb(reports, m, n);
    if k <= 1 + |reports| {
      HeadInOrder(s, reports, note, k);
    } else {
      TailInOrder(s, reports, note, k);
    }
  }

  /** A checkout that runs to its end leaves every step done. */
  lemma {:induction false} SuccessCompletes(s: State, reports: seq<Report>, m: nat, n: nat, note: Option<string>,
                                            receipt: string)
    requires Reports(reports, m, n)
    ensures
      var t := Run(s, Script(reports, note) + [Success(receipt)]);
      && t.phase == Succeeded && t.receipt == Some(receipt) && t.errorMessage == None
      && |t.steps| == STEPS && forall i :: 0 <= i < STEPS ==> t.steps[i] == Entry(Done, None)
  {
    var script := Script(reports, note);
    ReportsClimb(reports, m, n);
    TailInOrder(s, reports, note, |script|);
    assert script[..|script|] == script;
    assert (script + [Success(receipt)])[..|script|] == script;
    NoErrorMessage(s, reports, note, |script|);
  }

  lemma {:induction false} NoErrorMessage(s: State, reports: seq<Report>, note: Option<string>, k: nat)
    requires 1 <= k <= |Script(reports, note)|
    ensures After(s, reports, note, k).errorMessage == None
  {
    var script := Script(reports, note);
    if k == 1 {
      assert script[..1] == [Start];
      StartIsFresh(s);
    } else {
      NoErrorMessage(s, reports, note, k - 1);
      assert script[..k][..k - 1] == script[..k - 1] && script[..k][k - 1] == script[k - 1];
    }
  }

  /** The step the error names, and the step `at` the frontier if it was active or the error names none. */
  predicate Blamed(steps: seq<Entry>, target: Option<stepId>, at: stepId, i: nat)
    requires |steps| == STEPS
  {
    target == Some(i) || (i == at && (target.None? || steps[at].status.Active?))
  }

  /**
   A checkout that fails, wherever it does, leaves nothing active and something
   in error: the step `at` the frontier if it was active or the error names no
   step, and the step the error names.  Errors name approval steps only, so a
   named error during the payment also marks a finished step of the approval.
   */
  lemma {:induction false} FailureBlames(s: State, reports: seq<Report>, m: nat, n: nat, note: Option<string>,
                                         k: nat, stage: string, message: string)
    returns (at: stepId)
    requires Reports(reports, m, n) && 1 <= k <= |Script(reports, note)|
    ensures
      var before, target := After(s, reports, note, k), StepOfErrorStage(stage);
      var t := Reduce(before, Failure(target, message));
      && (Frontier(before.steps, at, Active) || Frontier(before.steps, at, Pending))
      && t.phase == Failed && |t.steps| == STEPS && !HasActive(t.steps)
      && (forall i :: 0 <= i < STEPS ==>
            (t.steps[i].status.Error? <==> Blamed(before.steps, target, at, i)))
      && (exists i :: 0 <= i < STEPS && t.steps[i].status.Error?)
      && (target.Some? ==> target.value <= CONFIRM_APPROVAL)
  {
    ReportsClimb(reports, m, n);
    var before, target := After(s, reports, note, k), StepOfErrorStage(stage);
    if k <= 1 + |reports| {
      HeadInOrder(s, reports, note, k);
      at := if k == 1 then 0 else StageToStep(reports[k - 2].stage);
    } else {
      TailInOrder(s, reports, note, k);
      at := RECORD_PURCHASE;
    }
    FrontierFails(before, at, target, message);
  }

  lemma {:induction false} FrontierFails(before: State, at: stepId, target: Option<stepId>, message: string)
    requires Frontier(before.steps, at, Active) || Frontier(before.steps, at, Pending)
    ensures
      var t := Reduce(before, Failure(target, message));
      && |t.steps| == STEPS && !HasActive(t.steps)
      && (forall i :: 0 <= i < STEPS ==>
            (t.steps[i].status.Error? <==> Blamed(before.steps, target, at, i)))
      && (exists i :: 0 <= i < STEPS && t.steps[i].status.Error?)
  {
    FirstUnfinishedIs(before.steps, 0, at);
    var t := Reduce(before, Failure(target, message));
    if Frontier(before.steps, at, Active) {
      assert before.steps[at].status.Active? && HasActive(before.steps);
    } else {
      assert !HasActive(before.steps);
    }
    forall i | 0 <= i < STEPS
      ensures t.steps[i].status.Error? <==> Blamed(before.steps, target, at, i)
    {
      assert t.steps[i].status.Error? <==> Marked(before.steps, target, i);
    }
    assert t.steps[if target.Some? then target.value else at].status.Error?;
  }

  lemma {:induction false} FirstUnfinishedIs(steps: seq<Entry>, i: nat, at: nat)
    requires i <= at < |steps| && !steps[at].status.Done? && forall k :: i <= k < at ==> steps[k].status.Done?
    ensures FirstUnfinished(steps, i) == at
    decreases at - i
  {
    if i == at {
    } else {
      FirstUnfinishedIs(steps, i + 1, at);
    }
  }

  // ---------- calls and resets between the awaits ----------

  /** What the services answer to one call; `fails` is after how many actions, with the error's stage and message. */
  datatype Attempt = Attempt(reports: seq<Report>, m: nat, n: nat, note: Option<string>,
                             fails: Option<(nat, string, string)>, receipt: string)

  predicate Proper(a: Attempt) {
    && Reports(a.reports, a.m, a.n)
    && (a.fails.Some? ==> 1 <= a.fails.value.0 <= |Script(a.reports, a.note)|)
  }

  /** Everything the call dispatches. */
  function Plan(a: Attempt): seq<Action>
    requires Proper(a)
  {
    var script := Script(a.reports, a.note);
    match a.fails
    case None => script + [Success(a.receipt)]
    case Some((k, stage, message)) => script[..k] + [Failure(StepOfErrorStage(stage), message)]
  }

  /** `pos` actions of the running call have been dispatched. */
  datatype Hook = Hook(state: State, running: Option<Attempt>, pos: nat)

  datatype Happening =
    | Call(attempt: Attempt)
    | Resume
    | ResetPressed

  /** A call is ignored while another runs; a reset does not stop a running call. */
  function Happen(h: Hook, e: Happening): Hook {
    match e
    case Call(a) => if h.running.Some? || !Proper(a) then h else Hook(Reduce(h.state, Start), Some(a), 1)
    case ResetPressed => h.(state := Reduce(h.state, Reset))
    case Resume =>
      if h.running.None? || !Proper(h.running.value) || h.pos >= |Plan(h.running.value)| then h
      else
        var plan := Plan(h.running.value);
        var next := Reduce(h.state, plan[h.pos]);
        if h.pos + 1 == |plan| then Hook(next, None, 0) else Hook(next, h.running, h.pos + 1)
  }

  function AfterAll(happenings: seq<Happening>): Hook {
    if happenings == [] then Hook(Initial(), None, 0)
    else Happen(AfterAll(happenings[..|happenings| - 1]), happenings[|happenings| - 1])
  }

  /** Pending up to `j`, done up to `k`, then `k` in status `at`, then pending. */
  predicate Window(steps: seq<Entry>, j: nat, k: nat, at: Status) {
    && |steps| == STEPS && j <= k < STEPS
    && (forall i :: 0 <= i < j ==> steps[i].status.Pending?)
    && (forall i :: j <= i < k ==> steps[i].status.Done?)
    && steps[k].status == at
    && (forall i :: k < i < STEPS ==> steps[i].status.Pending?)
  }

  predicate AllPending(steps: seq<Entry>) {
    |steps| == STEPS && forall i :: 0 <= i < STEPS ==> steps[i].status.Pending?
  }

  /** How far a call has come after `pos` actions: the step, and whether it is active. */
  function Place(reports: seq<Report>, pos: nat): (stepId, Status)
    requires 1 <= pos
  {
    if pos == 1 then (0, Pending)
    else if pos <= 1 + |reports| then (StageToStep(reports[pos - 2].stage), Active)
    else if pos == 2 + |reports| then (RECORD_PURCHASE, Pending)
    else (RECORD_PURCHASE, Active)
  }

  /**
   What the list reads while a call runs.  As long as the phase says so, the
   steps before its place are done.  After a reset the list is blank, or what
   is done begins at some later step `j`.
   */
  ghost predicate InFlight(s: State, a: Attempt, pos: nat) {
    && Proper(a) && 1 <= pos <= |Script(a.reports, a.note)| && pos < |Plan(a)|
    && s.errorMessage.None? && s.receipt.None?
    && var (k, at) := Place(a.reports, pos);
    && (s.phase == InProgress || s.phase == Idle)
    && (s.phase == InProgress ==> Window(s.steps, 0, k, at))
    && (s.phase == Idle ==> AllPending(s.steps) || exists j :: Window(s.steps, j, k, at))
  }

  /** What it reads otherwise: blank, complete, or with an error and nothing active. */
  ghost predicate AtRest(s: State) {
    match s.phase
    case Idle => AllPending(s.steps)
    case InProgress => false
    case Succeeded => s.receipt.Some? && |s.steps| == STEPS && forall i :: 0 <= i < STEPS ==> s.steps[i].status.Done?
    case Failed =>
      && s.errorMessage.Some? && |s.steps| == STEPS && !HasActive(s.steps)
      && exists i :: 0 <= i < STEPS && s.steps[i].status.Error?
  }

  ghost predicate Reads(h: Hook) {
    if h.running.Some? then InFlight(h.state, h.running.value, h.pos) else AtRest(h.state)
  }

  lemma {:induction false} WindowActivates(s: State, j: nat, k: nat, at: Status, id: stepId, detail: Option<string>)
    requires Window(s.steps, j, k, at)
    requires (at == Active && k <= id <= k + 1) || (at == Pending && id == k)
    ensures Window(Reduce(s, StepActive(id, detail)).steps, j, id, Active)
  {
  }

  lemma {:induction false} BlankActivates(s: State, id: stepId, detail: Option<string>)
    requires AllPending(s.steps)
    ensures Window(Reduce(s, StepActive(id, detail)).steps, id, id, Active)
  {
  }

  lemma {:induction false} StepDoneMoves(s: State, j: nat)
    ensures Window(s.steps, j, CONFIRM_PAYMENT, Active) ==>
      Window(Reduce(s, StepDone(CONFIRM_PAYMENT)).steps, j, RECORD_PURCHASE, Pending)
    ensures AllPending(s.steps) ==>
      Window(Reduce(s, StepDone(CONFIRM_PAYMENT)).steps, CONFIRM_PAYMENT, RECORD_PURCHASE, Pending)
  {
  }

  /** The next action of a call, and where it takes the call. */
  lemma {:induction false} PlaceMoves(a: Attempt, pos: nat)
    requires Proper(a) && 1 <= pos < |Script(a.reports, a.note)|
    ensures
      var next := Script(a.reports, a.note)[pos];
      var ((k, at), (k', at')) := (Place(a.reports, pos), Place(a.reports, pos + 1));
      if pos == 1 + |a.reports| then
        && next == StepDone(CONFIRM_PAYMENT) && k == CONFIRM_PAYMENT && at == Active
        && k' == RECORD_PURCHASE && at' == Pending
      else
        && next.StepActive? && next.id == k' && at' == Active
        && ((at == Active && Follows(k, k')) || (at == Pending && k' == k))
  {
    ReportsClimb(a.reports, a.m, a.n);
    var reports := a.reports;
    if 2 <= pos <= |reports| {
      assert Follows(StageToStep(reports[pos - 2].stage), StageToStep(reports[pos - 1].stage));
    }
  }

  /** One more action keeps the reading, whether or not the list was reset before it. */
  lemma {:induction false} ScriptKeepsReading(s: State, a: Attempt, pos: nat)
    requires InFlight(s, a, pos) && pos + 1 < |Plan(a)|
    ensures pos < |Script(a.reports, a.note)|
    ensures InFlight(Reduce(s, Plan(a)[pos]), a, pos + 1)
  {
    var script := Script(a.reports, a.note);
    assert pos < |script| && Plan(a)[pos] == script[pos];
    PlaceMoves(a, pos);
    var (k, at) := Place(a.reports, pos);
    if AllPending(s.steps) && s.phase == Idle {
      BlankMoves(s, a, pos);
    } else {
      var j :| Window(s.steps, j, k, at) && (s.phase == InProgress ==> j == 0);
      WindowMoves(s, a, pos, j);
    }
  }

  lemma {:induction false} BlankMoves(s: State, a: Attempt, pos: nat)
    requires Proper(a) && 1 <= pos < |Script(a.reports, a.note)| && AllPending(s.steps)
    ensures
      var (k, at) := Place(a.reports, pos + 1);
      exists j :: Window(Reduce(s, Script(a.reports, a.note)[pos]).steps, j, k, at)
  {
    PlaceMoves(a, pos);
    var next := Script(a.reports, a.note)[pos];
    if next.StepActive? {
      BlankActivates(s, next.id, next.detail);
    } else {
      StepDoneMoves(s, 0);
    }
  }

  lemma {:induction false} WindowMoves(s: State, a: Attempt, pos: nat, j: nat)
    requires Proper(a) && 1 <= pos < |Script(a.reports, a.note)|
    requires var (k, at) := Place(a.reports, pos); Window(s.steps, j, k, at)
    ensures
      var (k, at) := Place(a.reports, pos + 1);
      Window(Reduce(s, Script(a.reports, a.note)[pos]).steps, j, k, at)
  {
    PlaceMoves(a, pos);
    var next := Script(a.reports, a.note)[pos];
    if next.StepActive? {
      var (k, at) := Place(a.reports, pos);
      WindowActivates(s, j, k, at, next.id, next.detail);
    } else {
      StepDoneMoves(s, j);
    }
  }

  /** The last action of a call ends it as it would have ended without a reset. */
  lemma {:induction false} EndReads(s: State, a: Attempt, pos: nat)
    requires InFlight(s, a, pos) && pos + 1 == |Plan(a)|
    ensures
      var t := Reduce(s, Plan(a)[pos]);
      && AtRest(t)
      && (a.fails.None? ==> t.phase == Succeeded && t.receipt == Some(a.receipt))
      && (a.fails.Some? ==> t.phase == Failed && t.errorMessage == Some(a.fails.value.2))
  {
    if a.fails.Some? {
      var target := StepOfErrorStage(a.fails.value.1);
      SomeUnfinished(s, a, pos);
      FailureMarks(s, target, a.fails.value.2);
      assert Plan(a)[pos] == Failure(target, a.fails.value.2);
    }
  }

  lemma {:induction false} SomeUnfinished(s: State, a: Attempt, pos: nat)
    requires InFlight(s, a, pos)
    ensures |s.steps| == STEPS && forall i :: 0 <= i < STEPS ==> !s.steps[i].status.Error?
    ensures exists i :: 0 <= i < STEPS && !s.steps[i].status.Done?
  {
    var (k, at) := Place(a.reports, pos);
    if s.phase == Idle && AllPending(s.steps) {
      assert !s.steps[0].status.Done?;
    } else {
      var j :| Window(s.steps, j, k, at);
      assert !s.steps[k].status.Done?;
    }
  }

  lemma {:induction false} HappenKeepsReads(h: Hook, e: Happening)
    requires Reads(h)
    ensures Reads(Happen(h, e))
  {
    match e
    case Call(a) =>
      if h.running.None? && Proper(a) {
        ReportsClimb(a.reports, a.m, a.n);
        assert Window(Reduce(h.state, Start).steps, 0, 0, Pending);
      }
    case ResetPressed =>
    case Resume =>
      if h.running.Some? {
        if h.pos + 1 == |Plan(h.running.value)| {
          EndReads(h.state, h.running.value, h.pos);
        } else {
          ScriptKeepsReading(h.state, h.running.value, h.pos);
        }
      }
  }

  /** Over every interleaving of calls, their continuations and resets, the list reads as it should. */
  lemma {:induction false} InterleavedReads(happenings: seq<Happening>)
    ensures Reads(AfterAll(happenings))
  {
    if happenings == [] {
    } else {
      InterleavedReads(happenings[..|happenings| - 1]);
      HappenKeepsReads(AfterAll(happenings[..|happenings| - 1]), happenings[|happenings| - 1]);
    }
  }

  // ---------- the hook ----------

  class TicketCheckout {
    var state: State
    var inFlight: bool
    var suspended: Option<Attempt>
    var pos: nat

    ghost predicate Valid()
      reads this
    {
      && (inFlight <==> suspended.Some?)
      && (suspended.Some? ==> Proper(suspended.value) && pos < |Plan(suspended.value)|)
    }

    ghost function Current(): Hook
      reads this
    {
      Hook(state, suspended, pos)
    }

    constructor ()
      ensures Valid() && Current() == AfterAll([])
    {
      state, inFlight, suspended, pos := Initial(), false, None, 0;
    }

    method Dispatch(a: Action)
      modifies this`state
      ensures state == Reduce(old(state), a)
    {
      state := Reduce(state, a);
    }

    method ResetCheckout()
      requires Valid()
      modifies this`state
      ensures Valid() && Current() == Happen(old(Current()), ResetPressed)
    {
      Dispatch(Reset);
    }

    /** Up to the first await. */
    method StartCheckout(a: Attempt)
      requires Valid() && Proper(a)
      modifies this
      ensures Valid() && Current() == Happen(old(Current()), Call(a))
      ensures old(inFlight) ==> Current() == old(Current())
    {
      if inFlight {
        return;
      }
      inFlight := true;
      Dispatch(Start);
      suspended, pos := Some(a), 1;
      PlanIsLong(a);
    }

    /** From one dispatch to the next; the last one clears the flag. */
    method ResumeCheckout()
      requires Valid()
      modifies this
      ensures Valid() && Current() == Happen(old(Current()), Resume)
    {
      if suspended.None? {
        return;
      }
      var plan := Plan(suspended.value);
      Dispatch(plan[pos]);
      pos := pos + 1;
      if pos == |plan| {
        inFlight, suspended, pos := false, None, 0;
      }
    }

    /** A whole call that nothing interrupts; made while another is in flight, it does nothing. */
    method Checkout(a: Attempt)
      requires Valid() && Proper(a)
      modifies this
      ensures Valid()
      ensures old(inFlight) ==> Current() == old(Current())
      ensures !old(inFlight) ==> !inFlight && state == Run(old(state), Plan(a))
    {
      if inFlight {
        return;
      }
      var plan := Plan(a);
      StartCheckout(a);
      StartFirst(a, old(state));
      while inFlight
        invariant Valid()
        invariant inFlight ==> suspended == Some(a) && state == Run(old(state), plan[..pos])
        invariant !inFlight ==> state == Run(old(state), plan)
        decreases if inFlight then |plan| - pos else 0
      {
        RunNext(old(state), plan, pos);
        ResumeCheckout();
      }
    }
  }

  lemma {:induction false} RunNext(s: State, plan: seq<Action>, pos: nat)
    requires pos < |plan|
    ensures Run(s, plan[..pos + 1]) == Reduce(Run(s, plan[..pos]), plan[pos])
    ensures pos + 1 == |plan| ==> Run(s, plan[..pos + 1]) == Run(s, plan)
  {
    assert plan[..pos + 1][..pos] == plan[..pos] && plan[..pos + 1][pos] == plan[pos];
    assert pos + 1 == |plan| ==> plan[..pos + 1] == plan;
  }

  lemma {:induction false} PlanIsLong(a: Attempt)
    requires Proper(a)
    ensures |Plan(a)| > 1 && Plan(a)[0] == Start
  {
  }

  lemma {:induction false} StartFirst(a: Attempt, s: State)
    requires Proper(a)
    ensures |Plan(a)| > 1 && Run(s, Plan(a)[..1]) == Reduce(s, Start)
  {
    PlanIsLong(a);
    assert Plan(a)[..1] == [Start];
    StartIsFresh(s);
  }
}
