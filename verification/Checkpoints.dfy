/**
 * The checkpoints of the problem generation worker: what a checkpoint must look like, which
 * transition from one to the next is accepted, and how the final one becomes a set result.
 */
module Checkpoints {
  import opened Prelude

  const ATTEMPT_LIMIT := 3
  const MAX_REQUESTED := 20

  datatype ItemStatus = Verified | NeedsReview | Dropped | VerificationUnavailable
  datatype FailureReason = GenerationExhausted | SourceUnverified | BannedTopic
  datatype ReviewReason =
    LowConfidence | AreaMismatch | T3Literature | DiagnosticPurpose | ManualTargetFirst | DifficultyBandMismatch
  datatype StopReason = DropRatioExceeded | VerifierOutage | TimeBudgetExceeded | BannedTopicPassage
  datatype TargetSource = WeaknessAuto | TeacherManual

  datatype AttemptDiagnostic =
    AttemptDiagnostic(attemptNo: int, stage: string, failedChecks: seq<string>, schemaIssuePaths: seq<string>)

  datatype Item = Item(
    itemId: Option<string>,
    status: ItemStatus,
    attemptNo: int,
    failureReason: Option<FailureReason>,
    failureDetail: Option<string>,
    attempts: seq<AttemptDiagnostic>,
    difficultyEst: Option<real>,
    difficultyBand: Option<string>,
    reviewReason: Option<ReviewReason>)

  predicate Succeeded(item: Item) {
    item.status == Verified || item.status == NeedsReview
  }

  predicate ValidItem(item: Item) {
    && 1 <= item.attemptNo <= ATTEMPT_LIMIT
    && item.failureDetail != Some("")
    && (forall d <- item.attempts :: 1 <= d.attemptNo <= ATTEMPT_LIMIT)
    && (item.status != Dropped ==> item.itemId.Some?)
    && (Succeeded(item) ==> item.failureReason.None?)
    && (item.status == Dropped ==> item.failureReason.Some?)
    && (item.status != NeedsReview ==> item.reviewReason.None?)
  }

  function SucceededCount(items: seq<Item>): (n: nat)
    ensures n <= |items|
  {
    if items == [] then 0
    else SucceededCount(items[..|items| - 1]) + if Succeeded(items[|items| - 1]) then 1 else 0
  }

  /** The inputs that no transition may change. */
  datatype Request = Request(
    requestRef: string, requestHash: string, setId: string, targetSource: TargetSource, requestedCount: int)

  datatype Checkpoint = Checkpoint(
    request: Request,
    cursor: int,
    items: seq<Item>,
    itemAttempt: int,
    stop: Option<StopReason>,
    fallback: Option<string>,
    regenUsed: bool,
    passage: Option<string>,
    sourceMaterial: Option<string>,
    workExcerpt: Option<string>)
  {
    predicate Terminal() {
      stop.Some? || cursor == request.requestedCount
    }

    function UnstartedCount(): int {
      request.requestedCount - cursor - if itemAttempt > 0 then 1 else 0
    }
  }

  predicate ValidRequest(request: Request) {
    && request.requestRef != ""
    && Sha256Ref(request.requestHash)
    && 1 <= request.requestedCount <= MAX_REQUESTED
  }

  /** Field bounds and `validate_checkpoint`. */
  predicate Valid(s: Checkpoint) {
    && ValidRequest(s.request)
    && 0 <= s.cursor <= s.request.requestedCount
    && s.cursor == |s.items|
    && (forall item <- s.items :: ValidItem(item))
    && 0 <= s.itemAttempt <= ATTEMPT_LIMIT
    && s.fallback != Some("")
    && (s.Terminal() ==> s.itemAttempt == 0)
    && (s.itemAttempt == 0 ==> s.fallback.None? && !s.regenUsed)
    && (s.regenUsed ==> s.fallback.Some?)
    && !(s.passage.Some? && s.sourceMaterial.Some?)
    && !(s.stop.Some? && s.cursor == s.request.requestedCount
         && SucceededCount(s.items) == s.request.requestedCount)
  }

  function Start(request: Request): Checkpoint {
    Checkpoint(request, 0, [], 0, None, None, false, None, None, None)
  }

  /** Which requests can be started. */
  lemma StartsExactly(request: Request)
    ensures Valid(Start(request)) <==>
              request.requestRef != "" && Sha256Ref(request.requestHash) && 1 <= request.requestedCount <= 20
  {
  }

  /** Every slot is done, in hand or not begun. */
  lemma SlotsAddUp(s: Checkpoint)
    requires Valid(s)
    ensures |s.items| + (if s.itemAttempt > 0 then 1 else 0) + s.UnstartedCount() == s.request.requestedCount
    ensures s.UnstartedCount() >= 0
  {
  }

  datatype Rejection =
    | RequestChanged | AlreadyTerminal
    | PassageChanged | PassageLate | SourceChanged | SourceLate | WorkChanged | WorkLate
    | CursorJumped | ItemsChanged | StoppedMidItem | AttemptJumped
    | FallbackChanged | RegenUndone | RegenUncounted
    | ItemsReordered | AttemptNotReset | CallNotCounted | WrongAttemptNo

  /** Both checkpoints stand before the first slot, where drafts may still be set. */
  predicate BeforeFirstSlot(previous: Checkpoint, current: Checkpoint) {
    previous.cursor == 0 && previous.itemAttempt == 0 && current.cursor == 0 && current.itemAttempt == 0
  }

  function DraftRejection(previous: Checkpoint, current: Checkpoint): Option<Rejection> {
    var early := BeforeFirstSlot(previous, current);
    if previous.passage.Some? && current.passage != previous.passage then Some(PassageChanged)
    else if previous.passage.None? && current.passage.Some? && !early then Some(PassageLate)
    else if previous.sourceMaterial.Some? && current.sourceMaterial != previous.sourceMaterial then Some(SourceChanged)
    else if previous.sourceMaterial.None? && current.sourceMaterial.Some? && !early then Some(SourceLate)
    else if previous.workExcerpt.Some? && current.workExcerpt != previous.workExcerpt then Some(WorkChanged)
    else if previous.workExcerpt.None? && current.workExcerpt.Some? && !early then Some(WorkLate)
    else None
  }

  /** The rules for a step that stays in the current slot. */
  function SameSlotRejection(previous: Checkpoint, current: Checkpoint): Option<Rejection> {
    if current.items != previous.items then Some(ItemsChanged)
    else if current.stop.Some? then if previous.itemAttempt != 0 then Some(StoppedMidItem) else None
    else if current.itemAttempt != previous.itemAttempt && current.itemAttempt != previous.itemAttempt + 1 then
      Some(AttemptJumped)
    else if previous.fallback.Some? && current.fallback != previous.fallback then Some(FallbackChanged)
    else if previous.regenUsed && !current.regenUsed then Some(RegenUndone)
    else if !previous.regenUsed && current.regenUsed && current.itemAttempt != previous.itemAttempt + 1 then
      Some(RegenUncounted)
    else None
  }

  /** The rules for a step that completes the current slot. */
  function NextSlotRejection(previous: Checkpoint, current: Checkpoint): Option<Rejection>
    requires |current.items| > 0
  {
    var last := |current.items| - 1;
    if current.items[..last] != previous.items then Some(ItemsReordered)
    else if current.itemAttempt != 0 then Some(AttemptNotReset)
    else if previous.itemAttempt == 0 then Some(CallNotCounted)
    else
      var completed := current.items[last].attemptNo;
      var restored := previous.fallback.Some? && previous.regenUsed && completed < previous.itemAttempt;
      if completed != previous.itemAttempt && !restored then Some(WrongAttemptNo) else None
  }

  /** `assert_problem_generation_state_transition`: None when accepted, else the first rule broken. */
  function Rejects(previous: Checkpoint, current: Checkpoint): Option<Rejection>
    requires Valid(previous) && Valid(current)
  {
    if previous == current then None
    else if previous.request != current.request then Some(RequestChanged)
    else if previous.Terminal() then Some(AlreadyTerminal)
    else if DraftRejection(previous, current).Some? then DraftRejection(previous, current)
    else if current.cursor == previous.cursor then SameSlotRejection(previous, current)
    else if current.cursor == previous.cursor + 1 then NextSlotRejection(previous, current)
    else Some(CursorJumped)
  }

  predicate Accepts(previous: Checkpoint, current: Checkpoint) {
    Valid(previous) && Valid(current) && Rejects(previous, current).None?
  }

  // ---- The moves a worker can make, and why the checker accepts exactly those ----

  /** What a worker does between two checkpoints, with no reference to the checker. */
  datatype Move =
    /** Choose drafts before the first slot. */
    | Prepare(passage: Option<string>, sourceMaterial: Option<string>, workExcerpt: Option<string>)
    /** Stop early between two slots; before the first slot drafts may be recorded with it. */
    | StopEarly(reason: StopReason, passage: Option<string>, sourceMaterial: Option<string>,
                workExcerpt: Option<string>)
    /** Count one external call for the current slot, with what is known of its fallback. */
    | Call(fallback: Option<string>, regenUsed: bool)
    /** Record the fallback of the current slot. */
    | KeepFallback(ref: string)
    /** Complete the current slot, possibly stopping there. */
    | Complete(item: Item, stop: Option<StopReason>)

  /** A draft already chosen stays; a new one only where `open`. */
  predicate Keeps(open: bool, before: Option<string>, after: Option<string>) {
    after == before || (open && before.None?)
  }

  predicate KeepsDrafts(
    s: Checkpoint, passage: Option<string>, sourceMaterial: Option<string>, workExcerpt: Option<string>)
  {
    && Keeps(s.cursor == 0, s.passage, passage)
    && Keeps(s.cursor == 0, s.sourceMaterial, sourceMaterial)
    && Keeps(s.cursor == 0, s.workExcerpt, workExcerpt)
    && !(passage.Some? && sourceMaterial.Some?)
  }

  predicate Enabled(s: Checkpoint, move: Move) {
    && !s.Terminal()
    && match move
       case Prepare(passage, sourceMaterial, workExcerpt) =>
         && s.itemAttempt == 0
         && KeepsDrafts(s, passage, sourceMaterial, workExcerpt)
         && (passage, sourceMaterial, workExcerpt) != (s.passage, s.sourceMaterial, s.workExcerpt)
       case StopEarly(_, passage, sourceMaterial, workExcerpt) =>
         && s.itemAttempt == 0
         && KeepsDrafts(s, passage, sourceMaterial, workExcerpt)
       case Call(fallback, regenUsed) =>
         && s.itemAttempt < ATTEMPT_LIMIT
         && fallback != Some("")
         && (s.fallback.Some? ==> fallback == s.fallback)
         && (s.regenUsed ==> regenUsed)
         && (regenUsed ==> fallback.Some?)
       case KeepFallback(ref) =>
         s.itemAttempt > 0 && s.fallback.None? && ref != ""
       case Complete(item, stop) =>
         && s.itemAttempt > 0
         && ValidItem(item)
         && (item.attemptNo == s.itemAttempt || (s.regenUsed && item.attemptNo < s.itemAttempt))
         && (stop.Some? ==> SucceededCount(s.items + [item]) < s.request.requestedCount)
  }

  function Play(s: Checkpoint, move: Move): Checkpoint {
    match move
    case Prepare(passage, sourceMaterial, workExcerpt) =>
      s.(passage := passage, sourceMaterial := sourceMaterial, workExcerpt := workExcerpt)
    case StopEarly(reason, passage, sourceMaterial, workExcerpt) =>
      s.(stop := Some(reason), passage := passage, sourceMaterial := sourceMaterial, workExcerpt := workExcerpt)
    case Call(fallback, regenUsed) =>
      s.(itemAttempt := s.itemAttempt + 1, fallback := fallback, regenUsed := regenUsed)
    case KeepFallback(ref) =>
      s.(fallback := Some(ref))
    case Complete(item, stop) =>
      s.(cursor := s.cursor + 1, items := s.items + [item], itemAttempt := 0, stop := stop,
         fallback := None, regenUsed := false)
  }

  /** The move that leads from one checkpoint to a different accepted one. */
  function MoveBetween(previous: Checkpoint, current: Checkpoint): Move
    requires current.cursor != previous.cursor ==> current.items != []
  {
    if current.cursor != previous.cursor then Complete(current.items[|current.items| - 1], current.stop)
    else if current.stop.Some? then
      StopEarly(current.stop.value, current.passage, current.sourceMaterial, current.workExcerpt)
    else if current.itemAttempt != previous.itemAttempt then Call(current.fallback, current.regenUsed)
    else if current.fallback.Some? && previous.fallback.None? then KeepFallback(current.fallback.value)
    else Prepare(current.passage, current.sourceMaterial, current.workExcerpt)
  }

  lemma MovesAreAccepted(s: Checkpoint, move: Move)
    requires Valid(s) && Enabled(s, move)
    ensures Accepts(s, Play(s, move)) && Play(s, move) != s
  {
    var t := Play(s, move);
    if move.Complete? {
      assert t.items[..|t.items| - 1] == s.items;
      assert forall item <- t.items :: ValidItem(item);
    }
    assert Valid(t);
  }

  lemma AcceptedStepIsMove(s: Checkpoint, t: Checkpoint)
    requires Accepts(s, t) && s != t
    ensures Enabled(s, MoveBetween(s, t)) && t == Play(s, MoveBetween(s, t))
  {
    if t.cursor != s.cursor {
      var last := |t.items| - 1;
      assert t.items == t.items[..last] + [t.items[last]];
      assert ValidItem(t.items[last]);
    }
  }

  /** Main result: between two valid checkpoints staying put and the worker's moves are accepted, nothing else. */
  lemma AcceptsExactlyMoves(s: Checkpoint, t: Checkpoint)
    requires Valid(s) && Valid(t)
    ensures Accepts(s, t) <==> t == s || exists move :: Enabled(s, move) && t == Play(s, move)
  {
    if Accepts(s, t) && t != s { AcceptedStepIsMove(s, t); }
    forall move | Enabled(s, move) && t == Play(s, move) ensures Accepts(s, t) { MovesAreAccepted(s, move); }
  }

  // ---- Runs ----

  /** Successive checkpoints, each accepted after the one before. */
  predicate IsRun(run: seq<Checkpoint>) {
    && run != []
    && Valid(run[0])
    && forall k :: 0 <= k < |run| - 1 ==> Accepts(run[k], run[k + 1])
  }

  function Last(run: seq<Checkpoint>): Checkpoint
    requires run != []
  {
    run[|run| - 1]
  }

  /** The steps of a run that change the checkpoint. */
  function RealSteps(run: seq<Checkpoint>): nat {
    if |run| <= 1 then 0
    else RealSteps(run[..|run| - 1]) + if run[|run| - 2] != run[|run| - 1] then 1 else 0
  }

  /** The external calls of a run: steps that raise the attempt counter. */
  function Calls(run: seq<Checkpoint>): nat {
    if |run| <= 1 then 0
    else Calls(run[..|run| - 1]) + if run[|run| - 2].itemAttempt < run[|run| - 1].itemAttempt then 1 else 0
  }

  function One(b: bool): nat { if b then 1 else 0 }

  function DraftsLeft(s: Checkpoint): nat {
    One(s.passage.None? && s.sourceMaterial.None?) + One(s.workExcerpt.None?)
  }

  /** What is still to be done at most: five steps a slot (three calls, a fallback, completion) and two drafts. */
  function Remaining(s: Checkpoint): (r: nat)
    requires Valid(s)
    ensures !s.Terminal() ==> r > 0
  {
    if s.stop.Some? then 0
    else 5 * (s.request.requestedCount - s.cursor) - s.itemAttempt - One(s.fallback.Some?) + DraftsLeft(s)
  }

  /** Main result, one step: an accepted step that changes anything strictly lowers what remains. */
  lemma StepUsesRemaining(s: Checkpoint, t: Checkpoint)
    requires Accepts(s, t) && s != t
    ensures Remaining(t) < Remaining(s)
  {
    AcceptedStepIsMove(s, t);
  }

  lemma RunPrefix(run: seq<Checkpoint>)
    requires IsRun(run) && |run| > 1
    ensures IsRun(run[..|run| - 1]) && Last(run[..|run| - 1]) == run[|run| - 2]
    ensures Accepts(run[|run| - 2], Last(run))
  {
    var k := |run| - 2;
    assert Accepts(run[k], run[k + 1]);
  }

  lemma {:induction false} StepsAreBounded(run: seq<Checkpoint>)
    requires IsRun(run)
    ensures Valid(Last(run)) && Last(run).request == run[0].request
    ensures RealSteps(run) + Remaining(Last(run)) <= Remaining(run[0])
    decreases |run|
  {
    if |run| > 1 {
      RunPrefix(run);
      StepsAreBounded(run[..|run| - 1]);
      if run[|run| - 2] != Last(run) { StepUsesRemaining(run[|run| - 2], Last(run)); }
    }
  }

  /** Main result: however a worker is resumed, a run changes its checkpoint at most 5n + 2 times. */
  lemma RunsAreShort(run: seq<Checkpoint>)
    requires IsRun(run)
    ensures RealSteps(run) <= 5 * run[0].request.requestedCount + 2
  {
    StepsAreBounded(run);
  }

  function AttemptSum(items: seq<Item>): int {
    if items == [] then 0 else AttemptSum(items[..|items| - 1]) + items[|items| - 1].attemptNo
  }

  lemma MoveKeepsAccounts(s: Checkpoint, move: Move)
    requires Valid(s) && Enabled(s, move)
    ensures var t := Play(s, move);
      && s.items <= t.items
      && AttemptSum(t.items) + t.itemAttempt <= AttemptSum(s.items) + s.itemAttempt + One(s.itemAttempt < t.itemAttempt)
      && 3 * s.cursor + s.itemAttempt + One(s.itemAttempt < t.itemAttempt) <= 3 * t.cursor + t.itemAttempt
  {
    if move.Complete? {
      assert (s.items + [move.item])[..|s.items|] == s.items;
    }
  }

  lemma StepKeepsAccounts(s: Checkpoint, t: Checkpoint)
    requires Accepts(s, t)
    ensures s.items <= t.items
    ensures AttemptSum(t.items) + t.itemAttempt
            <= AttemptSum(s.items) + s.itemAttempt + One(s.itemAttempt < t.itemAttempt)
    ensures 3 * s.cursor + s.itemAttempt + One(s.itemAttempt < t.itemAttempt) <= 3 * t.cursor + t.itemAttempt
  {
    if s != t {
      AcceptedStepIsMove(s, t);
      MoveKeepsAccounts(s, MoveBetween(s, t));
    }
  }

  /**
   * Along a run completed items are only appended, and the calls paid for lie between the attempts the
   * items claim and the budget of the slots begun.
   */
  lemma {:induction false} RunAccounts(run: seq<Checkpoint>)
    requires IsRun(run)
    ensures run[0].items <= Last(run).items
    ensures AttemptSum(Last(run).items) + Last(run).itemAttempt
            <= AttemptSum(run[0].items) + run[0].itemAttempt + Calls(run)
    ensures 3 * run[0].cursor + run[0].itemAttempt + Calls(run) <= 3 * Last(run).cursor + Last(run).itemAttempt
    decreases |run|
  {
    if |run| > 1 {
      RunPrefix(run);
      RunAccounts(run[..|run| - 1]);
      StepKeepsAccounts(run[|run| - 2], Last(run));
    }
  }

  /** Main result: a run makes at most three calls a requested problem. */
  lemma CallsAreBounded(run: seq<Checkpoint>)
    requires IsRun(run)
    ensures Calls(run) <= 3 * run[0].request.requestedCount
  {
    RunAccounts(run);
    StepsAreBounded(run);
  }

  /** From a fresh start every attempt an item claims was really made. */
  lemma AttemptsWereMade(run: seq<Checkpoint>)
    requires IsRun(run) && run[0].items == [] && run[0].itemAttempt == 0
    ensures |Last(run).items| <= AttemptSum(Last(run).items) <= Calls(run)
    ensures forall item <- Last(run).items :: item.attemptNo <= Calls(run)
  {
    RunAccounts(run);
    StepsAreBounded(run);
    AttemptsAdd(Last(run).items);
  }

  /** The attempts that items claim add up: every item claims at least one, and none more than all together. */
  lemma {:induction false} AttemptsAdd(items: seq<Item>)
    requires forall item <- items :: ValidItem(item)
    ensures |items| <= AttemptSum(items) <= 3 * |items|
    ensures forall item <- items :: item.attemptNo <= AttemptSum(items)
  {
    if items != [] {
      var front, last := items[..|items| - 1], items[|items| - 1];
      assert items == front + [last] && ValidItem(last);
      AttemptsAdd(front);
    }
  }

  /** A terminal checkpoint is final: every later one of the run equals it. */
  lemma {:induction false} TerminalIsFinal(run: seq<Checkpoint>, k: nat)
    requires IsRun(run) && k < |run| && run[k].Terminal()
    ensures Last(run) == run[k]
    decreases |run|
  {
    if k < |run| - 1 {
      RunPrefix(run);
      TerminalIsFinal(run[..|run| - 1], k);
    }
  }

  // ---- Which checkpoints a run reaches, and that it can always end ----

  lemma RunExtends(run: seq<Checkpoint>, t: Checkpoint)
    requires IsRun(run) && Accepts(Last(run), t)
    ensures IsRun(run + [t]) && Last(run + [t]) == t && (run + [t])[0] == run[0]
  {
    var longer := run + [t];
    forall k | 0 <= k < |longer| - 1 ensures Accepts(longer[k], longer[k + 1]) {
      if k < |run| - 1 { assert Accepts(run[k], run[k + 1]); }
    }
  }

  /** A checkpoint from which one move leads to `t`, where `t` is not the start. */
  function Before(t: Checkpoint): Checkpoint {
    if t.itemAttempt > 0 then t.(itemAttempt := t.itemAttempt - 1, fallback := None, regenUsed := false)
    else if t.stop.Some? && t.cursor < t.request.requestedCount then t.(stop := None)
    else if t.cursor > 0 && t.items != [] then
      t.(cursor := t.cursor - 1, items := t.items[..|t.items| - 1],
         itemAttempt := t.items[|t.items| - 1].attemptNo, stop := None)
    else Start(t.request)
  }

  lemma BeforeIsValid(t: Checkpoint)
    requires Valid(t) && t != Start(t.request)
    ensures Valid(Before(t)) && !Before(t).Terminal() && Before(t) != t && Before(t).request == t.request
  {
    if t.items != [] {
      var last := |t.items| - 1;
      assert t.items == t.items[..last] + [t.items[last]] && t.items[last] in t.items;
    }
  }

  /** The move that leads there. */
  function MoveTo(t: Checkpoint): Move {
    if t.itemAttempt > 0 then Call(t.fallback, t.regenUsed)
    else if t.stop.Some? && t.cursor < t.request.requestedCount then
      StopEarly(t.stop.value, t.passage, t.sourceMaterial, t.workExcerpt)
    else if t.cursor > 0 && t.items != [] then Complete(t.items[|t.items| - 1], t.stop)
    else Prepare(t.passage, t.sourceMaterial, t.workExcerpt)
  }

  lemma MoveToIsPlayed(t: Checkpoint)
    requires Valid(t) && t != Start(t.request)
    ensures Play(Before(t), MoveTo(t)) == t
  {
    hide ValidItem, SucceededCount, Sha256Ref;
    if t.items != [] {
      var last := |t.items| - 1;
      assert t.items == t.items[..last] + [t.items[last]];
    }
  }

  lemma MoveToIsEnabled(t: Checkpoint)
    requires Valid(t) && t != Start(t.request) && !Before(t).Terminal()
    ensures Enabled(Before(t), MoveTo(t))
  {
    hide ValidItem, Sha256Ref;
    if t.items != [] {
      var last := |t.items| - 1;
      assert t.items == t.items[..last] + [t.items[last]] && ValidItem(t.items[last]);
      ItemClaims(t.items[last]);
    }
  }

  lemma ItemClaims(item: Item)
    requires ValidItem(item)
    ensures 1 <= item.attemptNo <= ATTEMPT_LIMIT
  {
  }

  lemma BeforeLeadsThere(t: Checkpoint)
    requires Valid(t) && t != Start(t.request)
    ensures Accepts(Before(t), t) && Before(t) != t && Before(t).request == t.request
  {
    hide Before, Play, Enabled, MoveTo, Valid, Accepts;
    BeforeIsValid(t);
    MoveToIsPlayed(t);
    MoveToIsEnabled(t);
    MovesAreAccepted(Before(t), MoveTo(t));
  }

  lemma {:induction false} ValidIsReached(t: Checkpoint) returns (run: seq<Checkpoint>)
    requires Valid(t)
    ensures IsRun(run) && run[0] == Start(t.request) && Last(run) == t
    decreases 6 * t.request.requestedCount + 3 - (Remaining(t) as int) + One(t.stop.Some?)
  {
    if t == Start(t.request) {
      run := [t];
    } else {
      BeforeLeadsThere(t);
      StepUsesRemaining(Before(t), t);
      run := ValidIsReached(Before(t));
      RunExtends(run, t);
      run := run + [t];
    }
  }

  /** Main result: the checkpoints the validator admits are exactly those some run reaches from a fresh request. */
  lemma ValidExactlyIfReachable(t: Checkpoint)
    ensures Valid(t)
       <==> ValidRequest(t.request) && exists run :: IsRun(run) && run[0] == Start(t.request) && Last(run) == t
  {
    if Valid(t) {
      var run := ValidIsReached(t);
      assert IsRun(run) && run[0] == Start(t.request) && Last(run) == t;
    }
    forall run | IsRun(run) && Last(run) == t ensures Valid(t) { StepsAreBounded(run); }
  }

  function VerifiedItem(id: string, attemptNo: int): Item {
    Item(Some(id), Verified, attemptNo, None, None, [], None, None, None)
  }

  /** A move that is open in every checkpoint that is not terminal. */
  function NextMove(s: Checkpoint): Move {
    if s.itemAttempt == 0 then Call(None, false) else Complete(VerifiedItem("item", s.itemAttempt), None)
  }

  /** Main result: there is no dead end; from every valid checkpoint some run ends. */
  lemma {:induction false} CanAlwaysFinish(s: Checkpoint) returns (run: seq<Checkpoint>)
    requires Valid(s)
    ensures IsRun(run) && run[0] == s && Last(run).Terminal()
    decreases Remaining(s)
  {
    if s.Terminal() {
      run := [s];
    } else {
      var t := Play(s, NextMove(s));
      MovesAreAccepted(s, NextMove(s));
      StepUsesRemaining(s, t);
      var rest := CanAlwaysFinish(t);
      run := [s] + rest;
      forall k | 0 <= k < |run| - 1 ensures Accepts(run[k], run[k + 1]) {
        if k > 0 { assert Accepts(rest[k - 1], rest[k]); }
      }
    }
  }

  // ---- The bound is reached ----

  /** The k-th checkpoint of a slot worked as long as the rules allow: call, fallback, call, call, complete. */
  function SlowMove(s: Checkpoint): Move {
    if s.passage.None? && s.cursor == 0 && s.itemAttempt == 0 then Prepare(Some("passage"), None, s.workExcerpt)
    else if s.workExcerpt.None? && s.cursor == 0 && s.itemAttempt == 0 then Prepare(s.passage, None, Some("work"))
    else if s.itemAttempt == 0 then Call(None, false)
    else if s.fallback.None? then KeepFallback("fallback")
    else if s.itemAttempt < ATTEMPT_LIMIT then Call(s.fallback, false)
    else Complete(VerifiedItem("item", s.itemAttempt), None)
  }

  /** A checkpoint on the slow course: nothing was skipped. */
  predicate OnSlowCourse(s: Checkpoint) {
    && Valid(s)
    && s.stop.None? && s.sourceMaterial.None? && !s.regenUsed
    && (s.workExcerpt.Some? ==> s.passage.Some?)
    && (s.cursor > 0 || s.itemAttempt > 0 ==> s.passage.Some? && s.workExcerpt.Some?)
    && (s.itemAttempt >= 2 ==> s.fallback.Some?)
  }

  lemma SlowMoveUsesOne(s: Checkpoint)
    requires OnSlowCourse(s) && !s.Terminal()
    ensures Enabled(s, SlowMove(s)) && OnSlowCourse(Play(s, SlowMove(s)))
    ensures Remaining(Play(s, SlowMove(s))) == Remaining(s) - 1
  {
    var t := Play(s, SlowMove(s));
    if SlowMove(s).Complete? { assert forall item <- t.items :: ValidItem(item); }
  }

  lemma {:induction false} SlowCourse(s: Checkpoint) returns (run: seq<Checkpoint>)
    requires OnSlowCourse(s)
    ensures IsRun(run) && run[0] == s
    ensures RealSteps(run) == Remaining(s)
    decreases Remaining(s)
  {
    if s.Terminal() {
      run := [s];
    } else {
      var t := Play(s, SlowMove(s));
      SlowMoveUsesOne(s);
      MovesAreAccepted(s, SlowMove(s));
      var rest := SlowCourse(t);
      run := [s] + rest;
      forall k | 0 <= k < |run| - 1 ensures Accepts(run[k], run[k + 1]) {
        if k > 0 { assert Accepts(rest[k - 1], rest[k]); }
      }
      StepsPrepend(s, rest);
    }
  }

  lemma {:induction false} StepsPrepend(s: Checkpoint, rest: seq<Checkpoint>)
    requires rest != []
    ensures RealSteps([s] + rest) == RealSteps(rest) + One(s != rest[0])
    decreases |rest|
  {
    var run := [s] + rest;
    if |rest| > 1 {
      StepsPrepend(s, rest[..|rest| - 1]);
      assert run[..|run| - 1] == [s] + rest[..|rest| - 1];
    } else {
      assert RealSteps(run[..1]) == 0;
    }
  }

  /** Main result: 5n + 2 is exact; for every request some run takes that many real steps. */
  lemma BoundIsReached(request: Request) returns (run: seq<Checkpoint>)
    requires ValidRequest(request)
    ensures IsRun(run) && run[0] == Start(request)
    ensures RealSteps(run) == 5 * request.requestedCount + 2
  {
    run := SlowCourse(Start(request));
  }

  // ---- The final result ----

  datatype SetStatus = Queued | Generating | Generated | PartialSuccess | Failed

  datatype SetResult = SetResult(
    setId: string, status: SetStatus, stop: Option<StopReason>, targetSource: TargetSource, personalized: bool,
    requestedCount: int, processedCount: int, unstartedCount: int, items: seq<Item>, summary: Option<string>,
    droppedReasons: seq<FailureReason>)

  datatype ResultError =
    | NotTerminal | FieldOutOfRange | PersonalizedMismatch | ProcessedMismatch | RequestedMismatch
    | QueuedHasProgress | GeneratingComplete | GeneratingStopped | StopReasonMissing
    | GeneratedIncomplete | GeneratedStopped | PartialWithoutBoth | FailedWithSuccess

  /** The field bounds of `ProblemSetResult` and `validate_result`: the first check that fails. */
  function ResultFault(r: SetResult): Option<ResultError> {
    var succeeded := SucceededCount(r.items);
    var unsuccessful := r.processedCount - succeeded;
    if !(1 <= r.requestedCount <= MAX_REQUESTED) || r.processedCount < 0 || r.unstartedCount < 0
       || r.summary == Some("") || exists item <- r.items :: !ValidItem(item) then
      Some(FieldOutOfRange)
    else if r.personalized != (r.targetSource == WeaknessAuto) then Some(PersonalizedMismatch)
    else if r.processedCount != |r.items| then Some(ProcessedMismatch)
    else if r.requestedCount != r.processedCount + r.unstartedCount then Some(RequestedMismatch)
    else if r.status == Queued then
      if r.processedCount != 0 || r.stop.Some? then Some(QueuedHasProgress) else None
    else if r.status == Generating then
      if r.unstartedCount == 0 then Some(GeneratingComplete)
      else if r.stop.Some? then Some(GeneratingStopped)
      else None
    else if r.unstartedCount != 0 && r.stop.None? then Some(StopReasonMissing)
    else if r.status == Generated then
      if r.unstartedCount != 0 || unsuccessful != 0 then Some(GeneratedIncomplete)
      else if r.stop.Some? then Some(GeneratedStopped)
      else None
    else if r.status == PartialSuccess then
      if succeeded == 0 || !(unsuccessful != 0 || r.unstartedCount != 0) then Some(PartialWithoutBoth) else None
    else if succeeded != 0 then Some(FailedWithSuccess)
    else None
  }

  function DroppedReasons(items: seq<Item>): seq<FailureReason> {
    if items == [] then []
    else
      var last := items[|items| - 1];
      DroppedReasons(items[..|items| - 1])
      + if last.status == Dropped && last.failureReason.Some? then [last.failureReason.value] else []
  }

  /** `to_result`: the conversion, whose result passes through the validator of `ProblemSetResult`. */
  function ToResult(s: Checkpoint, summary: Option<string>): Result<SetResult, ResultError> {
    if !s.Terminal() then Err(NotTerminal)
    else
      var succeeded := SucceededCount(s.items);
      var status :=
        if s.cursor == s.request.requestedCount && succeeded == s.request.requestedCount then Generated
        else if succeeded != 0 then PartialSuccess
        else Failed;
      var r := SetResult(
        s.request.setId, status, s.stop, s.request.targetSource, s.request.targetSource == WeaknessAuto,
        s.request.requestedCount, s.cursor, s.UnstartedCount(), s.items, summary, DroppedReasons(s.items));
      if ResultFault(r).Some? then Err(ResultFault(r).value) else Ok(r)
  }

  function DroppedCount(items: seq<Item>): nat {
    if items == [] then 0
    else DroppedCount(items[..|items| - 1]) + One(items[|items| - 1].status == Dropped)
  }

  /** Every dropped item gives its reason, in the order of the items, and no other item does. */
  lemma {:induction false} OneReasonPerDrop(items: seq<Item>)
    requires forall item <- items :: ValidItem(item)
    ensures |DroppedReasons(items)| == DroppedCount(items)
    ensures forall k :: 0 <= k < |items| && items[k].status == Dropped ==>
              DroppedCount(items[..k]) < |DroppedReasons(items)|
              && items[k].failureReason == Some(DroppedReasons(items)[DroppedCount(items[..k])])
  {
    if items != [] {
      var front := items[..|items| - 1];
      OneReasonPerDrop(front);
      forall k | 0 <= k < |items| && items[k].status == Dropped
        ensures DroppedCount(items[..k]) < |DroppedReasons(items)|
        ensures items[k].failureReason == Some(DroppedReasons(items)[DroppedCount(items[..k])])
      {
        assert ValidItem(items[k]);
        if k < |front| { assert front[..k] == items[..k]; }
      }
    }
  }

  /** One reason for every dropped item and no other, in the order of the items: the reason of a dropped item stands
      behind those of the dropped items before it. */
  ghost predicate ReasonsOf(items: seq<Item>, reasons: seq<FailureReason>) {
    && |reasons| == |DropsBefore(items, |items|)|
    && forall k :: 0 <= k < |items| && items[k].status == Dropped ==>
         && |DropsBefore(items, k)| < |reasons|
         && items[k].failureReason == Some(reasons[|DropsBefore(items, k)|])
  }

  function DropsBefore(items: seq<Item>, k: nat): set<nat>
    requires k <= |items|
  {
    set j | 0 <= j < k && items[j].status == Dropped
  }

  lemma DropsStep(items: seq<Item>, k: nat)
    requires 0 < k <= |items|
    ensures |DropsBefore(items, k)| == |DropsBefore(items, k - 1)| + One(items[k - 1].status == Dropped)
    ensures DroppedCount(items[..k]) == DroppedCount(items[..k - 1]) + One(items[k - 1].status == Dropped)
  {
    hide DroppedCount;
    assert DropsBefore(items, k) == DropsBefore(items, k - 1) + if items[k - 1].status == Dropped then {k - 1} else {};
    DroppedStep(items, k);
  }

  lemma DroppedStep(items: seq<Item>, k: nat)
    requires 0 < k <= |items|
    ensures DroppedCount(items[..k]) == DroppedCount(items[..k - 1]) + One(items[k - 1].status == Dropped)
  {
    assert items[..k][..k - 1] == items[..k - 1];
  }

  lemma {:induction false} DropsAre(items: seq<Item>, k: nat)
    requires k <= |items|
    ensures DroppedCount(items[..k]) == |DropsBefore(items, k)|
  {
    if k == 0 {
      assert DropsBefore(items, 0) == {};
    } else {
      hide *;
      DropsAre(items, k - 1);
      DropsStep(items, k);
    }
  }

  lemma ReasonsListed(items: seq<Item>)
    requires forall item <- items :: ValidItem(item)
    ensures ReasonsOf(items, DroppedReasons(items))
  {
    OneReasonPerDrop(items);
    assert items[..|items|] == items;
    hide DropsBefore, DroppedCount, DroppedReasons;
    forall k: nat | k <= |items| ensures DroppedCount(items[..k]) == |DropsBefore(items, k)| { DropsAre(items, k); }
  }

  /**
   * Main result: a valid checkpoint converts exactly if it is terminal and the summary, if given, is not
   * empty; the counts of the result then add up, its status tells what happened, it names the target of the
   * request, and every dropped item gives its reason.
   */
  lemma ConvertsExactlyIfTerminal(s: Checkpoint, summary: Option<string>)
    requires Valid(s)
    ensures ToResult(s, summary).Ok? <==> s.Terminal() && summary != Some("")
    ensures ToResult(s, summary).Ok? ==>
              var r := ToResult(s, summary).value;
              && ResultFault(r).None?
              && r.items == s.items && r.stop == s.stop && r.summary == summary && r.setId == s.request.setId
              && r.processedCount == |s.items|
              && r.requestedCount == s.request.requestedCount == r.processedCount + r.unstartedCount
              && (r.status == Generated <==> SucceededCount(r.items) == r.requestedCount)
              && (r.status == Failed <==> SucceededCount(r.items) == 0)
              && r.status in {Generated, PartialSuccess, Failed}
              && (r.unstartedCount > 0 ==> r.stop.Some?)
              && r.targetSource == s.request.targetSource
              && (r.personalized <==> s.request.targetSource == WeaknessAuto)
    ensures ToResult(s, summary).Ok? ==> ReasonsOf(s.items, ToResult(s, summary).value.droppedReasons)
    ensures !s.Terminal() ==> ToResult(s, summary) == Err(NotTerminal)
    ensures s.Terminal() && summary == Some("") ==> ToResult(s, summary) == Err(FieldOutOfRange)
  {
    hide ReasonsOf, DroppedReasons, ValidItem, SucceededCount, Sha256Ref;
    ReasonsListed(s.items);
  }

  // ---- The validators, status by status ----

  /** What an item must look like, by its status. */
  lemma ItemsByStatus(item: Item)
    ensures ValidItem(item) <==>
            && 1 <= item.attemptNo <= 3
            && item.failureDetail != Some("")
            && (forall k :: 0 <= k < |item.attempts| ==> 1 <= item.attempts[k].attemptNo <= 3)
            && match item.status
               case Verified => item.itemId.Some? && item.failureReason.None? && item.reviewReason.None?
               case NeedsReview => item.itemId.Some? && item.failureReason.None?
               case Dropped => item.failureReason.Some? && item.reviewReason.None?
               case VerificationUnavailable => item.itemId.Some? && item.reviewReason.None?
  {
    if ValidItem(item) {
      forall k | 0 <= k < |item.attempts| ensures 1 <= item.attempts[k].attemptNo <= 3 {
        assert item.attempts[k] in item.attempts;
      }
    }
  }

  /** Which results pass the validator, by their status. */
  lemma ResultsByStatus(r: SetResult)
    ensures ResultFault(r).None? <==>
            && 1 <= r.requestedCount <= 20 && r.summary != Some("") && (forall item <- r.items :: ValidItem(item))
            && (r.personalized <==> r.targetSource == WeaknessAuto)
            && r.processedCount == |r.items| && 0 <= r.unstartedCount == r.requestedCount - |r.items|
            && var succeeded := |SuccessesBefore(r.items, |r.items|)|;
               match r.status
               case Queued => r.items == [] && r.stop.None?
               case Generating => r.unstartedCount > 0 && r.stop.None?
               case Generated => succeeded == r.requestedCount && r.stop.None?
               case PartialSuccess => 0 < succeeded < r.requestedCount && (r.unstartedCount > 0 ==> r.stop.Some?)
               case Failed => succeeded == 0 && (r.unstartedCount > 0 ==> r.stop.Some?)
  {
    SuccessesAre(r.items, |r.items|);
    assert r.items[..|r.items|] == r.items;
    hide SucceededCount, SuccessesBefore;
  }

  function SuccessesBefore(items: seq<Item>, k: nat): set<nat>
    requires k <= |items|
  {
    set j | 0 <= j < k && (items[j].status == Verified || items[j].status == NeedsReview)
  }

  lemma {:induction false} SuccessesAre(items: seq<Item>, k: nat)
    requires k <= |items|
    ensures SucceededCount(items[..k]) == |SuccessesBefore(items, k)| <= k
  {
    if k == 0 {
      assert SuccessesBefore(items, 0) == {};
    } else {
      SuccessesAre(items, k - 1);
      assert items[..k][..k - 1] == items[..k - 1];
      assert SuccessesBefore(items, k)
             == SuccessesBefore(items, k - 1) + if Succeeded(items[k - 1]) then {k - 1} else {};
    }
  }
}
