/**
 Stopping a job against the worker that is confirming an answer.

 The worker streams a decision step into a pending buffer, empties the buffer when the step is
 decided, and commits the body chunk by chunk. A stop sets its flag, then takes whatever is still
 pending. Every section under the chunk lock is one atomic step; the steps interleave freely.

 With workspace tools on, a cut-off answer is split after its last full sentence: the rest is
 appended without looking at the stop flag, held back while it is continued, and finally taken out
 of the chunk list and committed again as one chunk, which a notice may replace.

 The chunk list is not the saved answer: a stop saves the list as it is at its take, and the worker
 saves it as it is when it finalizes the turn, each only if the other has not saved yet.
 */
module StopRace {
  import opened Basics
  import opened ContinuationText

  datatype Origin = Confirmed | Tail | Salvaged | Replacement

  /** One append to the saved answer, with the decision step it came from. */
  datatype Commit = Commit(step: nat, origin: Origin, text: string)

  datatype Worker =
    | Between                                                        // no decision step in progress
    | Streaming                                                      // the step's text is in the pending buffer
    | Confirming(body: seq<string>, next: nat, tail: Option<string>) // the step is decided; body[..next] is committed
    | TailDue(text: string)                                          // the rest of a cut-off answer is to be appended
    | Failing                                                        // the turn failed; its buffer is still there
    | Rescuing(text: string)                                         // what the buffer held is to be committed
    | Finishing                                                      // the list is about to be read for saving
    | Saving                                                         // the list was read

  datatype Stopper = Idle | FlagSet | Taken

  datatype State = State(
    step: nat,
    worker: Worker,
    pending: seq<string>,
    held: Option<nat>,      // where the held-back part of the list starts
    stopper: Stopper,
    commits: seq<Commit>,   // the chunk list
    appended: seq<Commit>,  // every append so far, even if taken out again
    saves: Saves)

  /** The list as the stop took it, as the worker read it, and as it was saved. */
  datatype Saves = Saves(byStop: Option<seq<Commit>>, byWorker: Option<seq<Commit>>, saved: Option<seq<Commit>>, calls: nat)

  datatype Step =
    | BeginStep                                         // start streaming the next decision or continuation step
    | Buffer(chunks: seq<string>)                       // the stream rewrites the pending buffer
    | Discard                                           // the step ended in tool calls or is replayed
    | Decide(body: seq<string>, tail: Option<string>)   // the step is an answer: empty the buffer, keep its body
    | FailTurn                                          // an error ends the turn, unless a stop was requested
    | TakeForFailure(rewrite: bool)                     // the failed turn takes its own buffer
    | ConfirmNext                                       // commit one chunk unless a stop was requested
    | HoldTail                                          // append the rest of a cut-off answer, whatever the flag
    | ReleaseTail(notice: Option<string>, trace: string) // take the held part out to commit it, or a notice, as one chunk
    | EndTurn                                           // the loop ended, unless a stop was requested
    | ReadForSaving                                     // the worker reads the list
    | SetFlag                                           // cancel(): the unlocked flag
    | TakeForStop(rewrite: bool, fallback: Option<string>) // cancel(): the locked take, append and replacement
    | Persist(byStop: bool)                             // either side saves what it read, at most once

  predicate Cancelled(s: State) { !s.stopper.Idle? }

  function Texts(commits: seq<Commit>): seq<string> {
    seq(|commits|, i requires 0 <= i < |commits| => commits[i].text)
  }

  function TextOf(commits: seq<Commit>): string { Join(Texts(commits)) }

  function Append(s: State, c: Commit): State {
    s.(commits := s.commits + [c], appended := s.appended + [c])
  }

  /** What a stop takes from the pending buffer. */
  function Takes(s: State, rewrite: bool): string { Salvage(TextOf(s.commits), Join(s.pending), rewrite) }

  /** The take: the buffer's text is appended, or a notice replaces the whole list. */
  function AfterTake(s: State, rewrite: bool, fallback: Option<string>): State {
    var text, taken := Takes(s, rewrite), s.(stopper := Taken, pending := []);
    if fallback.Some? then Append(taken.(commits := []), Commit(s.step, Replacement, fallback.value))
    else if text == "" then taken
    else Append(taken, Commit(s.step, Salvaged, text))
  }

  /** What is committed for a released part: it or a notice, behind the search trace if nothing is in front of it. */
  function Released(front: seq<Commit>, text: string, notice: Option<string>, trace: string): string {
    (if front == [] then trace else "") + (if notice.Some? then notice.value else text)
  }

  function Apply(s: State, step: Step): State {
    match step
    case BeginStep =>
      if s.worker.Between? then s.(step := s.step + 1, worker := Streaming, pending := []) else s
    case Buffer(chunks) => if s.worker.Streaming? then s.(pending := chunks) else s
    case Discard => if s.worker.Streaming? then s.(worker := Between, pending := []) else s
    case Decide(body, tail) =>
      if s.worker.Streaming? && (tail.None? || s.held.None?) then s.(worker := Confirming(body, 0, tail), pending := [])
      else s
    case FailTurn => if Cancelled(s) || s.worker.Failing? || s.worker.Rescuing? then s else s.(worker := Failing)
    case TakeForFailure(rewrite) =>
      if !s.worker.Failing? then s
      else
        var text := Takes(s, rewrite);
        s.(worker := if text == "" then Finishing else Rescuing(text), pending := [])
    case ConfirmNext =>
      if s.worker.Rescuing? then
        var finishing := s.(worker := Finishing);
        if Cancelled(s) then finishing else Append(finishing, Commit(s.step, Confirmed, s.worker.text))
      else if !s.worker.Confirming? then s
      else if s.worker.next >= |s.worker.body| || Cancelled(s) then
        s.(worker := if s.worker.tail.Some? then TailDue(s.worker.tail.value) else Between)
      else
        Append(s.(worker := s.worker.(next := s.worker.next + 1)), Commit(s.step, Confirmed, s.worker.body[s.worker.next]))
    case HoldTail =>
      if !s.worker.TailDue? then s
      else
        var holding := s.(worker := Between, held := Some(|s.commits|));
        if s.worker.text == "" then holding else Append(holding, Commit(s.step, Tail, s.worker.text))
    case ReleaseTail(notice, trace) =>
      if !s.worker.Between? || s.held.None? then s
      else if Cancelled(s) || s.held.value > |s.commits| then s.(held := None)
      else
        var front, text := s.commits[..s.held.value], TextOf(s.commits[s.held.value..]);
        var released := s.(step := s.step + 1, held := None, commits := front);
        if text == "" then released else released.(worker := Confirming([Released(front, text, notice, trace)], 0, None))
    case EndTurn => if s.worker.Between? && !Cancelled(s) then s.(worker := Finishing) else s
    case ReadForSaving =>
      if s.worker.Finishing? then s.(worker := Saving, saves := s.saves.(byWorker := Some(s.commits))) else s
    case SetFlag => if s.stopper.Idle? then s.(stopper := FlagSet) else s
    case TakeForStop(rewrite, fallback) =>
      if !s.stopper.FlagSet? then s
      else
        var taken := AfterTake(s, rewrite, fallback);
        taken.(saves := s.saves.(byStop := Some(taken.commits)))
    case Persist(byStop) =>
      var read := if byStop then s.saves.byStop else s.saves.byWorker;
      if s.saves.saved.Some? || read.None? then s else s.(saves := s.saves.(saved := read, calls := s.saves.calls + 1))
  }

  const START: State := State(0, Between, [], None, Idle, [], [], Saves(None, None, None, 0))

  function Run(steps: seq<Step>): State {
    if |steps| == 0 then START else Apply(Run(steps[..|steps| - 1]), steps[|steps| - 1])
  }

  /** The chunks of a step's body that have been committed, in order. */
  function ConfirmedOf(commits: seq<Commit>, step: nat): seq<string> {
    if |commits| == 0 then []
    else
      var rest, c := ConfirmedOf(commits[..|commits| - 1], step), commits[|commits| - 1];
      if c.step == step && c.origin.Confirmed? then rest + [c.text] else rest
  }

  ghost predicate Has(commits: seq<Commit>, step: nat, origin: Origin) {
    exists i :: 0 <= i < |commits| && commits[i].step == step && commits[i].origin == origin
  }

  /** The step's text is in the list both as a stop salvaged it and as its worker committed it. */
  ghost predicate CommittedTwice(commits: seq<Commit>, step: nat) {
    Has(commits, step, Salvaged) && (ConfirmedOf(commits, step) != [] || Has(commits, step, Tail))
  }

  // ---- What every step keeps ----------------------------------------------------

  /** The appends of a step in progress are exactly the confirmed part of its body. */
  ghost predicate CurrentStepOk(s: State) {
    match s.worker
    case Between => s.pending == []
    case Streaming => NothingOfStep(s)
    case Confirming(body, next, _) =>
      && s.pending == [] && next <= |body| && ConfirmedOf(s.appended, s.step) == body[..next]
      && !Has(s.appended, s.step, Tail)
    case TailDue(_) => s.pending == [] && !Has(s.appended, s.step, Tail)
    case Failing => s.pending == [] || NothingOfStep(s)
    case Rescuing(_) => s.pending == [] && NothingOfStep(s)
    case Finishing => s.pending == []
    case Saving => s.pending == []
  }

  /** The worker has committed nothing of the current step. */
  ghost predicate NothingOfStep(s: State) {
    forall c :: c in s.appended ==> c.step < s.step || c.origin.Salvaged? || c.origin.Replacement?
  }

  /** After the stop's take nothing but held-back tails is appended. */
  ghost predicate CommitsOk(s: State) {
    && (forall c :: c in s.appended ==> c.step <= s.step)
    && (forall c :: c in s.commits ==> c in s.appended)
    && (forall c :: c in s.appended && (c.origin.Salvaged? || c.origin.Replacement?) ==> s.stopper.Taken?)
    && (forall i, j :: 0 <= i < j < |s.commits| && s.commits[i].origin.Salvaged? ==> s.commits[j].origin.Tail?)
    && (!Cancelled(s) && s.held.Some? ==> s.held.value <= |s.commits|)
  }

  ghost predicate Invariant(s: State) {
    && CurrentStepOk(s)
    && CommitsOk(s)
    && s.saves.calls == (if s.saves.saved.Some? then 1 else 0)
  }

  lemma ConfirmedOfAppend(commits: seq<Commit>, c: Commit, step: nat)
    ensures ConfirmedOf(commits + [c], step)
            == ConfirmedOf(commits, step) + (if c.step == step && c.origin.Confirmed? then [c.text] else [])
  {
    assert (commits + [c])[..|commits|] == commits;
  }

  lemma {:induction false} NothingConfirmed(commits: seq<Commit>, step: nat)
    requires forall c :: c in commits ==> c.step != step || !c.origin.Confirmed?
    ensures ConfirmedOf(commits, step) == []
  {
    if |commits| > 0 {
      NothingConfirmed(commits[..|commits| - 1], step);
    }
  }

  lemma ConfirmKeeps(s: State)
    requires Invariant(s)
    ensures Invariant(Apply(s, ConfirmNext))
  {
    hide ConfirmedOf, Texts;
    var s' := Apply(s, ConfirmNext);
    if |s'.appended| > |s.appended| {
      var c := s'.appended[|s.appended|];
      ConfirmedOfAppend(s.appended, c, s.step);
      if s.worker.Confirming? {
        assert s.worker.body[..s.worker.next + 1] == s.worker.body[..s.worker.next] + [c.text];
      }
    }
  }

  lemma TakeKeeps(s: State, rewrite: bool, fallback: Option<string>)
    requires Invariant(s)
    ensures Invariant(Apply(s, TakeForStop(rewrite, fallback)))
  {
    hide Takes, ConfirmedOf;
    var s' := Apply(s, TakeForStop(rewrite, fallback));
    if |s'.appended| > |s.appended| {
      ConfirmedOfAppend(s.appended, s'.appended[|s.appended|], s.step);
    }
  }

  lemma DecideKeeps(s: State, step: Step)
    requires Invariant(s) && (step.Decide? || step.TakeForFailure?)
    ensures Invariant(Apply(s, step))
  {
    hide Takes, ConfirmedOf;
    if s.worker.Streaming? {
      NothingConfirmed(s.appended, s.step);
    }
    if step.TakeForFailure? {
      EmptyBufferTakesNothing(s, step.rewrite);
    }
  }

  lemma ReleaseKeeps(s: State, notice: Option<string>, trace: string)
    requires Invariant(s)
    ensures Invariant(Apply(s, ReleaseTail(notice, trace)))
  {
    hide ConfirmedOf, TextOf, Released;
    if forall c :: c in s.appended ==> c.step < s.step + 1 {
      NothingConfirmed(s.appended, s.step + 1);
    }
  }

  lemma ApplyKeeps(s: State, step: Step)
    requires Invariant(s)
    ensures Invariant(Apply(s, step))
  {
    hide Takes, ConfirmedOf, TextOf;
    match step {
      case ConfirmNext => ConfirmKeeps(s);
      case TakeForStop(rewrite, fallback) => TakeKeeps(s, rewrite, fallback);
      case Decide(_, _) => DecideKeeps(s, step);
      case TakeForFailure(_) => DecideKeeps(s, step);
      case ReleaseTail(notice, trace) => ReleaseKeeps(s, notice, trace);
      case _ =>
    }
  }

  lemma {:induction false} RunKeeps(steps: seq<Step>)
    ensures Invariant(Run(steps))
  {
    hide Apply, CurrentStepOk, CommitsOk;
    if |steps| > 0 {
      RunKeeps(steps[..|steps| - 1]);
      ApplyKeeps(Run(steps[..|steps| - 1]), steps[|steps| - 1]);
    } else {
      StartIsValid();
    }
  }

  lemma StartIsValid()
    ensures Invariant(START)
  {
  }

  // ---- Committed twice ------------------------------------------------------------

  /** A stop takes text of step k while the step is still streaming, or after it failed. */
  predicate TakesAt(s: State, step: Step, k: nat) {
    && step.TakeForStop? && step.fallback.None? && s.stopper.FlagSet?
    && (s.worker.Streaming? || s.worker.Failing?) && s.step == k && Takes(s, step.rewrite) != ""
  }

  /** Step k is decided as a cut-off answer with something behind its last sentence. */
  predicate DecidesTail(s: State, step: Step, k: nat) {
    && step.Decide? && step.tail.Some? && step.tail.value != ""
    && s.worker.Streaming? && s.held.None? && s.step == k
  }

  predicate HoldsTail(s: State, step: Step, k: nat) {
    step.HoldTail? && s.worker.TailDue? && s.worker.text != "" && s.step == k
  }

  predicate Took(steps: seq<Step>, k: nat) {
    |steps| > 0 &&
    var before, last := steps[..|steps| - 1], steps[|steps| - 1];
    Took(before, k) || TakesAt(Run(before), last, k)
  }

  predicate TookThenDecided(steps: seq<Step>, k: nat) {
    |steps| > 0 &&
    var before, last := steps[..|steps| - 1], steps[|steps| - 1];
    TookThenDecided(before, k) || (Took(before, k) && DecidesTail(Run(before), last, k))
  }

  /** In this order: a stop took the step's text, the step was decided with a tail, the tail was appended. */
  predicate TookThenHeld(steps: seq<Step>, k: nat) {
    |steps| > 0 &&
    var before, last := steps[..|steps| - 1], steps[|steps| - 1];
    TookThenHeld(before, k) || (TookThenDecided(before, k) && HoldsTail(Run(before), last, k))
  }

  /** An unguarded tail of the current step is still to come. */
  predicate TailComing(s: State) {
    || (s.worker.Confirming? && s.worker.tail.Some? && s.worker.tail.value != "")
    || (s.worker.TailDue? && s.worker.text != "")
  }

  /** What the saved answer says about step k, against what happened to it. */
  ghost predicate Explained(s: State, k: nat, took: bool, decided: bool, held: bool) {
    && (held ==> decided) && (decided ==> took)
    && (Has(s.commits, k, Salvaged) <==> took)
    && (took ==>
          && s.stopper.Taken? && k <= s.step && ConfirmedOf(s.commits, k) == []
          && (Has(s.commits, k, Tail) <==> held)
          && (s.step == k && TailComing(s) ==> decided))
  }

  lemma AppendExplains(commits: seq<Commit>, c: Commit, k: nat)
    ensures forall o :: Has(commits + [c], k, o) <==> Has(commits, k, o) || (c.step == k && c.origin == o)
    ensures ConfirmedOf(commits + [c], k) == ConfirmedOf(commits, k) + (if c.step == k && c.origin.Confirmed? then [c.text] else [])
  {
    ConfirmedOfAppend(commits, c, k);
    var more := commits + [c];
    forall o | Has(commits, k, o) ensures Has(more, k, o) {
      var i :| 0 <= i < |commits| && commits[i].step == k && commits[i].origin == o;
      assert more[i] == commits[i];
    }
    assert more[|commits|] == c;
  }

  /** The salvage of a streaming step is its only commit. */
  lemma SalvageExplains(s: State, text: string, k: nat, decided: bool, held: bool)
    requires Invariant(s) && s.stopper.FlagSet? && NothingOfStep(s) && Explained(s, k, false, decided, held)
    requires s.worker.Streaming? || s.worker.Failing?
    ensures var taken := s.(stopper := Taken, pending := []);
            Explained(Append(taken, Commit(s.step, Salvaged, text)), k, s.step == k, decided, held)
  {
    hide ConfirmedOf;
    AppendExplains(s.commits, Commit(s.step, Salvaged, text), k);
    NothingConfirmed(s.commits, s.step);
  }

  lemma TakeExplains(s: State, rewrite: bool, fallback: Option<string>, k: nat, took: bool, decided: bool, held: bool)
    requires Invariant(s) && Explained(s, k, took, decided, held)
    ensures var step := TakeForStop(rewrite, fallback);
            Explained(Apply(s, step), k, took || TakesAt(s, step, k), decided, held)
  {
    hide Takes, ConfirmedOf;
    var text := Takes(s, rewrite);
    if s.stopper.FlagSet? {
      assert !took;
      if fallback.None? && text != "" {
        EmptyBufferTakesNothing(s, rewrite);
        SalvageExplains(s, text, k, decided, held);
      }
    }
  }

  lemma EmptyBufferTakesNothing(s: State, rewrite: bool)
    ensures s.pending == [] ==> Takes(s, rewrite) == ""
  {
  }

  lemma AppendStepExplains(s: State, step: Step, k: nat, took: bool, decided: bool, held: bool)
    requires Invariant(s) && Explained(s, k, took, decided, held) && (step.ConfirmNext? || step.HoldTail?)
    ensures Explained(Apply(s, step), k, took, decided, held || (decided && HoldsTail(s, step, k)))
  {
    hide ConfirmedOf;
    var s' := Apply(s, step);
    if |s'.commits| > |s.commits| {
      AppendExplains(s.commits, s'.commits[|s.commits|], k);
    }
  }

  lemma ReleaseExplains(s: State, notice: Option<string>, trace: string, k: nat, took: bool, decided: bool, held: bool)
    requires Invariant(s) && Explained(s, k, took, decided, held)
    ensures Explained(Apply(s, ReleaseTail(notice, trace)), k, took, decided, held)
  {
    hide TextOf, ConfirmedOf, Released;
    var s' := Apply(s, ReleaseTail(notice, trace));
    if !Cancelled(s) {
      assert forall c :: c in s'.commits ==> c in s.commits;
      assert forall c :: c in s.appended ==> !c.origin.Salvaged?;
    }
  }

  lemma StepExplains(s: State, step: Step, k: nat, took: bool, decided: bool, held: bool)
    requires Invariant(s) && Explained(s, k, took, decided, held)
    ensures Explained(Apply(s, step), k, took || TakesAt(s, step, k), decided || (took && DecidesTail(s, step, k)),
                      held || (decided && HoldsTail(s, step, k)))
  {
    hide Takes, TextOf, ConfirmedOf, Has;
    match step {
      case TakeForStop(rewrite, fallback) => TakeExplains(s, rewrite, fallback, k, took, decided, held);
      case ConfirmNext => AppendStepExplains(s, step, k, took, decided, held);
      case HoldTail => AppendStepExplains(s, step, k, took, decided, held);
      case ReleaseTail(notice, trace) => ReleaseExplains(s, notice, trace, k, took, decided, held);
      case _ =>
    }
  }

  lemma {:induction false} RunExplains(steps: seq<Step>, k: nat)
    ensures Explained(Run(steps), k, Took(steps, k), TookThenDecided(steps, k), TookThenHeld(steps, k))
  {
    if |steps| > 0 {
      hide Apply, Explained, TakesAt, DecidesTail, HoldsTail, Invariant;
      var before, last := steps[..|steps| - 1], steps[|steps| - 1];
      RunExplains(before, k);
      RunKeeps(before);
      StepExplains(Run(before), last, k, Took(before, k), TookThenDecided(before, k), TookThenHeld(before, k));
    }
  }

  // ---- Main results -----------------------------------------------------------

  /**
   In every interleaving, a step is in the chunk list twice exactly when a stop took its text
   while it streamed, and the step was then decided as a cut-off answer whose rest was appended.
   By then the list has been read for saving, so SavedHasEachStepOnce still holds.
   */
  lemma CommittedTwiceIff(steps: seq<Step>, k: nat)
    ensures CommittedTwice(Run(steps).commits, k) <==> TookThenHeld(steps, k)
  {
    RunExplains(steps, k);
  }

  /** Where no answer is split, as without workspace tools, no step is ever committed twice. */
  lemma CommittedOnce(steps: seq<Step>, k: nat)
    requires forall step :: step in steps && step.Decide? ==> step.tail.None?
    ensures !CommittedTwice(Run(steps).commits, k)
  {
    CommittedTwiceIff(steps, k);
    NeverDecidedWithTail(steps, k);
  }

  lemma {:induction false} NeverDecidedWithTail(steps: seq<Step>, k: nat)
    requires forall step :: step in steps && step.Decide? ==> step.tail.None?
    ensures !TookThenDecided(steps, k) && !TookThenHeld(steps, k)
  {
    hide Run;
    if |steps| > 0 {
      NeverDecidedWithTail(steps[..|steps| - 1], k);
    }
  }

  /** A stop salvages at most once, and only held-back tails are appended after it. */
  lemma OnlyTailsFollowSalvage(steps: seq<Step>, i: nat, j: nat)
    requires i < j < |Run(steps).commits| && Run(steps).commits[i].origin.Salvaged?
    ensures Run(steps).commits[j].origin.Tail?
  {
    RunKeeps(steps);
  }

  /** While a step is being confirmed, exactly the first chunks of its body were appended, each once and in order. */
  lemma ConfirmationIsPrefix(steps: seq<Step>)
    requires Run(steps).worker.Confirming?
    ensures var s := Run(steps);
            s.worker.next <= |s.worker.body| && ConfirmedOf(s.appended, s.step) == s.worker.body[..s.worker.next]
  {
    RunKeeps(steps);
  }

  /** The answer is persisted at most once per job. */
  lemma PersistedAtMostOnce(steps: seq<Step>)
    ensures Run(steps).saves.calls <= 1
  {
    RunKeeps(steps);
  }

  /** No step is in the list both as salvaged and as committed. */
  ghost predicate EachStepOnce(commits: seq<Commit>) {
    forall k: nat :: !CommittedTwice(commits, k)
  }

  /** Whatever was read for saving, or is about to be, has each step at most once. */
  ghost predicate ReadsOnce(s: State) {
    && (s.saves.byStop.Some? ==> EachStepOnce(s.saves.byStop.value))
    && (s.saves.byWorker.Some? ==> EachStepOnce(s.saves.byWorker.value))
    && (s.saves.saved.Some? ==> EachStepOnce(s.saves.saved.value))
    && (s.worker.Failing? || s.worker.Rescuing? || s.worker.Finishing? ==> EachStepOnce(s.commits))
  }

  lemma NotYetTaken(s: State)
    requires CommitsOk(s) && !s.stopper.Taken?
    ensures EachStepOnce(s.commits)
  {
    forall k: nat ensures !CommittedTwice(s.commits, k) {
      assert !Has(s.commits, k, Salvaged);
    }
  }

  lemma TakeReadsOnce(s: State, rewrite: bool, fallback: Option<string>)
    requires Invariant(s) && s.stopper.FlagSet?
    ensures EachStepOnce(AfterTake(s, rewrite, fallback).commits)
  {
    hide Takes, ConfirmedOf, CommittedTwice;
    var text, taken := Takes(s, rewrite), AfterTake(s, rewrite, fallback).commits;
    NotYetTaken(s);
    if fallback.Some? {
      NoSalvage(taken);
    } else if text != "" {
      EmptyBufferTakesNothing(s, rewrite);
      SalvageReadsOnce(s.commits, s.step, text);
    }
  }

  lemma NoSalvage(commits: seq<Commit>)
    requires forall c :: c in commits ==> !c.origin.Salvaged?
    ensures EachStepOnce(commits)
  {
  }

  lemma SalvageReadsOnce(commits: seq<Commit>, step: nat, text: string)
    requires forall c :: c in commits ==> !c.origin.Salvaged? && (c.step < step || c.origin.Replacement?)
    ensures EachStepOnce(commits + [Commit(step, Salvaged, text)])
  {
    hide ConfirmedOf;
    forall k: nat ensures !CommittedTwice(commits + [Commit(step, Salvaged, text)], k) {
      AppendExplains(commits, Commit(step, Salvaged, text), k);
      if k == step {
        NothingConfirmed(commits, k);
      }
    }
  }

  lemma StepReadsOnce(s: State, step: Step)
    requires Invariant(s) && ReadsOnce(s)
    ensures ReadsOnce(Apply(s, step))
  {
    hide AfterTake, TextOf, Takes, EachStepOnce, CurrentStepOk, CommitsOk, Released;
    match step {
      case TakeForStop(rewrite, fallback) =>
        if s.stopper.FlagSet? {
          TakeReadsOnce(s, rewrite, fallback);
        }
      case EndTurn => if !Cancelled(s) { NotYetTaken(s); }
      case FailTurn => if !Cancelled(s) { NotYetTaken(s); }
      case ConfirmNext =>
        if !Cancelled(s) {
          ApplyKeeps(s, step);
          NotYetTaken(Apply(s, step));
        }
      case _ =>
    }
  }

  lemma {:induction false} RunReadsOnce(steps: seq<Step>)
    ensures ReadsOnce(Run(steps))
  {
    if |steps| > 0 {
      hide Apply, Invariant, ReadsOnce;
      RunReadsOnce(steps[..|steps| - 1]);
      RunKeeps(steps[..|steps| - 1]);
      StepReadsOnce(Run(steps[..|steps| - 1]), steps[|steps| - 1]);
    }
  }

  /**
   In every interleaving the saved answer is the chunk list as the stop took it or as the worker read
   it, and has each step at most once, whatever is appended to the list later.
   */
  lemma SavedHasEachStepOnce(steps: seq<Step>)
    ensures var saves := Run(steps).saves;
            saves.calls <= 1 && (saves.saved.Some? ==> EachStepOnce(saves.saved.value))
  {
    RunReadsOnce(steps);
    RunKeeps(steps);
  }

  /** The list is everything appended, unless a held part was taken out or a stop replaced it. */
  lemma {:induction false} ListIsAppended(steps: seq<Step>)
    requires forall step :: step in steps ==> !step.ReleaseTail? && (step.TakeForStop? ==> step.fallback.None?)
    ensures Run(steps).commits == Run(steps).appended
  {
    hide Takes, TextOf;
    if |steps| > 0 {
      ListIsAppended(steps[..|steps| - 1]);
    }
  }

  lemma RunAppend(steps: seq<Step>, step: Step)
    ensures Run(steps + [step]) == Apply(Run(steps), step)
  {
    assert (steps + [step])[..|steps|] == steps;
  }

  lemma RunSplits(steps: seq<Step>, more: seq<Step>)
    requires |more| > 0
    ensures Run(steps + more) == Apply(Run(steps + more[..|more| - 1]), more[|more| - 1])
  {
    assert (steps + more)[..|steps| + |more| - 1] == steps + more[..|more| - 1];
  }

  /** A stop flag or a failure cuts the confirmation of a step short. */
  predicate CutShort(flagged: bool, steps: seq<Step>) { flagged || SetFlag in steps || FailTurn in steps }

  /** How many confirmations come before the first stop flag of the run, or the first failure after the decision. */
  function ConfirmsBeforeCut(flagged: bool, steps: seq<Step>): nat {
    if |steps| == 0 then 0
    else
      var before := steps[..|steps| - 1];
      ConfirmsBeforeCut(flagged, before) + (if steps[|steps| - 1].ConfirmNext? && !CutShort(flagged, before) then 1 else 0)
  }

  lemma {:induction false} FlagStays(steps: seq<Step>, more: seq<Step>)
    ensures Cancelled(Run(steps + more)) <==> Cancelled(Run(steps)) || SetFlag in more
    ensures Run(steps).step <= Run(steps + more).step
  {
    hide Takes, TextOf, Run;
    if |more| == 0 {
      assert steps + more == steps;
    } else {
      FlagStays(steps, more[..|more| - 1]);
      RunSplits(steps, more);
      assert more == more[..|more| - 1] + [more[|more| - 1]];
    }
  }

  /** How far the confirmation of a decided step has come after n attempts before it was cut short. */
  ghost predicate Progress(s: State, k: nat, body: seq<string>, n: nat, cut: bool) {
    && ConfirmedOf(s.appended, k) == body[..Min(n, |body|)]
    && k <= s.step && (Cancelled(s) ==> cut)
    && (if s.step == k && s.worker.Confirming? then
          s.worker.body == body && s.worker.next == Min(n, |body|) && (if cut then Cancelled(s) else n <= |body|)
        else
          && (s.step == k ==> !s.worker.Streaming? && !s.worker.Rescuing? && s.pending == [])
          && (cut || n >= |body|))
  }

  lemma StepProgresses(s: State, step: Step, k: nat, body: seq<string>, n: nat, cut: bool)
    requires Invariant(s) && Progress(s, k, body, n, cut)
    ensures Progress(Apply(s, step), k, body, n + (if step.ConfirmNext? && !cut then 1 else 0), cut || step.SetFlag? || step.FailTurn?)
  {
    hide Takes, TextOf, ConfirmedOf, CommitsOk, Released, AfterTake;
    match step {
      case ConfirmNext => ConfirmProgresses(s, k, body, n, cut);
      case TakeForStop(_, _) => AppendProgresses(s, step, k, body, n, cut);
      case HoldTail => AppendProgresses(s, step, k, body, n, cut);
      case TakeForFailure(rewrite) => EmptyBufferTakesNothing(s, rewrite);
      case _ =>
    }
  }

  /** Appends that confirm nothing. */
  lemma AppendProgresses(s: State, step: Step, k: nat, body: seq<string>, n: nat, cut: bool)
    requires CurrentStepOk(s) && Progress(s, k, body, n, cut) && (step.TakeForStop? || step.HoldTail?)
    ensures Progress(Apply(s, step), k, body, n, cut)
  {
    hide Takes, ConfirmedOf;
    var s' := Apply(s, step);
    if |s'.appended| > |s.appended| {
      ConfirmedOfAppend(s.appended, s'.appended[|s.appended|], k);
    }
  }

  lemma ConfirmProgresses(s: State, k: nat, body: seq<string>, n: nat, cut: bool)
    requires CurrentStepOk(s) && Progress(s, k, body, n, cut)
    ensures Progress(Apply(s, ConfirmNext), k, body, n + if cut then 0 else 1, cut)
  {
    hide ConfirmedOf;
    var s' := Apply(s, ConfirmNext);
    if |s'.appended| > |s.appended| {
      ConfirmedOfAppend(s.appended, s'.appended[|s.appended|], k);
      if s.step == k {
        assert body[..n + 1] == body[..n] + [body[n]];
      }
    }
  }

  lemma DecideProgresses(s: State, body: seq<string>, tail: Option<string>)
    requires Invariant(s) && s.worker.Streaming? && (tail.None? || s.held.None?)
    ensures Progress(Apply(s, Decide(body, tail)), s.step, body, 0, Cancelled(s))
  {
    NothingConfirmed(s.appended, s.step);
  }

  lemma {:induction false} DecidedStepProgresses(pre: seq<Step>, body: seq<string>, tail: Option<string>, post: seq<Step>)
    requires Run(pre).worker.Streaming? && (tail.None? || Run(pre).held.None?)
    ensures var run := pre + [Decide(body, tail)] + post;
            var flagged := Cancelled(Run(pre));
            Progress(Run(run), Run(pre).step, body, ConfirmsBeforeCut(flagged, post), CutShort(flagged, post))
  {
    hide Apply, Progress, Invariant, Run;
    var start := pre + [Decide(body, tail)];
    RunAppend(pre, Decide(body, tail));
    if |post| == 0 {
      RunKeeps(pre);
      DecideProgresses(Run(pre), body, tail);
      assert start + post == start;
    } else {
      var before := post[..|post| - 1];
      DecidedStepProgresses(pre, body, tail, before);
      RunSplits(start, post);
      RunKeeps(start + before);
      var flagged, last := Cancelled(Run(pre)), post[|post| - 1];
      StepProgresses(Run(start + before), last, Run(pre).step, body, ConfirmsBeforeCut(flagged, before), CutShort(flagged, before));
      assert post == before + [last];
    }
  }

  /**
   A decided body is committed chunk by chunk: as far as confirmations come before the stop flag
   or a failure, and whole exactly when all of them do. What the stop's take then finds is not this body any more.
   */
  lemma BodyCommittedIff(pre: seq<Step>, body: seq<string>, tail: Option<string>, post: seq<Step>)
    requires Run(pre).worker.Streaming? && (tail.None? || Run(pre).held.None?)
    ensures var confirmed := ConfirmedOf(Run(pre + [Decide(body, tail)] + post).appended, Run(pre).step);
            var n := ConfirmsBeforeCut(Cancelled(Run(pre)), post);
            && confirmed == body[..Min(n, |body|)]
            && (confirmed == body <==> n >= |body|)
  {
    DecidedStepProgresses(pre, body, tail, post);
  }

  lemma SalvageNeedsStreaming(s: State, step: Step, k: nat)
    requires Invariant(s) && !Has(s.appended, k, Salvaged) && (s.step == k ==> s.pending == [])
    ensures !Has(Apply(s, step).appended, k, Salvaged)
  {
    hide TextOf, ConfirmedOf, Takes;
    if step.TakeForStop? {
      EmptyBufferTakesNothing(s, step.rewrite);
    }
  }

  /** A decided step is not salvaged either, so a body that was not confirmed is dropped by both sides. */
  lemma {:induction false} DecidedIsNotSalvaged(pre: seq<Step>, body: seq<string>, tail: Option<string>, post: seq<Step>)
    requires Run(pre).worker.Streaming? && (tail.None? || Run(pre).held.None?) && !Run(pre).stopper.Taken?
    ensures !Has(Run(pre + [Decide(body, tail)] + post).appended, Run(pre).step, Salvaged)
  {
    var start, k := pre + [Decide(body, tail)], Run(pre).step;
    RunAppend(pre, Decide(body, tail));
    RunKeeps(pre);
    if |post| == 0 {
      assert start + post == start;
    } else {
      hide Apply, ConfirmedOf, Has;
      var before := post[..|post| - 1];
      DecidedIsNotSalvaged(pre, body, tail, before);
      RunSplits(start, post);
      RunKeeps(start + before);
      DecidedStepProgresses(pre, body, tail, before);
      SalvageNeedsStreaming(Run(start + before), post[|post| - 1], k);
    }
  }

  /** A body may be dropped: decided after the flag, before the take. */
  lemma BodyMayBeDropped(body: seq<string>)
    ensures exists steps: seq<Step> ::
              Decide(body, None) in steps && Run(steps).stopper.Taken? && Run(steps).worker.Between? && Run(steps).appended == []
  {
    hide Salvage;
    var opening := [BeginStep, Buffer(body), SetFlag];
    assert [] + [BeginStep] == [BeginStep] && [BeginStep] + [Buffer(body)] + [SetFlag] == opening;
    RunAppend([], BeginStep);
    RunAppend([BeginStep], Buffer(body));
    RunAppend([BeginStep] + [Buffer(body)], SetFlag);
    RunAppend(opening, Decide(body, None));
    var taken := opening + [Decide(body, None)] + [TakeForStop(false, None)];
    EmptyBufferTakesNothing(Run(opening + [Decide(body, None)]), false);
    RunAppend(opening + [Decide(body, None)], TakeForStop(false, None));
    RunAppend(taken, ConfirmNext);
    var steps := taken + [ConfirmNext];
    assert steps[3] == Decide(body, None);
    assert Run(steps).appended == [];
  }

  /** A stop that takes a step's text while it streams. */
  lemma TakenRun(text: string) returns (steps: seq<Step>)
    requires text != ""
    ensures var c := Commit(1, Salvaged, text);
            Run(steps) == State(1, Streaming, [], None, Taken, [c], [c], Saves(Some([c]), None, None, 0))
  {
    hide Takes, Run, Join;
    StartOfRun();
    var streaming := State(1, Streaming, [text], None, FlagSet, [], [], Saves(None, None, None, 0));
    RunAppend([], BeginStep);
    RunAppend([] + [BeginStep], Buffer([text]));
    RunAppend([] + [BeginStep] + [Buffer([text])], SetFlag);
    steps := [] + [BeginStep] + [Buffer([text])] + [SetFlag];
    assert Run(steps) == streaming;
    RunAppend(steps, TakeForStop(false, None));
    steps := steps + [TakeForStop(false, None)];
    FirstTextIsTakenWhole(streaming, text);
    assert [] + [Commit(1, Salvaged, text)] == [Commit(1, Salvaged, text)];
  }

  /** Any cut-off answer: the stop takes it, then the rest behind its last sentence is appended to the list a second time. */
  lemma TailCommittedAgain(text: string, cut: nat)
    requires cut < |text|
    ensures exists steps: seq<Step> ::
              && CommittedTwice(Run(steps).commits, 1) && TextOf(Run(steps).commits) == text + text[cut..]
              && Run(steps).saves.byStop.Some? && TextOf(Run(steps).saves.byStop.value) == text
  {
    hide Takes, Run, TextOf, ConfirmedOf;
    var tail := text[cut..];
    var c, d := Commit(1, Salvaged, text), Commit(1, Tail, tail);
    var taken := TakenRun(text);
    var decided := taken + [Decide([], Some(tail))];
    RunAppend(taken, Decide([], Some(tail)));
    RunAppend(decided, ConfirmNext);
    RunAppend(decided + [ConfirmNext], HoldTail);
    var steps := decided + [ConfirmNext] + [HoldTail];
    var commits := Run(steps).commits;
    assert commits == [c] + [d] && Run(steps).saves.byStop == Some([c]);
    assert commits[0] == c && commits[1] == d;
    assert CommittedTwice(commits, 1);
    TextOfAppend([c], d);
    TextOfAppend([], c);
    NoText();
    assert [] + [c] == [c] && "" + text == text;
  }

  lemma StartOfRun()
    ensures Run([]) == START
  {
  }

  lemma FirstTextIsTakenWhole(s: State, text: string)
    requires s.commits == [] && s.pending == [text] && text != ""
    ensures Takes(s, false) == text
  {
    JoinAppend([], text);
    assert [] + [text] == [text];
    assert Texts([]) == [];
  }

  // ---- The held part ----------------------------------------------------------------

  lemma {:induction false} OutsideTheLock(s: State, between: seq<Step>, pre: seq<Step>)
    requires s == Run(pre) && !Cancelled(s)
    requires forall step :: step in between ==> step.SetFlag? || step.Persist?
    ensures var t := Run(pre + between);
            && t.worker == s.worker && t.commits == s.commits && t.appended == s.appended && t.step == s.step
            && (Cancelled(t) <==> SetFlag in between)
  {
    hide Run;
    FlagStays(pre, between);
    if |between| == 0 {
      assert pre + between == pre;
    } else {
      hide Takes, TextOf;
      OutsideTheLock(s, between[..|between| - 1], pre);
      RunSplits(pre, between);
      assert between[|between| - 1] in between;
    }
  }

  /** The list's text after a release: the front alone if the flag came in between, else the front and what was committed. */
  lemma ReleasedText(pre: seq<Step>, notice: Option<string>, trace: string, between: seq<Step>)
    requires var s := Run(pre); s.worker.Between? && s.held.Some? && !Cancelled(s)
    requires forall step :: step in between ==> step.SetFlag? || step.Persist?
    ensures var s, t := Run(pre), Run(pre + [ReleaseTail(notice, trace)] + between + [ConfirmNext]);
            && s.held.value <= |s.commits|
            && var front, text := s.commits[..s.held.value], TextOf(s.commits[s.held.value..]);
               TextOf(t.commits) == TextOf(front) + if text == "" || SetFlag in between then "" else Released(front, text, notice, trace)
  {
    RunKeeps(pre);
    assert Run(pre).held.value <= |Run(pre).commits|;
    hide TextOf, Takes, Run, Released, Invariant;
    var s, release := Run(pre), ReleaseTail(notice, trace);
    var front, text := s.commits[..s.held.value], TextOf(s.commits[s.held.value..]);
    var released := pre + [release];
    RunAppend(pre, release);
    OutsideTheLock(Run(released), between, released);
    RunAppend(released + between, ConfirmNext);
    if text != "" && SetFlag !in between {
      TextOfAppend(front, Commit(s.step + 1, Confirmed, Released(front, text, notice, trace)));
    }
  }

  lemma SameEnd(front: string, a: string, b: string)
    ensures front + a == front + b <==> a == b
  {
    assert (front + a)[|front|..] == a && (front + b)[|front|..] == b;
  }

  /**
   Releasing the held part takes it out and commits it again under one lock. The text survives
   exactly when there was none, or the unlocked flag, which is tested twice, is not set in between and
   what is committed is the same: no notice replaces it and no search trace goes in front of it.
   */
  lemma ReleaseKeepsTextIff(pre: seq<Step>, notice: Option<string>, trace: string, between: seq<Step>)
    requires var s := Run(pre); s.worker.Between? && s.held.Some? && !Cancelled(s)
    requires forall step :: step in between ==> step.SetFlag? || step.Persist?
    ensures var s, t := Run(pre), Run(pre + [ReleaseTail(notice, trace)] + between + [ConfirmNext]);
            && s.held.value <= |s.commits|
            && var text := TextOf(s.commits[s.held.value..]);
               var opening := if s.held.value == 0 then trace else "";
               TextOf(t.commits) == TextOf(s.commits) <==>
                 || text == ""
                 || (SetFlag !in between && if notice.None? then opening == "" else opening + notice.value == text)
  {
    hide TextOf, Run;
    ReleasedText(pre, notice, trace, between);
    var s := Run(pre);
    var front, back := s.commits[..s.held.value], s.commits[s.held.value..];
    var text := TextOf(back);
    TextOfJoins(front, back);
    assert front + back == s.commits;
    SameEnd(TextOf(front), Released(front, text, notice, trace), text);
    SameEnd(TextOf(front), "", text);
    assert TextOf(front) + "" == TextOf(front);
  }

  /** A cut-off answer whose rest is held and continued. */
  lemma HeldRun(lead: seq<string>, tail: string, more: string) returns (steps: seq<Step>)
    requires |lead| <= 1 && tail != ""
    ensures SetFlag !in steps
    ensures var s := Run(steps);
            && s.worker.Between? && s.held == Some(|lead|) && !Cancelled(s) && Texts(s.commits) == lead + [tail] + [more]
  {
    hide Takes, Run;
    StartOfRun();
    steps := [] + [BeginStep] + [Decide(lead, Some(tail))];
    RunAppend([], BeginStep);
    RunAppend([] + [BeginStep], Decide(lead, Some(tail)));
    if |lead| == 1 {
      RunAppend(steps, ConfirmNext);
      steps := steps + [ConfirmNext];
    }
    RunAppend(steps, ConfirmNext);
    RunAppend(steps + [ConfirmNext], HoldTail);
    steps := steps + [ConfirmNext] + [HoldTail];
    RunAppend(steps, BeginStep);
    RunAppend(steps + [BeginStep], Decide([more], None));
    steps := steps + [BeginStep] + [Decide([more], None)];
    RunAppend(steps, ConfirmNext);
    RunAppend(steps + [ConfirmNext], ConfirmNext);
    steps := steps + [ConfirmNext] + [ConfirmNext];
    assert Texts(Run(steps).commits) == lead + [tail] + [more];
  }

  lemma HeldTexts(commits: seq<Commit>, lead: seq<string>, tail: string, more: string)
    requires |lead| <= 1 && Texts(commits) == lead + [tail] + [more]
    ensures |commits| == |lead| + 2
    ensures TextOf(commits[..|lead|]) == Join(lead) && TextOf(commits[|lead|..]) == tail + more
  {
    hide Join;
    NoChunks();
    assert |Texts(commits)| == |commits|;
    assert Texts(commits[..|lead|]) == Texts(commits)[..|lead|] == lead;
    assert Texts(commits[|lead|..]) == Texts(commits)[|lead|..] == [] + [tail] + [more];
    JoinAppend([], tail);
    JoinAppend([] + [tail], more);
  }

  /** Releasing such a held part, with or without the flag in between. */
  lemma HeldAndReleased(lead: seq<string>, tail: string, more: string, notice: Option<string>, trace: string, flagged: bool)
    returns (held: seq<Step>, steps: seq<Step>)
    requires |lead| <= 1 && tail != ""
    ensures held <= steps && (SetFlag in steps <==> flagged)
    ensures TextOf(Run(held).commits) == Join(lead) + (tail + more)
    ensures TextOf(Run(steps).commits) == Join(lead)
              + if flagged then "" else (if lead == [] then trace else "") + (if notice.Some? then notice.value else tail + more)
  {
    held := HeldRun(lead, tail, more);
    hide Run, TextOf, Texts, Join;
    var between := if flagged then [SetFlag] else [];
    steps := held + [ReleaseTail(notice, trace)] + between + [ConfirmNext];
    var commits := Run(held).commits;
    HeldTexts(commits, lead, tail, more);
    TextOfJoins(commits[..|lead|], commits[|lead|..]);
    assert commits[..|lead|] + commits[|lead|..] == commits;
    ReleasedText(held, notice, trace, between);
  }

  /** A write claim completed by the continuation is replaced by a notice, with no stop at all. */
  lemma ReleaseMayReplace(lead: string, tail: string, more: string, notice: string)
    requires tail != ""
    ensures exists steps: seq<Step> :: SetFlag !in steps && TextOf(Run(steps).commits) == lead + notice
  {
    hide Run, TextOf;
    var _, steps := HeldAndReleased([lead], tail, more, Some(notice), "", false);
    OneChunk(lead);
    assert "" + notice == notice;
  }

  /** An answer without a sentence end is committed again behind the search trace. */
  lemma ReleaseMayAddTrace(tail: string, more: string, trace: string)
    requires tail != ""
    ensures exists steps: seq<Step> :: SetFlag !in steps && TextOf(Run(steps).commits) == trace + (tail + more)
  {
    hide Run, TextOf;
    var _, steps := HeldAndReleased([], tail, more, None, trace, false);
    assert "" + (trace + (tail + more)) == trace + (tail + more);
  }

  /** A flag set between the two tests drops the held part. */
  lemma ReleaseMayDrop(lead: string, tail: string, more: string)
    requires tail != ""
    ensures exists before: seq<Step>, after: seq<Step> ::
              before <= after && TextOf(Run(before).commits) == lead + (tail + more) && TextOf(Run(after).commits) == lead
  {
    hide Run, TextOf;
    var before, after := HeldAndReleased([lead], tail, more, None, "", true);
    OneChunk(lead);
    assert lead + "" == lead;
  }

  lemma OneChunk(text: string)
    ensures Join([text]) == text
  {
    JoinAppend([], text);
    assert [] + [text] == [text];
  }

  lemma TextOfAppend(commits: seq<Commit>, c: Commit)
    ensures TextOf(commits + [c]) == TextOf(commits) + c.text
  {
    assert Texts(commits + [c]) == Texts(commits) + [c.text];
    JoinAppend(Texts(commits), c.text);
  }

  lemma NoText()
    ensures TextOf([]) == ""
  {
    assert Texts([]) == [];
  }

  lemma {:induction false} TextOfJoins(a: seq<Commit>, b: seq<Commit>)
    ensures TextOf(a + b) == TextOf(a) + TextOf(b)
  {
    hide TextOf;
    NoText();
    if |b| == 0 {
      assert a + b == a && b == [];
    } else {
      var front, c := b[..|b| - 1], b[|b| - 1];
      TextOfJoins(a, front);
      TextOfAppend(a + front, c);
      TextOfAppend(front, c);
      assert a + b == a + front + [c] && b == front + [c];
    }
  }

  // ---- What is saved ------------------------------------------------------------------

  /** Step i is the stop's take. */
  predicate StopTakes(steps: seq<Step>, i: nat) {
    i < |steps| && steps[i].TakeForStop? && Run(steps[..i]).stopper.FlagSet?
  }

  /** At step i the worker reads the list. */
  predicate WorkerReads(steps: seq<Step>, i: nat) {
    i < |steps| && steps[i].ReadForSaving? && Run(steps[..i]).worker.Finishing?
  }

  /** The list is the one the stop's take at step i left. */
  predicate TakenAt(steps: seq<Step>, list: seq<Commit>, i: nat) {
    StopTakes(steps, i) && list == Run(steps[..i + 1]).commits
  }

  /** The list is the one at step i, the worker's latest read. */
  ghost predicate ReadAt(steps: seq<Step>, list: seq<Commit>, i: nat) {
    WorkerReads(steps, i) && list == Run(steps[..i]).commits && forall j :: i < j < |steps| ==> !WorkerReads(steps, j)
  }

  /** Step p saves the list: the stop the one it took, the worker the one it read last. */
  ghost predicate SavedAt(steps: seq<Step>, list: seq<Commit>, p: nat) {
    && p < |steps| && steps[p].Persist? && Run(steps[..p]).saves.saved.None?
    && if steps[p].byStop then exists i: nat :: TakenAt(steps[..p], list, i) else exists i: nat :: ReadAt(steps[..p], list, i)
  }

  lemma StepSaves(s: State, step: Step)
    ensures Apply(s, step).saves.byStop ==
            if step.TakeForStop? && s.stopper.FlagSet? then Some(Apply(s, step).commits) else s.saves.byStop
    ensures Apply(s, step).saves.byWorker ==
            if step.ReadForSaving? && s.worker.Finishing? then Some(s.commits) else s.saves.byWorker
    ensures Apply(s, step).saves.saved ==
            if !step.Persist? || s.saves.saved.Some? then s.saves.saved
            else if step.byStop then s.saves.byStop else s.saves.byWorker
  {
    hide Takes, TextOf, Released;
  }

  lemma {:induction false} StopListWasTaken(steps: seq<Step>)
    requires Run(steps).saves.byStop.Some?
    ensures exists i: nat :: TakenAt(steps, Run(steps).saves.byStop.value, i)
  {
    hide Apply;
    if |steps| > 0 {
      var before, last := steps[..|steps| - 1], steps[|steps| - 1];
      StepSaves(Run(before), last);
      if StopTakes(steps, |steps| - 1) {
        assert steps[..|steps|] == steps;
        assert TakenAt(steps, Run(steps).saves.byStop.value, |steps| - 1);
      } else {
        StopListWasTaken(before);
        var list := Run(before).saves.byStop.value;
        var i: nat :| TakenAt(before, list, i);
        assert before[..i] == steps[..i] && before[..i + 1] == steps[..i + 1];
        assert TakenAt(steps, list, i);
      }
    }
  }

  lemma {:induction false} WorkerListWasRead(steps: seq<Step>)
    requires Run(steps).saves.byWorker.Some?
    ensures exists i: nat :: ReadAt(steps, Run(steps).saves.byWorker.value, i)
  {
    hide Apply;
    if |steps| > 0 {
      var before, last := steps[..|steps| - 1], steps[|steps| - 1];
      StepSaves(Run(before), last);
      var list := Run(steps).saves.byWorker.value;
      if WorkerReads(steps, |steps| - 1) {
        assert ReadAt(steps, list, |steps| - 1);
      } else {
        WorkerListWasRead(before);
        var i: nat :| ReadAt(before, list, i);
        assert before + [last] == steps;
        ReadStays(before, last, list, i);
      }
    }
  }

  lemma ReadStays(before: seq<Step>, last: Step, list: seq<Commit>, i: nat)
    requires ReadAt(before, list, i) && !WorkerReads(before + [last], |before|)
    ensures ReadAt(before + [last], list, i)
  {
    hide Run;
    forall j: nat | j < |before| ensures WorkerReads(before, j) == WorkerReads(before + [last], j) {
      assert (before + [last])[..j] == before[..j];
    }
    assert (before + [last])[..i] == before[..i];
  }

  /**
   In every interleaving, whatever is saved was saved by one persist: the stop's persist saves the
   list its take left, the worker's the list at its latest read.
   */
  lemma {:induction false} SavedWasRead(steps: seq<Step>)
    requires Run(steps).saves.saved.Some?
    ensures exists p: nat :: SavedAt(steps, Run(steps).saves.saved.value, p)
  {
    hide Apply, TakenAt, ReadAt;
    if |steps| > 0 {
      var before, last := steps[..|steps| - 1], steps[|steps| - 1];
      StepSaves(Run(before), last);
      var list := Run(steps).saves.saved.value;
      if Run(before).saves.saved.Some? {
        SavedWasRead(before);
        var p: nat :| SavedAt(before, list, p);
        assert before[..p] == steps[..p];
        assert SavedAt(steps, list, p);
      } else {
        if last.byStop {
          StopListWasTaken(before);
        } else {
          WorkerListWasRead(before);
        }
        assert SavedAt(steps, list, |steps| - 1);
      }
    }
  }

  lemma {:induction false} SavedStays(steps: seq<Step>, more: seq<Step>)
    requires Run(steps).saves.saved.Some?
    ensures Run(steps + more).saves.saved == Run(steps).saves.saved
  {
    hide Apply, Run;
    if |more| == 0 {
      assert steps + more == steps;
    } else {
      SavedStays(steps, more[..|more| - 1]);
      RunSplits(steps, more);
      StepSaves(Run(steps + more[..|more| - 1]), more[|more| - 1]);
    }
  }

  /** Nothing is saved, and this side does not read the list again. */
  predicate KeepsLists(steps: seq<Step>, byStop: bool) {
    forall step :: step in steps ==> !step.Persist? && !(if byStop then step.TakeForStop? else step.ReadForSaving?)
  }

  lemma {:induction false} ListsStay(steps: seq<Step>, more: seq<Step>, byStop: bool)
    requires KeepsLists(more, byStop)
    ensures var s, t := Run(steps).saves, Run(steps + more).saves;
            t.saved == s.saved && if byStop then t.byStop == s.byStop else t.byWorker == s.byWorker
  {
    hide Apply, Run;
    if |more| == 0 {
      assert steps + more == steps;
    } else {
      ListsStay(steps, more[..|more| - 1], byStop);
      RunSplits(steps, more);
      StepSaves(Run(steps + more[..|more| - 1]), more[|more| - 1]);
      assert more[|more| - 1] in more;
    }
  }

  /** A worker that is the first to save has saved the list it read, whatever happened in between and later. */
  lemma WorkerSaves(pre: seq<Step>, between: seq<Step>, post: seq<Step>)
    requires Run(pre).worker.Finishing? && Run(pre).saves.saved.None? && KeepsLists(between, false)
    ensures Run(pre + [ReadForSaving] + between + [Persist(false)] + post).saves.saved == Some(Run(pre).commits)
  {
    hide Apply, Run;
    var read := pre + [ReadForSaving];
    RunAppend(pre, ReadForSaving);
    StepSaves(Run(pre), ReadForSaving);
    ListsStay(read, between, false);
    RunAppend(read + between, Persist(false));
    StepSaves(Run(read + between), Persist(false));
    SavedStays(read + between + [Persist(false)], post);
  }

  /** The list behind a stop's take: what it salvaged is added, or a notice replaces everything. */
  function StopList(s: State, rewrite: bool, fallback: Option<string>): seq<Commit> {
    var text := Salvage(TextOf(s.commits), Join(s.pending), rewrite);
    if fallback.Some? then [Commit(s.step, Replacement, fallback.value)]
    else if text == "" then s.commits
    else s.commits + [Commit(s.step, Salvaged, text)]
  }

  /** A stop that is the first to save has saved the list with what it salvaged, or the notice alone. */
  lemma StopSaves(pre: seq<Step>, rewrite: bool, fallback: Option<string>, between: seq<Step>, post: seq<Step>)
    requires Run(pre).stopper.FlagSet? && Run(pre).saves.saved.None? && KeepsLists(between, true)
    ensures Run(pre + [TakeForStop(rewrite, fallback)] + between + [Persist(true)] + post).saves.saved
            == Some(StopList(Run(pre), rewrite, fallback))
  {
    hide Run, TextOf, Salvage, Join;
    var take := TakeForStop(rewrite, fallback);
    var taken := pre + [take];
    RunAppend(pre, take);
    assert Apply(Run(pre), take).commits == StopList(Run(pre), rewrite, fallback);
    hide Apply, StopList;
    StepSaves(Run(pre), take);
    ListsStay(taken, between, true);
    RunAppend(taken + between, Persist(true));
    StepSaves(Run(taken + between), Persist(true));
    SavedStays(taken + between + [Persist(true)], post);
  }

  // ---- An answer nobody stops -------------------------------------------------------

  /** No stop, no failure, and a held part is released as it is. */
  predicate Undisturbed(step: Step) {
    !step.SetFlag? && !step.FailTurn? && (step.ReleaseTail? ==> step.notice.None? && step.trace == "")
  }

  function AnsweredBy(s: State, step: Step): string {
    if step.Decide? && s.worker.Streaming? && (step.tail.None? || s.held.None?)
    then Join(step.body) + (if step.tail.Some? then step.tail.value else "")
    else ""
  }

  /** The text of every step that was decided as an answer, in order. */
  function Answered(steps: seq<Step>): string {
    if |steps| == 0 then ""
    else Answered(steps[..|steps| - 1]) + AnsweredBy(Run(steps[..|steps| - 1]), steps[|steps| - 1])
  }

  /** What of the decided answers is still to be committed. */
  function Owed(w: Worker): string {
    match w
    case Confirming(body, next, tail) =>
      (if next <= |body| then Join(body[next..]) else "") + (if tail.Some? then tail.value else "")
    case TailDue(text) => text
    case _ => ""
  }

  /** Nobody stopped or failed, and nothing is read for saving before the turn ends. */
  predicate Quiet(s: State) {
    && s.stopper.Idle? && !s.worker.Failing? && !s.worker.Rescuing?
    && (!s.worker.Saving? ==> s.saves == Saves(None, None, None, 0))
  }

  lemma {:induction false} JoinHead(chunks: seq<string>)
    requires |chunks| > 0
    ensures Join(chunks) == chunks[0] + Join(chunks[1..])
  {
    if |chunks| == 1 {
      assert chunks[..0] == [] && chunks[1..] == [];
    } else {
      var n := |chunks| - 1;
      JoinHead(chunks[..n]);
      assert chunks[1..][..n - 1] == chunks[..n][1..];
    }
  }

  lemma ConfirmPays(s: State)
    requires CurrentStepOk(s) && Quiet(s)
    ensures var t := Apply(s, ConfirmNext); Quiet(t) && TextOf(t.commits) + Owed(t.worker) == TextOf(s.commits) + Owed(s.worker)
  {
    hide TextOf, Join, ConfirmedOf;
    if s.worker.Confirming? {
      var rest := s.worker.body[s.worker.next..];
      if rest == [] {
        NoChunks();
      } else {
        JoinHead(rest);
        assert rest[1..] == s.worker.body[s.worker.next + 1..];
        TextOfAppend(s.commits, Commit(s.step, Confirmed, rest[0]));
      }
    }
  }

  lemma NoChunks()
    ensures Join([]) == ""
  {
  }

  lemma NothingOwed()
    ensures Owed(Between) == ""
  {
  }

  lemma ReleasePays(s: State)
    requires CommitsOk(s) && Quiet(s)
    ensures var t := Apply(s, ReleaseTail(None, ""));
            Quiet(t) && TextOf(t.commits) + Owed(t.worker) == TextOf(s.commits) + Owed(s.worker)
  {
    hide TextOf, Join;
    if s.worker.Between? && s.held.Some? {
      var front, back := s.commits[..s.held.value], s.commits[s.held.value..];
      TextOfJoins(front, back);
      assert front + back == s.commits;
      OneChunk(TextOf(back));
      assert [TextOf(back)][0..] == [TextOf(back)];
      assert Released(front, TextOf(back), None, "") == TextOf(back);
    }
  }

  lemma StepPays(s: State, step: Step)
    requires Invariant(s) && Quiet(s) && Undisturbed(step)
    ensures var t := Apply(s, step);
            Quiet(t) && TextOf(t.commits) + Owed(t.worker) == TextOf(s.commits) + Owed(s.worker) + AnsweredBy(s, step)
  {
    hide TextOf, Join, ConfirmedOf, Takes;
    match step {
      case ConfirmNext => ConfirmPays(s);
      case ReleaseTail(_, _) => ReleasePays(s);
      case HoldTail =>
        if s.worker.TailDue? && s.worker.text != "" {
          TextOfAppend(s.commits, Commit(s.step, Tail, s.worker.text));
        }
      case Decide(body, _) => assert body[0..] == body;
      case _ =>
    }
  }

  /** While nobody stops and nothing fails, the list and what is still owed are all the answers that were decided. */
  lemma {:induction false} AnswerIsCommitted(steps: seq<Step>)
    requires forall step :: step in steps ==> Undisturbed(step)
    ensures var s := Run(steps); Quiet(s) && TextOf(s.commits) + Owed(s.worker) == Answered(steps)
  {
    hide TextOf, Apply, Invariant, Owed, AnsweredBy, Undisturbed;
    if |steps| > 0 {
      var before := steps[..|steps| - 1];
      AnswerIsCommitted(before);
      RunKeeps(before);
      StepPays(Run(before), steps[|steps| - 1]);
    } else {
      NoText();
      NothingOwed();
    }
  }

  /**
   With no stop and no failure before it, the worker that is the first to save has saved exactly the
   text of every step that was decided as an answer, in order, whatever comes later.
   */
  lemma UnstoppedAnswerIsSaved(pre: seq<Step>, between: seq<Step>, post: seq<Step>)
    requires (forall step :: step in pre ==> Undisturbed(step)) && Run(pre).worker.Finishing? && KeepsLists(between, false)
    ensures var saved := Run(pre + [ReadForSaving] + between + [Persist(false)] + post).saves.saved;
            saved.Some? && TextOf(saved.value) == Answered(pre)
  {
    hide TextOf, Run, Answered;
    AnswerIsCommitted(pre);
    WorkerSaves(pre, between, post);
  }

  /** n confirmations in a row. */
  function Confirmations(n: nat): seq<Step> { if n == 0 then [] else Confirmations(n - 1) + [ConfirmNext] }

  /** Nobody stops: the body of a decided step is confirmed chunk by chunk. */
  lemma {:induction false} ConfirmedRun(body: seq<string>, n: nat)
    requires n <= |body|
    ensures var s := Run([BeginStep] + [Decide(body, None)] + Confirmations(n));
            s.worker == Confirming(body, n, None) && !Cancelled(s) && Texts(s.commits) == body[..n] && s.saves.saved.None?
  {
    hide Run, Takes, TextOf;
    var start := [BeginStep] + [Decide(body, None)];
    if n == 0 {
      StartOfRun();
      assert [] + [BeginStep] == [BeginStep] && start + Confirmations(0) == start;
      RunAppend([], BeginStep);
      RunAppend([BeginStep], Decide(body, None));
    } else {
      ConfirmedRun(body, n - 1);
      RunAppend(start + Confirmations(n - 1), ConfirmNext);
      assert start + Confirmations(n) == start + Confirmations(n - 1) + [ConfirmNext];
      assert body[..n] == body[..n - 1] + [body[n - 1]];
    }
  }

  lemma LastConfirmEnds(s: State)
    requires s.worker.Confirming? && s.worker.next == |s.worker.body| && s.worker.tail.None? && !Cancelled(s)
    ensures Apply(Apply(s, ConfirmNext), EndTurn) == s.(worker := Finishing)
  {
  }

  lemma PlainRunFinishes(body: seq<string>)
    ensures var s := Run([BeginStep] + [Decide(body, None)] + Confirmations(|body| + 1) + [EndTurn]);
            s.worker.Finishing? && Texts(s.commits) == body && s.saves.saved.None?
  {
    hide Run, Apply, Texts;
    var confirming := [BeginStep] + [Decide(body, None)] + Confirmations(|body|);
    var confirmed := [BeginStep] + [Decide(body, None)] + Confirmations(|body| + 1);
    ConfirmedRun(body, |body|);
    RunAppend(confirming, ConfirmNext);
    assert confirmed == confirming + [ConfirmNext];
    assert body[..|body|] == body;
    RunAppend(confirmed, EndTurn);
    LastConfirmEnds(Run(confirming));
  }

  /** An answer of any length that nobody stops is saved whole, chunk by chunk. */
  lemma PlainAnswerIsSaved(body: seq<string>)
    ensures var steps := [BeginStep] + [Decide(body, None)] + Confirmations(|body| + 1) + [EndTurn] + [ReadForSaving] + [Persist(false)];
            var saved := Run(steps).saves.saved;
            saved.Some? && Texts(saved.value) == body
  {
    hide Run, Apply, Texts, Confirmations;
    var ended := [BeginStep] + [Decide(body, None)] + Confirmations(|body| + 1) + [EndTurn];
    PlainRunFinishes(body);
    SavesAtOnce(ended);
  }

  /** A worker that reads and saves at once. */
  lemma SavesAtOnce(pre: seq<Step>)
    requires Run(pre).worker.Finishing? && Run(pre).saves.saved.None?
    ensures Run(pre + [ReadForSaving] + [Persist(false)]).saves.saved == Some(Run(pre).commits)
  {
    hide Run, Apply;
    WorkerSaves(pre, [], []);
    var read := pre + [ReadForSaving];
    assert read + [] == read && read + [Persist(false)] + [] == read + [Persist(false)];
  }

  /** A turn that fails while it streams saves the list with what its buffer held, unless somebody stops it. */
  lemma FailedTurnIsSaved(pre: seq<Step>, rewrite: bool)
    requires Run(pre).worker.Streaming? && !Cancelled(Run(pre)) && Run(pre).saves.saved.None?
    ensures var s := Run(pre);
            var text := Salvage(TextOf(s.commits), Join(s.pending), rewrite);
            Run(pre + [FailTurn] + [TakeForFailure(rewrite)] + [ConfirmNext] + [ReadForSaving] + [Persist(false)]).saves.saved
            == Some(if text == "" then s.commits else s.commits + [Commit(s.step, Confirmed, text)])
  {
    hide Run, TextOf, Salvage, Join;
    var failed := pre + [FailTurn];
    RunAppend(pre, FailTurn);
    RunAppend(failed, TakeForFailure(rewrite));
    RunAppend(failed + [TakeForFailure(rewrite)], ConfirmNext);
    SavesAtOnce(failed + [TakeForFailure(rewrite)] + [ConfirmNext]);
  }

  /** A step that ended in tool calls is not saved: a stop right after it takes only what was committed before. */
  lemma DiscardedStepIsNotSaved(pre: seq<Step>, rewrite: bool)
    requires Run(pre).worker.Streaming? && !Cancelled(Run(pre)) && Run(pre).saves.saved.None?
    ensures Run(pre + [Discard] + [SetFlag] + [TakeForStop(rewrite, None)] + [Persist(true)]).saves.saved == Some(Run(pre).commits)
  {
    hide Run, TextOf, Salvage;
    var flagged := pre + [Discard] + [SetFlag];
    RunAppend(pre, Discard);
    RunAppend(pre + [Discard], SetFlag);
    EmptyBufferTakesNothing(Run(flagged), rewrite);
    RunAppend(flagged, TakeForStop(rewrite, None));
    RunAppend(flagged + [TakeForStop(rewrite, None)], Persist(true));
  }
}
