/**
 The event log of one generation job: numbered events, exactly one terminal event, local replay
 after a cursor, and the two callbacks that run outside the log's lock.
 */
module JobLog {
  import opened Basics
  import opened Events

  datatype Log = Log(events: seq<Event>, nextId: nat, done: bool, finishTaken: bool)

  const EMPTY_LOG := Log([], 1, false, false)

  ghost predicate LogOk(log: Log) {
    && WellFormed(log.events)
    && log.nextId == |log.events| + 1
    && (log.done <==> Terminated(log.events))
    && (log.finishTaken <==> log.done)
  }

  /** The locked part of publishing: a finished job accepts nothing more. */
  function Appended(log: Log, terminal: bool, body: string): Log {
    if log.done then log
    else Log(log.events + [Event(log.nextId, terminal, body)], log.nextId + 1, terminal, log.finishTaken || terminal)
  }

  lemma AppendKeepsLogOk(log: Log, terminal: bool, body: string)
    requires LogOk(log)
    ensures LogOk(Appended(log, terminal, body))
    ensures log.events <= Appended(log, terminal, body).events
  {
  }

  /** A local reader: position in the log, requested cursor, what it has yielded. */
  datatype LocalReader = LocalReader(position: nat, after: int, yielded: seq<Event>, ended: bool)

  /** First position at or after p whose event lies after the cursor. */
  function SkipTo(events: seq<Event>, p: nat, after: int): (q: nat)
    requires p <= |events|
    ensures p <= q <= |events|
    ensures forall i :: p <= i < q ==> events[i].id <= after
    ensures q < |events| ==> events[q].id > after
    decreases |events| - p
  {
    if p < |events| && events[p].id <= after then SkipTo(events, p + 1, after) else p
  }

  /** One turn of the reader's loop: skip, then yield the next event, end, or keep waiting. */
  function ReaderNext(log: Log, r: LocalReader): LocalReader
    requires r.position <= |log.events|
  {
    if r.ended then r
    else
      var p := SkipTo(log.events, r.position, r.after);
      if p < |log.events| then r.(position := p + 1, yielded := r.yielded + [log.events[p]])
      else r.(position := p, ended := log.done)
  }

  class GenerationJob {
    var events: seq<Event>
    var nextSequenceId: nat
    var isDone: bool
    var onFinishedCalled: bool

    ghost function View(): Log
      reads this
    {
      Log(events, nextSequenceId, isDone, onFinishedCalled)
    }

    ghost predicate Valid()
      reads this
    {
      LogOk(View())
    }

    constructor ()
      ensures Valid() && View() == EMPTY_LOG
    {
      events, nextSequenceId, isDone, onFinishedCalled := [], 1, false, false;
    }

    /** Append under the lock; the caller then runs the event callback and, if owed, the finish callback. */
    method Append(terminal: bool, body: string) returns (published: Option<Event>, owesFinish: bool)
      requires Valid()
      modifies this
      ensures Valid()
      ensures View() == Appended(old(View()), terminal, body)
      ensures published.Some? <==> !old(isDone)
      ensures published.Some? ==> events == old(events) + [published.value]
      ensures published.Some? ==> published.value == Event(|old(events)| + 1, terminal, body)
      ensures owesFinish <==> published.Some? && terminal
      ensures owesFinish ==> !old(onFinishedCalled)
    {
      AppendKeepsLogOk(View(), terminal, body);
      if isDone {
        return None, false;
      }
      var event := Event(nextSequenceId, terminal, body);
      nextSequenceId := nextSequenceId + 1;
      events := events + [event];
      published, owesFinish := Some(event), false;
      if terminal {
        isDone := true;
        if !onFinishedCalled {
          onFinishedCalled, owesFinish := true, true;
        }
      }
    }

    method NextEvent(r: LocalReader) returns (r': LocalReader)
      requires Valid() && r.position <= |events|
      ensures r' == ReaderNext(View(), r)
    {
      if r.ended {
        return r;
      }
      var cursor := r.position;
      while cursor < |events| && events[cursor].id <= r.after
        invariant r.position <= cursor <= |events|
        invariant SkipTo(events, r.position, r.after) == SkipTo(events, cursor, r.after)
      {
        cursor := cursor + 1;
      }
      if cursor < |events| {
        return r.(position := cursor + 1, yielded := r.yielded + [events[cursor]]);
      }
      return r.(position := cursor, ended := isDone);
    }
  }

  // ---- Every interleaving of publishing threads and a reader ----------------------

  /** What happened to an appended event's callbacks. */
  datatype Stage = Awaiting | CalledBack | FinishRun

  datatype Call = EventCallback(id: nat) | FinishCallback

  /** stage[i] belongs to events[i]; calls lists the callbacks in the order they ran. */
  datatype State = State(log: Log, stage: seq<Stage>, calls: seq<Call>, reader: LocalReader)

  datatype Step =
    | Publish(terminal: bool, body: string)
    | RunEventCallback(i: nat)
    | RunFinishCallback(i: nat)
    | ReadNext

  function Apply(s: State, step: Step): State
  {
    match step
    case Publish(terminal, body) =>
      s.(log := Appended(s.log, terminal, body), stage := if s.log.done then s.stage else s.stage + [Awaiting])
    case RunEventCallback(i) =>
      if i < |s.stage| && s.stage[i].Awaiting? then
        s.(stage := s.stage[i := CalledBack], calls := s.calls + [EventCallback(i + 1)])
      else s
    case RunFinishCallback(i) =>
      if i < |s.stage| && i < |s.log.events| && s.stage[i].CalledBack? && s.log.events[i].terminal then
        s.(stage := s.stage[i := FinishRun], calls := s.calls + [FinishCallback])
      else s
    case ReadNext =>
      if s.reader.position <= |s.log.events| then s.(reader := ReaderNext(s.log, s.reader)) else s
  }

  function Run(s: State, steps: seq<Step>): State {
    if |steps| == 0 then s else Apply(Run(s, steps[..|steps| - 1]), steps[|steps| - 1])
  }

  function Fresh(after: int): State { State(EMPTY_LOG, [], [], LocalReader(0, after, [], false)) }

  /** An event's callback has run exactly when its stage says so. */
  ghost predicate CallsMatch(stage: seq<Stage>, calls: seq<Call>) {
    forall i :: 0 <= i < |stage| ==> (EventCallback(i + 1) in calls <==> !stage[i].Awaiting?)
  }

  ghost predicate KnownIds(calls: seq<Call>, n: nat) {
    forall c :: c in calls && c.EventCallback? ==> 1 <= c.id <= n
  }

  ghost predicate NoRepeat(calls: seq<Call>) {
    forall p, q :: 0 <= p < q < |calls| ==> calls[p] != calls[q]
  }

  /** The finish callback runs after the callback of event n. */
  ghost predicate FinishAfter(calls: seq<Call>, n: nat) {
    forall q :: 0 <= q < |calls| && calls[q].FinishCallback? ==> EventCallback(n) in calls[..q]
  }

  ghost predicate FinishOk(s: State) {
    && |s.stage| == |s.log.events|
    && (forall i :: 0 <= i < |s.stage| ==> (s.stage[i].FinishRun? ==> s.log.events[i].terminal))
    && (FinishCallback in s.calls <==> |s.stage| > 0 && s.stage[|s.stage| - 1].FinishRun?)
    && (FinishCallback in s.calls ==> FinishAfter(s.calls, |s.stage|))
  }

  ghost predicate CallsOk(s: State) {
    CallsMatch(s.stage, s.calls) && KnownIds(s.calls, |s.stage|) && NoRepeat(s.calls) && FinishOk(s)
  }

  lemma NoRepeatAppend(calls: seq<Call>, c: Call)
    requires NoRepeat(calls) && c !in calls
    ensures NoRepeat(calls + [c])
  {
  }

  lemma FinishAfterAppend(calls: seq<Call>, c: Call, n: nat)
    requires FinishAfter(calls, n) && (c.FinishCallback? ==> EventCallback(n) in calls)
    ensures FinishAfter(calls + [c], n)
  {
    var more := calls + [c];
    forall q | 0 <= q < |more| && more[q].FinishCallback? ensures EventCallback(n) in more[..q] {
      assert more[..q] == calls[..q];
    }
  }

  lemma NoFinishYet(calls: seq<Call>, n: nat)
    requires FinishCallback !in calls
    ensures FinishAfter(calls, n)
  {
    assert forall q :: 0 <= q < |calls| ==> calls[q] in calls;
  }

  /** The reader has yielded exactly the events after its cursor up to its position. */
  ghost predicate ReaderOk(log: Log, r: LocalReader) {
    && r.position <= |log.events|
    && r.yielded == log.events[Min(Max(r.after, 0), r.position)..r.position]
    && (r.ended ==> log.done && r.position == |log.events|)
  }

  ghost predicate Invariant(s: State) { LogOk(s.log) && CallsOk(s) && ReaderOk(s.log, s.reader) }

  lemma PublishKeeps(s: State, terminal: bool, body: string)
    requires Invariant(s)
    ensures Invariant(Apply(s, Publish(terminal, body)))
  {
    AppendKeepsLogOk(s.log, terminal, body);
    var e, e' := s.log.events, Appended(s.log, terminal, body).events;
    var r := s.reader;
    assert e'[..|e|] == e;
    assert e'[Min(Max(r.after, 0), r.position)..r.position] == e[Min(Max(r.after, 0), r.position)..r.position];
  }

  lemma CallbackKeeps(s: State, i: nat)
    requires Invariant(s)
    ensures Invariant(Apply(s, RunEventCallback(i)))
  {
    hide LogOk, ReaderOk, NoRepeat, FinishAfter;
    if i < |s.stage| && s.stage[i].Awaiting? {
      NoRepeatAppend(s.calls, EventCallback(i + 1));
      if FinishCallback in s.calls {
        FinishAfterAppend(s.calls, EventCallback(i + 1), |s.stage|);
      }
    }
  }

  lemma FinishKeeps(s: State, i: nat)
    requires Invariant(s)
    ensures Invariant(Apply(s, RunFinishCallback(i)))
  {
    hide ReaderOk, NoRepeat, FinishAfter;
    if i < |s.stage| && s.stage[i].CalledBack? && s.log.events[i].terminal {
      assert i == |s.stage| - 1 by { assert TerminalOnlyLast(s.log.events); }
      assert FinishCallback !in s.calls;
      assert EventCallback(|s.stage|) in s.calls;
      NoRepeatAppend(s.calls, FinishCallback);
      NoFinishYet(s.calls, |s.stage|);
      FinishAfterAppend(s.calls, FinishCallback, |s.stage|);
      hide LogOk;
    }
  }

  lemma ReaderNextKeeps(log: Log, r: LocalReader)
    requires Numbered(log.events) && ReaderOk(log, r)
    ensures ReaderOk(log, ReaderNext(log, r))
  {
    hide SkipTo;
    var events, start := log.events, Max(r.after, 0);
    if !r.ended {
      var p := SkipTo(events, r.position, r.after);
      if p < |events| {
        SkipsToStart(events, r.position, r.after);
        if start <= r.position {
          assert events[start..p + 1] == events[start..p] + [events[p]];
        } else {
          assert p == start && r.yielded == [] && events[p..p + 1] == [events[p]];
        }
      } else {
        assert r.position < p ==> events[p - 1].id == p <= start;
        assert events[Min(start, p)..p] == r.yielded;
      }
    }
  }

  lemma SkipsToStart(events: seq<Event>, position: nat, after: int)
    requires Numbered(events) && position <= |events|
    requires SkipTo(events, position, after) < |events|
    ensures SkipTo(events, position, after) == Max(position, after)
  {
    var p := SkipTo(events, position, after);
    assert events[p].id == p + 1;
    if position < p {
      assert events[p - 1].id == p;
    }
  }

  lemma ReadKeeps(s: State)
    requires Invariant(s)
    ensures Invariant(Apply(s, ReadNext))
  {
    hide ReaderNext;
    ReaderNextKeeps(s.log, s.reader);
  }

  lemma {:induction false} RunKeeps(after: int, steps: seq<Step>)
    ensures Invariant(Run(Fresh(after), steps))
    ensures Run(Fresh(after), steps).reader.after == after
  {
    hide Invariant;
    if |steps| == 0 {
      FreshIsValid(after);
    } else {
      var s, step := Run(Fresh(after), steps[..|steps| - 1]), steps[|steps| - 1];
      RunKeeps(after, steps[..|steps| - 1]);
      match step {
        case Publish(terminal, body) => PublishKeeps(s, terminal, body);
        case RunEventCallback(i) => CallbackKeeps(s, i);
        case RunFinishCallback(i) => FinishKeeps(s, i);
        case ReadNext => ReadKeeps(s);
      }
    }
  }

  lemma FreshIsValid(after: int)
    ensures Invariant(Fresh(after))
  {
  }

  // ---- Main results ---------------------------------------------------------------

  /** In every interleaving ids are 1..n and a terminal event, if any, is the last one. */
  lemma LogIsAlwaysWellFormed(after: int, steps: seq<Step>)
    ensures var log := Run(Fresh(after), steps).log;
            WellFormed(log.events) && (log.done <==> Terminated(log.events))
  {
    RunKeeps(after, steps);
  }

  /** Nothing follows the terminal event. */
  lemma {:induction false} NothingFollowsTerminal(s: State, steps: seq<Step>)
    requires s.log.done
    ensures Run(s, steps).log == s.log
  {
    if |steps| > 0 {
      NothingFollowsTerminal(s, steps[..|steps| - 1]);
    }
  }

  /**
   The worker always closes with an attempt to publish a terminal event. Whatever ran before it and
   whatever other threads still do afterwards, the log then ends in exactly one terminal event.
   */
  lemma ClosedRunHasOneTerminal(after: int, before: seq<Step>, body: string, later: seq<Step>)
    ensures var closed := Run(Fresh(after), before + [Publish(true, body)]);
            var events := Run(closed, later).log.events;
            && events == closed.log.events
            && Terminated(events)
            && forall i :: 0 <= i < |events| && events[i].terminal ==> i == |events| - 1
  {
    var steps := before + [Publish(true, body)];
    assert steps[..|before|] == before;
    RunKeeps(after, before);
    RunKeeps(after, steps);
    NothingFollowsTerminal(Run(Fresh(after), steps), later);
  }

  /** Everything the threads tried to publish, in the order of the lock. */
  function PostsOf(steps: seq<Step>): seq<Post> {
    if |steps| == 0 then []
    else
      var rest, last := PostsOf(steps[..|steps| - 1]), steps[|steps| - 1];
      if last.Publish? then rest + [Post(last.terminal, last.body)] else rest
  }

  /** In every interleaving the log holds what was published, in order, up to the first terminal event. */
  lemma {:induction false} LogHoldsWhatWasPublished(after: int, steps: seq<Step>)
    ensures LogOf(Run(Fresh(after), steps).log.events, PostsOf(steps))
  {
    if |steps| > 0 {
      hide LogOf, CallsOk, ReaderOk, ReaderNext;
      var before, last := steps[..|steps| - 1], steps[|steps| - 1];
      LogHoldsWhatWasPublished(after, before);
      RunKeeps(after, before);
      if last.Publish? {
        OneMorePost(Run(Fresh(after), before).log.events, PostsOf(before), Post(last.terminal, last.body));
      }
    }
  }

  /** The i-th event a reader yields is the one published i places behind its cursor. */
  lemma LocalReplayIsPublished(after: int, steps: seq<Step>, i: nat)
    requires i < |Run(Fresh(after), steps).reader.yielded|
    ensures var at := Max(after, 0) + i;
            && at < |PostsOf(steps)|
            && Run(Fresh(after), steps).reader.yielded[i] == Event(at + 1, PostsOf(steps)[at].terminal, PostsOf(steps)[at].body)
  {
    hide Run, PostsOf, CallsOk, LogOk;
    RunKeeps(after, steps);
    LogHoldsWhatWasPublished(after, steps);
  }

  /** Each event is handed to the event callback at most once; the finish callback runs at most once, after the terminal event's. */
  lemma CallbacksRunOnceInOrder(after: int, steps: seq<Step>, p: nat, q: nat)
    requires p < |Run(Fresh(after), steps).calls| && q < |Run(Fresh(after), steps).calls|
    ensures var s := Run(Fresh(after), steps); s.calls[p] == s.calls[q] ==> p == q
    ensures var s := Run(Fresh(after), steps);
            s.calls[q].FinishCallback? ==> EventCallback(|s.log.events|) in s.calls[..q] && Terminated(s.log.events)
  {
    hide Run, Fresh, ReaderOk, LogOk, CallsMatch;
    RunKeeps(after, steps);
  }

  /** A reader yields exactly the suffix after its cursor; when it ends, all of it. */
  lemma LocalReplayIsSuffix(after: int, steps: seq<Step>)
    ensures var s := Run(Fresh(after), steps); s.reader.yielded <= EventsAfter(s.log.events, after)
    ensures var s := Run(Fresh(after), steps);
            s.reader.ended ==> s.log.done && s.reader.yielded == EventsAfter(s.log.events, after)
  {
    RunKeeps(after, steps);
    var s := Run(Fresh(after), steps);
    EventsAfterIsSuffix(s.log.events, after);
    var start := Min(Max(after, 0), s.reader.position);
    assert s.log.events[start..s.reader.position] <= s.log.events[start..];
  }

  lemma RunAppend(s: State, steps: seq<Step>, step: Step)
    ensures Run(s, steps + [step]) == Apply(Run(s, steps), step)
  {
    assert (steps + [step])[..|steps|] == steps;
  }

  function Reads(n: nat): seq<Step> { if n == 0 then [] else Reads(n - 1) + [ReadNext] }

  /** A reader of a finished job gets through it: each turn of its loop yields one event more, and then it ends. */
  lemma {:induction false} ReaderEnds(after: int, steps: seq<Step>, n: nat)
    requires Run(Fresh(after), steps).log.done
    ensures var s, t := Run(Fresh(after), steps), Run(Fresh(after), steps + Reads(n));
            && t.log == s.log && t.reader.position <= |t.log.events|
            && (t.reader.ended || t.reader.position >= s.reader.position + n)
    ensures n > |Run(Fresh(after), steps).log.events| ==> Run(Fresh(after), steps + Reads(n)).reader.ended
  {
    hide Run, Fresh, ReaderOk, CallsOk, LogOk;
    if n == 0 {
      assert steps + Reads(0) == steps;
      RunKeeps(after, steps);
      ReaderIsInside(Run(Fresh(after), steps));
    } else {
      ReaderEnds(after, steps, n - 1);
      assert steps + Reads(n) == steps + Reads(n - 1) + [ReadNext];
      RunAppend(Fresh(after), steps + Reads(n - 1), ReadNext);
    }
  }

  lemma ReaderIsInside(s: State)
    requires Invariant(s)
    ensures s.reader.position <= |s.log.events|
  {
  }

  /** Once the terminal event is in the log, running its two callbacks has run the finish callback. */
  lemma FinishCallbackRuns(after: int, steps: seq<Step>)
    requires Run(Fresh(after), steps).log.done
    ensures var n := |Run(Fresh(after), steps).log.events|;
            n > 0 && FinishCallback in Run(Fresh(after), steps + [RunEventCallback(n - 1)] + [RunFinishCallback(n - 1)]).calls
  {
    hide Run, Fresh, ReaderOk;
    RunKeeps(after, steps);
    var s := Run(Fresh(after), steps);
    var n := |s.log.events|;
    RunAppend(Fresh(after), steps, RunEventCallback(n - 1));
    RunAppend(Fresh(after), steps + [RunEventCallback(n - 1)], RunFinishCallback(n - 1));
  }

  /** Disconnecting after the event with id `cut` and reconnecting there reproduces the same sequence. */
  lemma ReconnectReproduces(log: seq<Event>, after: nat, cut: nat)
    requires Numbered(log) && after <= cut <= |log|
    ensures EventsAfter(log, after) == EventsAfter(log[..cut], after) + EventsAfter(log, cut)
  {
    hide EventsAfter;
    EventsAfterIsSuffix(log, after);
    EventsAfterIsSuffix(log[..cut], after);
    EventsAfterIsSuffix(log, cut);
    assert log[after..] == log[..cut][after..] + log[cut..];
  }

  /** Callbacks run outside the lock, so two threads can hand their events over in the wrong order. */
  lemma CallbacksMayOvertake()
    ensures exists steps: seq<Step> :: Run(Fresh(0), steps).calls == [EventCallback(2), EventCallback(1)]
  {
    var a, b := Publish(false, "a"), Publish(false, "b");
    var steps := [a, b, RunEventCallback(1), RunEventCallback(0)];
    assert steps[..3][..2][..1][..0] == [] && steps[..3][..2][..1] == [a];
    assert steps[..3][..2] == [a, b] && steps[..3] == [a, b, RunEventCallback(1)];
    var s1 := Apply(Fresh(0), a);
    var s2 := Apply(s1, b);
    var s3 := Apply(s2, RunEventCallback(1));
    assert Run(Fresh(0), [a]) == s1;
    assert Run(Fresh(0), [a, b]) == s2;
    assert s2.stage == [Awaiting, Awaiting];
    assert Run(Fresh(0), steps[..3]) == s3;
    assert Run(Fresh(0), steps).calls == [EventCallback(2), EventCallback(1)];
  }

  /** Every event is published only after the callbacks of all earlier ones have run, as by a single thread. */
  predicate OnePublisher(after: int, steps: seq<Step>) {
    |steps| == 0 ||
    var before := steps[..|steps| - 1];
    var s := Run(Fresh(after), before);
    && OnePublisher(after, before)
    && (steps[|steps| - 1].Publish? && !s.log.done ==> Awaiting !in s.stage)
  }

  /** The ids handed to the event callback, in the order it ran. */
  function HandedOver(calls: seq<Call>): seq<nat> {
    if |calls| == 0 then []
    else
      var rest, last := HandedOver(calls[..|calls| - 1]), calls[|calls| - 1];
      if last.EventCallback? then rest + [last.id] else rest
  }

  lemma HandedOverAppend(calls: seq<Call>, c: Call)
    ensures HandedOver(calls + [c]) == HandedOver(calls) + (if c.EventCallback? then [c.id] else [])
  {
    assert (calls + [c])[..|calls|] == calls;
  }

  /** All events but possibly the newest have been handed over, in order. */
  ghost predicate InOrder(s: State) {
    && |s.stage| == |s.log.events|
    && (forall i :: 0 <= i < |s.stage| - 1 ==> !s.stage[i].Awaiting?)
    && |HandedOver(s.calls)| == |s.stage| - (if |s.stage| > 0 && s.stage[|s.stage| - 1].Awaiting? then 1 else 0)
    && forall i :: 0 <= i < |HandedOver(s.calls)| ==> HandedOver(s.calls)[i] == i + 1
  }

  lemma StepKeepsOrder(s: State, step: Step)
    requires InOrder(s) && (step.Publish? && !s.log.done ==> Awaiting !in s.stage)
    ensures InOrder(Apply(s, step))
  {
    hide HandedOver;
    match step {
      case RunEventCallback(i) => HandedOverAppend(s.calls, EventCallback(i + 1));
      case RunFinishCallback(i) => HandedOverAppend(s.calls, FinishCallback);
      case _ =>
    }
  }

  /** With one publishing thread the callbacks run as 1, 2, ..., k, with at most the newest event still to come. */
  lemma {:induction false} OnePublisherKeepsOrder(after: int, steps: seq<Step>)
    requires OnePublisher(after, steps)
    ensures InOrder(Run(Fresh(after), steps))
  {
    if |steps| > 0 {
      hide Apply, InOrder;
      var before := steps[..|steps| - 1];
      OnePublisherKeepsOrder(after, before);
      StepKeepsOrder(Run(Fresh(after), before), steps[|steps| - 1]);
    }
  }

  // ---- The exits of a worker run -----------------------------------------------------

  /** Where the worker is in its run; an error or a stop leads to the closing from anywhere. */
  datatype Place = Preparing | Looping | Finishing | Failing | Closing | LastPublish | Ended

  /** What the worker does next. */
  datatype Action =
    | Emit(body: string)      // publish progress or text
    | Proceed                 // the phase ends normally
    | SeeStop                 // a stop request is seen
    | Fail                    // the phase raises
    | Finish(body: string)    // publish the terminal event of the phase
    | Close                   // the safety net looks whether the job is done

  datatype Job = Job(state: State, place: Place)

  datatype Move = Work(action: Action) | Other(step: Step)

  const NET_BODY := "closed by the safety net"

  /** Where an action leads. */
  function NextPlace(j: Job, action: Action): Place {
    match j.place
    case Preparing =>
      (match action case Proceed => Looping case SeeStop => Closing case Fail => Closing case _ => Preparing)
    case Looping =>
      (match action case Proceed => Finishing case SeeStop => Closing case Fail => Failing case _ => Looping)
    case Finishing =>
      (match action case Emit(_) => Finishing case Close => Finishing case Fail => Failing case _ => Closing)
    case Failing =>
      (match action case Emit(_) => Failing case Close => Failing case _ => Closing)
    case Closing => if j.state.log.done then Ended else LastPublish
    case LastPublish => Ended
    case Ended => Ended
  }

  /** What an action publishes. */
  function Publishes(place: Place, action: Action): Option<Step> {
    match place
    case Looping => if action.Emit? then Some(Publish(false, action.body)) else None
    case Finishing | Failing =>
      if action.Emit? then Some(Publish(false, action.body))
      else if action.Finish? then Some(Publish(true, action.body))
      else None
    case LastPublish => Some(Publish(true, NET_BODY))
    case _ => None
  }

  function MoveStep(place: Place, move: Move): Option<Step> {
    match move
    case Work(action) => Publishes(place, action)
    case Other(step) => Some(step)
  }

  function Advance(j: Job, move: Move): Job {
    var step := MoveStep(j.place, move);
    Job(if step.Some? then Apply(j.state, step.value) else j.state,
        if move.Work? then NextPlace(j, move.action) else j.place)
  }

  /** The worker's run interleaved with everything other threads do to the log. */
  function RunJob(after: int, moves: seq<Move>): Job {
    if |moves| == 0 then Job(Fresh(after), Preparing)
    else Advance(RunJob(after, moves[..|moves| - 1]), moves[|moves| - 1])
  }

  lemma AdvanceCloses(j: Job, move: Move)
    requires j.place.Ended? ==> j.state.log.done
    ensures Advance(j, move).place.Ended? ==> Advance(j, move).state.log.done
  {
    var step := MoveStep(j.place, move);
    if step.Some? {
      DoneStays(j.state, step.value);
    }
  }

  /** The log of a run is one that its publishing steps produce, whoever took them; an ended run is done. */
  lemma {:induction false} JobIsLogRun(after: int, moves: seq<Move>) returns (steps: seq<Step>)
    ensures RunJob(after, moves).state == Run(Fresh(after), steps)
    ensures RunJob(after, moves).place.Ended? ==> RunJob(after, moves).state.log.done
  {
    hide Apply, MoveStep, NextPlace;
    if |moves| == 0 {
      return [];
    }
    var before, move := moves[..|moves| - 1], moves[|moves| - 1];
    var j := RunJob(after, before);
    steps := JobIsLogRun(after, before);
    AdvanceCloses(j, move);
    var step := MoveStep(j.place, move);
    if step.Some? {
      assert (steps + [step.value])[..|steps|] == steps;
      steps := steps + [step.value];
    }
  }

  lemma DoneStays(s: State, step: Step)
    ensures s.log.done ==> Apply(s, step).log.done
    ensures step.Publish? && step.terminal ==> Apply(s, step).log.done
  {
  }

  /** However a worker run ends and whatever other threads do, the log of an ended run has exactly one terminal event, the last. */
  lemma EveryRunIsClosed(after: int, moves: seq<Move>)
    ensures var j := RunJob(after, moves);
            var events := j.state.log.events;
            && WellFormed(events)
            && (j.place.Ended? ==> Terminated(events) && forall i :: 0 <= i < |events| && events[i].terminal ==> i == |events| - 1)
  {
    var steps := JobIsLogRun(after, moves);
    RunKeeps(after, steps);
  }

  lemma AdvanceKeepsDoneLog(j: Job, move: Move)
    ensures j.state.log.done ==> Advance(j, move).state.log == j.state.log
  {
    hide NextPlace, ReaderNext;
  }

  lemma {:induction false} DoneLogIsFinal(after: int, pre: seq<Move>, post: seq<Move>)
    requires RunJob(after, pre).state.log.done
    ensures RunJob(after, pre + post).state.log == RunJob(after, pre).state.log
  {
    if |post| == 0 {
      assert pre + post == pre;
    } else {
      hide Advance;
      DoneLogIsFinal(after, pre, post[..|post| - 1]);
      AdvanceKeepsDoneLog(RunJob(after, pre + post[..|post| - 1]), post[|post| - 1]);
      assert (pre + post)[..|pre| + |post| - 1] == pre + post[..|post| - 1];
    }
  }

  /**
   A stop sets its flag before it publishes its own terminal event, so the worker can see the stop,
   find the job open and close it. The run then ends with the safety net's error exactly when no
   other terminal event was published before that, and the stop's own event is dropped.
   */
  lemma NetDecidesIff(after: int, pre: seq<Move>, post: seq<Move>)
    requires RunJob(after, pre).place.LastPublish?
    ensures var log, events := RunJob(after, pre).state.log, RunJob(after, pre + [Work(Close)] + post).state.log.events;
            events == if log.done then log.events else log.events + [Event(log.nextId, true, NET_BODY)]
  {
    var closed := pre + [Work(Close)];
    assert closed[..|pre|] == pre;
    DoneStays(RunJob(after, pre).state, Publish(true, NET_BODY));
    DoneLogIsFinal(after, closed, post);
  }

  /** A stop that ends as an error: the worker sees its flag and closes the job before the stop's event arrives. */
  lemma StopMayEndAsError()
    ensures RunJob(0, [Work(SeeStop), Work(Close), Work(Close), Other(Publish(true, "aborted"))]).state.log.events == [Event(1, true, NET_BODY)]
  {
    var pre := [Work(SeeStop), Work(Close)];
    assert pre[..1] == [Work(SeeStop)] && pre[..1][..0] == [];
    assert RunJob(0, [Work(SeeStop)]) == Job(Fresh(0), Closing);
    var post := [Other(Publish(true, "aborted"))];
    assert pre + [Work(Close)] + post == [Work(SeeStop), Work(Close), Work(Close), Other(Publish(true, "aborted"))];
    NetDecidesIff(0, pre, post);
  }
}
