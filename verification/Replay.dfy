/** Numbered events, and reading them back after a cursor. */
module Events {
  import opened Basics

  /** A generation event; `terminal` marks done, error, aborted and incomplete. */
  datatype Event = Event(id: nat, terminal: bool, body: string)

  /** Ids are exactly 1..n. */
  ghost predicate Numbered(log: seq<Event>) {
    forall i :: 0 <= i < |log| ==> log[i].id == i + 1
  }

  predicate Terminated(log: seq<Event>) {
    |log| > 0 && log[|log| - 1].terminal
  }

  /** Only the last event of a log may be terminal. */
  ghost predicate TerminalOnlyLast(log: seq<Event>) {
    forall i :: 0 <= i < |log| - 1 ==> !log[i].terminal
  }

  ghost predicate WellFormed(log: seq<Event>) {
    Numbered(log) && TerminalOnlyLast(log)
  }

  /** One attempt to publish. */
  datatype Post = Post(terminal: bool, body: string)

  /** The log of some posts: each as one event, numbered from 1, up to the first terminal one. */
  ghost predicate LogOf(log: seq<Event>, posts: seq<Post>) {
    && |log| <= |posts|
    && (forall i :: 0 <= i < |log| ==> log[i] == Event(i + 1, posts[i].terminal, posts[i].body))
    && (forall i :: 0 <= i < |log| - 1 ==> !posts[i].terminal)
    && (|log| < |posts| ==> |log| > 0 && posts[|log| - 1].terminal)
  }

  lemma OneMorePost(log: seq<Event>, posts: seq<Post>, post: Post)
    requires LogOf(log, posts)
    ensures LogOf(if Terminated(log) then log else log + [Event(|log| + 1, post.terminal, post.body)], posts + [post])
  {
  }

  function EventsAfter(log: seq<Event>, after: int): seq<Event> {
    if |log| == 0 then []
    else
      var rest := EventsAfter(log[..|log| - 1], after);
      var last := log[|log| - 1];
      if last.id <= after then rest else rest + [last]
  }

  /** In a numbered log the events after a cursor are the suffix that starts there. */
  lemma {:induction false} EventsAfterIsSuffix(log: seq<Event>, after: int)
    requires Numbered(log)
    ensures EventsAfter(log, after) == log[Min(Max(after, 0), |log|)..]
  {
    if |log| > 0 {
      EventsAfterIsSuffix(log[..|log| - 1], after);
      assert log == log[..|log| - 1] + [log[|log| - 1]];
    }
  }

  /** Read the stored list and keep what follows the cursor. */
  method ReadEvents(log: seq<Event>, after: int) returns (events: seq<Event>)
    ensures events == EventsAfter(log, after)
  {
    events := [];
    for i := 0 to |log|
      invariant events == EventsAfter(log[..i], after)
    {
      assert log[..i + 1][..i] == log[..i];
      if log[i].id > after {
        events := events + [log[i]];
      }
    }
    assert log[..|log|] == log;
  }
}

/**
 Cross-worker replay: a reader on one worker follows a generation that runs on another.

 The publisher appends to a stored list and notifies subscribers in one atomic pipeline, in id
 order; JobLog.OnePublisherKeepsOrder shows when the event callbacks do arrive in that order, and
 ArrivalYieldedIff which events a listening reader loses when they do not. The lock is released by
 the finalizer after the terminal event was stored. Every interleaving of the publisher, the release,
 later generations of the room and the reader is a list of steps.
 */
module Replay {
  import opened Basics
  import opened Events

  /** Shared store as the reader sees it. `lock` and `latest` name generations of one room. */
  datatype Store = Store(log: seq<Event>, lock: int, latest: int)

  const NOBODY: int := -1

  /** Where the reader stands in its loop. */
  datatype Phase =
    | FirstRead
    | FirstCheck
    | Subscribing
    | SecondRead
    | Listening
    | Draining
    | Finished(leftEarly: bool)  // leftEarly: returned at the first running-generation check
    | TimedOut

  datatype Reader = Reader(phase: Phase, start: nat, cursor: nat, yielded: seq<Event>, queue: seq<Event>)

  datatype System = System(own: nat, store: Store, reader: Reader)

  datatype Step =
    | Publish(terminal: bool, body: string)   // the owner stores and announces its next event
    | Release                                 // the owner's finalizer releases the lock
    | OtherAcquire(gen: nat)                  // a later generation takes the free lock
    | OtherLatest(gen: nat)                   // ... and moves the latest entry
    | OtherRollback(gen: nat, previous: int)  // ... or fails and puts the latest entry back
    | OtherRelease(gen: nat)
    | Read                                    // the reader's next action, except the two below
    | Message                                 // the reader receives a queued notification
    | IdleTimeout                             // the reader gives up waiting

  predicate Subscribed(phase: Phase) {
    phase.SecondRead? || phase.Listening? || phase.Draining?
  }

  /** The running-generation test the reader makes: latest entry and any lock. */
  predicate Active(s: System) {
    s.store.latest == s.own && s.store.lock != NOBODY
  }

  function Deliver(r: Reader, events: seq<Event>): Reader {
    if events == [] then r
    else r.(cursor := Max(r.cursor, events[|events| - 1].id), yielded := r.yielded + events)
  }

  function ReaderStep(s: System): Reader {
    var r := s.reader;
    match r.phase
    case FirstRead =>
      var events := EventsAfter(s.store.log, r.cursor);
      Deliver(r, events).(phase := if Terminated(events) then Finished(false) else FirstCheck)
    case FirstCheck => r.(phase := if Active(s) then Subscribing else Finished(true))
    case Subscribing => r.(phase := SecondRead, queue := [])
    case SecondRead =>
      var events := EventsAfter(s.store.log, r.cursor);
      Deliver(r, events).(phase := if Terminated(events) then Finished(false) else Listening)
    case Listening => if Active(s) then r else r.(phase := Draining)
    case Draining =>
      var events := EventsAfter(s.store.log, r.cursor);
      Deliver(r, events).(phase := if events == [] || Terminated(events) then Finished(false) else Listening)
    case _ => r
  }

  function MessageStep(r: Reader): Reader {
    if !r.phase.Listening? || r.queue == [] then r
    else
      var e := r.queue[0];
      var rest := r.(queue := r.queue[1..]);
      if e.id <= r.cursor then rest
      else rest.(cursor := e.id, yielded := r.yielded + [e], phase := if e.terminal then Finished(false) else Listening)
  }

  /** One atomic step; a step that is not enabled changes nothing. */
  function Apply(s: System, step: Step): System {
    var st := s.store;
    match step
    case Publish(terminal, body) =>
      if Terminated(st.log) then s
      else
        var e := Event(|st.log| + 1, terminal, body);
        s.(store := st.(log := st.log + [e]),
           reader := if Subscribed(s.reader.phase) then s.reader.(queue := s.reader.queue + [e]) else s.reader)
    case Release =>
      if Terminated(st.log) && st.lock == s.own then s.(store := st.(lock := NOBODY)) else s
    case OtherAcquire(gen) =>
      if gen != s.own && st.lock == NOBODY then s.(store := st.(lock := gen)) else s
    case OtherLatest(gen) =>
      if gen != s.own && st.lock == gen then s.(store := st.(latest := gen)) else s
    case OtherRollback(gen, previous) =>
      if gen != s.own && st.lock == gen && st.latest == gen then s.(store := st.(latest := previous)) else s
    case OtherRelease(gen) =>
      if gen != s.own && st.lock == gen then s.(store := st.(lock := NOBODY)) else s
    case Read => s.(reader := ReaderStep(s))
    case Message => s.(reader := MessageStep(s.reader))
    case IdleTimeout =>
      if s.reader.phase.Listening? && Active(s) then s.(reader := s.reader.(phase := TimedOut)) else s
  }

  function Run(s: System, steps: seq<Step>): System {
    if |steps| == 0 then s else Apply(Run(s, steps[..|steps| - 1]), steps[|steps| - 1])
  }

  /** A reader joins with a cursor while the owner runs, having stored some events already. */
  ghost predicate Initial(s: System, after: int) {
    && WellFormed(s.store.log)
    && (!Terminated(s.store.log) ==> s.store.lock == s.own && s.store.latest == s.own)
    && s.reader == Reader(FirstRead, Max(after, 0), Max(after, 0), [], [])
  }

  // ---- What every step keeps ----------------------------------------------------

  /** The reader has yielded exactly the events between its start and its cursor. */
  ghost predicate YieldedRun(log: seq<Event>, r: Reader) {
    if r.yielded == [] then r.cursor == r.start
    else r.start <= r.cursor <= |log| && r.yielded == log[r.start..r.cursor]
  }

  /** The subscription queue is the newest part of the log. */
  ghost predicate QueueIsSuffix(log: seq<Event>, r: Reader) {
    |r.queue| <= |log| && r.queue == log[|log| - |r.queue|..]
  }

  ghost predicate StoreInvariant(s: System) {
    && WellFormed(s.store.log)
    && (!Terminated(s.store.log) ==> s.store.lock == s.own && s.store.latest == s.own)
  }

  ghost predicate ReaderInvariant(s: System) {
    var log, r := s.store.log, s.reader;
    && YieldedRun(log, r)
    && (Subscribed(r.phase) ==> QueueIsSuffix(log, r))
    && (r.phase.Listening? || r.phase.Draining? ==> |log| - |r.queue| <= r.cursor)
    && (r.phase.Draining? ==> Terminated(log))
    && (r.phase == Finished(false) ==> Terminated(log) && |log| <= r.cursor)
  }

  ghost predicate Invariant(s: System) { StoreInvariant(s) && ReaderInvariant(s) }

  /** A batch read moves the cursor to the end of the log and yields everything in between. */
  lemma BatchRead(log: seq<Event>, r: Reader, events: seq<Event>)
    requires WellFormed(log) && YieldedRun(log, r) && events == EventsAfter(log, r.cursor)
    ensures YieldedRun(log, Deliver(r, events))
    ensures Deliver(r, events).cursor >= |log|
    ensures Terminated(events) ==> Terminated(log)
    ensures events != [] && Terminated(log) ==> Terminated(events)
  {
    hide EventsAfter, TerminalOnlyLast;
    EventsAfterIsSuffix(log, r.cursor);
    if events != [] {
      var at := r.cursor;
      assert at < |log| && events == log[at..];
      assert events[|events| - 1] == log[|log| - 1] && log[|log| - 1].id == |log|;
      assert r.yielded == log[r.start..at];
      assert r.yielded + events == log[r.start..|log|];
    }
  }

  /** The next queued notification is at most one ahead of the cursor, so nothing is skipped. */
  lemma MessageIsNext(log: seq<Event>, r: Reader)
    requires WellFormed(log) && YieldedRun(log, r) && QueueIsSuffix(log, r)
    requires r.phase.Listening? && |log| - |r.queue| <= r.cursor && r.queue != []
    ensures r.queue[0].id > r.cursor ==> r.cursor < |log| && r.queue[0] == log[r.cursor]
    ensures r.queue[0].terminal ==> |r.queue| == 1
  {
    assert r.queue[0] == log[|log| - |r.queue|];
  }

  lemma ReaderStepKeeps(s: System)
    requires Invariant(s)
    ensures ReaderInvariant(s.(reader := ReaderStep(s)))
  {
    hide WellFormed, EventsAfter;
    var log, r := s.store.log, s.reader;
    match r.phase {
      case FirstRead | SecondRead | Draining =>
        BatchRead(log, r, EventsAfter(log, r.cursor));
      case _ =>
    }
  }

  lemma YieldsNext(log: seq<Event>, r: Reader)
    requires YieldedRun(log, r) && r.cursor < |log|
    ensures r.start <= r.cursor ==> YieldedRun(log, r.(cursor := r.cursor + 1, yielded := r.yielded + [log[r.cursor]]))
  {
    if r.start <= r.cursor {
      assert log[r.start..r.cursor + 1] == log[r.start..r.cursor] + [log[r.cursor]];
    }
  }

  lemma QueueShrinks(log: seq<Event>, r: Reader)
    requires QueueIsSuffix(log, r) && r.queue != []
    ensures QueueIsSuffix(log, r.(queue := r.queue[1..]))
  {
    assert log[|log| - |r.queue|..][1..] == log[|log| - |r.queue| + 1..];
  }

  lemma MessageFacts(log: seq<Event>, r: Reader)
    requires WellFormed(log) && YieldedRun(log, r) && QueueIsSuffix(log, r)
    requires r.phase.Listening? && |log| - |r.queue| <= r.cursor && r.queue != []
    ensures var r' := MessageStep(r);
            && YieldedRun(log, r') && QueueIsSuffix(log, r') && |log| - |r'.queue| <= r'.cursor
            && (r'.phase.Listening? || (r'.phase == Finished(false) && Terminated(log) && |log| <= r'.cursor))
  {
    MessageIsNext(log, r);
    QueueShrinks(log, r);
    assert r.queue[0] == log[|log| - |r.queue|] && r.queue[0].id == |log| - |r.queue| + 1;
    hide WellFormed, QueueIsSuffix;
    if r.queue[0].id > r.cursor {
      YieldsNext(log, r);
    }
  }

  lemma MessageStepKeeps(s: System)
    requires Invariant(s)
    ensures ReaderInvariant(s.(reader := MessageStep(s.reader)))
  {
    hide YieldedRun, WellFormed;
    if s.reader.phase.Listening? && s.reader.queue != [] {
      MessageFacts(s.store.log, s.reader);
    }
  }

  lemma PublishKeeps(s: System, terminal: bool, body: string)
    requires Invariant(s) && !Terminated(s.store.log)
    ensures Invariant(Apply(s, Publish(terminal, body)))
  {
    var log, r := s.store.log, s.reader;
    var s' := Apply(s, Publish(terminal, body));
    var log' := s'.store.log;
    assert log' == log + [Event(|log| + 1, terminal, body)];
    if r.yielded != [] {
      assert log'[r.start..r.cursor] == log[r.start..r.cursor];
    }
    if Subscribed(r.phase) {
      assert s'.reader.queue == log'[|log'| - |s'.reader.queue|..];
    }
  }

  lemma ApplyKeeps(s: System, step: Step)
    requires Invariant(s)
    ensures Invariant(Apply(s, step))
  {
    hide ReaderStep, MessageStep;
    match step {
      case Publish(terminal, body) =>
        if !Terminated(s.store.log) {
          PublishKeeps(s, terminal, body);
        }
      case Read => ReaderStepKeeps(s);
      case Message => MessageStepKeeps(s);
      case _ =>
    }
  }

  lemma {:induction false} RunKeeps(s: System, steps: seq<Step>)
    requires Invariant(s)
    ensures Invariant(Run(s, steps))
    ensures Run(s, steps).reader.start == s.reader.start
  {
    hide Invariant;
    if |steps| > 0 {
      RunKeeps(s, steps[..|steps| - 1]);
      ApplyKeeps(Run(s, steps[..|steps| - 1]), steps[|steps| - 1]);
    }
  }

  // ---- Main results -------------------------------------------------------------

  /**
   In every interleaving the reader yields a gap-free, duplicate-free, strictly increasing run of
   the events after its cursor.
   */
  lemma ReplayIsContiguous(s: System, after: int, steps: seq<Step>)
    requires Initial(s, after)
    ensures var r := Run(s, steps).reader;
            forall i :: 0 <= i < |r.yielded| ==> r.yielded[i].id == Max(after, 0) + 1 + i
    ensures var t := Run(s, steps);
            forall i :: 0 <= i < |t.reader.yielded| ==> t.reader.yielded[i] in t.store.log
  {
    RunKeeps(s, steps);
  }

  /** What is stored before the reader joins and what is published later, in order. */
  function PostsOf(log: seq<Event>, steps: seq<Step>): seq<Post> {
    if |steps| == 0 then seq(|log|, i requires 0 <= i < |log| => Post(log[i].terminal, log[i].body))
    else
      var rest, last := PostsOf(log, steps[..|steps| - 1]), steps[|steps| - 1];
      if last.Publish? then rest + [Post(last.terminal, last.body)] else rest
  }

  /** Only publishing changes the log. */
  lemma StepLogs(t: System, step: Step)
    ensures Apply(t, step).store.log ==
            if step.Publish? && !Terminated(t.store.log) then t.store.log + [Event(|t.store.log| + 1, step.terminal, step.body)]
            else t.store.log
  {
    hide ReaderStep, MessageStep, Active;
  }

  lemma {:induction false} LogHoldsWhatWasPublished(s: System, steps: seq<Step>)
    requires Invariant(s)
    ensures LogOf(Run(s, steps).store.log, PostsOf(s.store.log, steps))
  {
    if |steps| > 0 {
      hide LogOf, Invariant, Apply;
      var before, last := steps[..|steps| - 1], steps[|steps| - 1];
      LogHoldsWhatWasPublished(s, before);
      StepLogs(Run(s, before), last);
      if last.Publish? {
        OneMorePost(Run(s, before).store.log, PostsOf(s.store.log, before), Post(last.terminal, last.body));
      }
    }
  }

  /** In every interleaving the i-th event the reader yields is the one published i places behind its cursor. */
  lemma ReplayIsPublished(s: System, after: int, steps: seq<Step>, i: nat)
    requires Initial(s, after) && i < |Run(s, steps).reader.yielded|
    ensures var posts, at := PostsOf(s.store.log, steps), Max(after, 0) + i;
            at < |posts| && Run(s, steps).reader.yielded[i] == Event(at + 1, posts[at].terminal, posts[at].body)
  {
    hide Run, PostsOf;
    RunKeeps(s, steps);
    LogHoldsWhatWasPublished(s, steps);
  }

  /**
   A reader that returned anywhere but at its first check has yielded everything after its cursor, so the terminal
   event is among it exactly when the cursor lies before the terminal event.
   */
  lemma ReplayIsComplete(s: System, after: int, steps: seq<Step>)
    requires Initial(s, after)
    requires Run(s, steps).reader.phase == Finished(false)
    ensures var t := Run(s, steps);
            && Terminated(t.store.log)
            && t.reader.yielded == t.store.log[Min(Max(after, 0), |t.store.log|)..]
            && ((exists e :: e in t.reader.yielded && e.terminal) <==> Max(after, 0) < |t.store.log|)
  {
    hide Apply;
    RunKeeps(s, steps);
    FinishedMeansComplete(Run(s, steps));
  }

  /** Every read of the stored list, the first, the second or the last one, catches up with all that is stored by then. */
  lemma ReadCatchesUp(s: System, after: int, steps: seq<Step>)
    requires Initial(s, after)
    requires var phase := Run(s, steps).reader.phase; phase.FirstRead? || phase.SecondRead? || phase.Draining?
    ensures var log := Run(s, steps).store.log;
            Run(s, steps + [Read]).reader.yielded == log[Min(Max(after, 0), |log|)..]
  {
    hide Apply;
    var t := Run(s, steps);
    RunKeeps(s, steps);
    RunAppend(s, steps, Read);
    BatchYieldsAll(t);
  }

  lemma BatchYieldsAll(t: System)
    requires Invariant(t) && (t.reader.phase.FirstRead? || t.reader.phase.SecondRead? || t.reader.phase.Draining?)
    ensures var log := t.store.log;
            Apply(t, Read).reader.yielded == log[Min(t.reader.start, |log|)..]
  {
    EventsAfterIsSuffix(t.store.log, t.reader.cursor);
    BatchAdds(t);
    RestOfRun(t.store.log, t.reader);
  }

  lemma BatchAdds(t: System)
    requires t.reader.phase.FirstRead? || t.reader.phase.SecondRead? || t.reader.phase.Draining?
    ensures Apply(t, Read).reader.yielded == t.reader.yielded + EventsAfter(t.store.log, t.reader.cursor)
  {
    hide EventsAfter;
  }

  lemma RestOfRun(log: seq<Event>, r: Reader)
    requires YieldedRun(log, r)
    ensures r.yielded + log[Min(r.cursor, |log|)..] == log[Min(r.start, |log|)..]
  {
    if r.yielded != [] {
      assert log[r.start..] == log[r.start..r.cursor] + log[r.cursor..];
    }
  }

  /**
   No reader waits for ever: once the terminal event is stored and the generation is no longer the running
   one, four more actions of the reader return, wherever it stands.
   */
  lemma ReaderReturns(s: System, after: int, steps: seq<Step>)
    requires Initial(s, after)
    requires var t := Run(s, steps); Terminated(t.store.log) && !Active(t) && !t.reader.phase.TimedOut?
    ensures Run(s, steps + [Read, Read, Read, Read]).reader.phase.Finished?
  {
    hide Apply, ReaderStep, Active;
    var t := Run(s, steps);
    RunKeeps(s, steps);
    var one := Apply(t, Read);
    var two := Apply(one, Read);
    var three := Apply(two, Read);
    ReadAdvances(t);
    ReadAdvances(one);
    ReadAdvances(two);
    ReadAdvances(three);
    RunAppend(s, steps, Read);
    RunAppend(s, steps + [Read], Read);
    RunAppend(s, steps + [Read] + [Read], Read);
    RunAppend(s, steps + [Read] + [Read] + [Read], Read);
    assert steps + [Read, Read, Read, Read] == steps + [Read] + [Read] + [Read] + [Read];
  }

  /** How many actions a reader of a finished generation still needs. */
  function Distance(phase: Phase): nat {
    match phase
    case Subscribing => 4
    case SecondRead => 3
    case FirstRead => 2
    case Listening => 2
    case FirstCheck => 1
    case Draining => 1
    case Finished(_) => 0
    case TimedOut => 0
  }

  lemma ReadAdvances(t: System)
    requires Invariant(t) && Terminated(t.store.log) && !Active(t) && !t.reader.phase.TimedOut?
    ensures var t' := Apply(t, Read);
            && Invariant(t') && Terminated(t'.store.log) && !Active(t') && !t'.reader.phase.TimedOut?
            && (t.reader.phase.Finished? ==> t'.reader.phase.Finished?)
            && (!t.reader.phase.Finished? ==> Distance(t'.reader.phase) < Distance(t.reader.phase))
            && (Distance(t'.reader.phase) == 0 ==> t'.reader.phase.Finished?)
  {
    ApplyKeeps(t, Read);
    hide Invariant;
    assert WellFormed(t.store.log);
    EventsAfterIsSuffix(t.store.log, t.reader.cursor);
  }

  lemma FinishedMeansComplete(t: System)
    requires Invariant(t) && t.reader.phase == Finished(false)
    ensures Terminated(t.store.log)
    ensures t.reader.yielded == t.store.log[Min(t.reader.start, |t.store.log|)..]
    ensures (exists e :: e in t.reader.yielded && e.terminal) <==> t.reader.start < |t.store.log|
  {
    if t.reader.start < |t.store.log| {
      assert t.reader.yielded[|t.reader.yielded| - 1] in t.reader.yielded;
    }
  }

  /**
   Reconnecting with the last id received continues the same sequence: whatever two readers of one
   log have yielded, one after the other, is again one run after the first cursor.
   */
  lemma ReconnectContinues(log: seq<Event>, first: Reader, second: Reader)
    requires WellFormed(log) && YieldedRun(log, first) && YieldedRun(log, second)
    requires first.yielded != [] && second.start == first.yielded[|first.yielded| - 1].id
    ensures YieldedRun(log, second.(start := first.start, yielded := first.yielded + second.yielded))
  {
    if second.yielded != [] {
      assert log[first.start..second.cursor] == log[first.start..first.cursor] + log[first.cursor..second.cursor];
    }
  }

  /** Up to the first check the terminal event has not been yielded; leaving there means it was stored meanwhile. */
  ghost predicate EarlyOk(s: System) {
    var r := s.reader;
    && (r.phase.FirstRead? ==> r.yielded == [])
    && (r.phase.FirstCheck? || r.phase == Finished(true) ==> !Terminated(r.yielded))
    && (r.phase == Finished(true) ==> Terminated(s.store.log))
  }

  lemma {:induction false} EarlyKeeps(s: System, after: int, steps: seq<Step>)
    requires Initial(s, after)
    ensures EarlyOk(Run(s, steps))
  {
    if |steps| > 0 {
      hide Apply, EarlyOk, ReaderInvariant;
      EarlyKeeps(s, after, steps[..|steps| - 1]);
      assert Invariant(s) by { InitialIsValid(s, after); }
      RunKeeps(s, steps[..|steps| - 1]);
      EarlyStep(Run(s, steps[..|steps| - 1]), steps[|steps| - 1]);
    }
  }

  lemma InitialIsValid(s: System, after: int)
    requires Initial(s, after)
    ensures Invariant(s)
  {
  }

  lemma EarlyStep(s: System, step: Step)
    requires StoreInvariant(s) && EarlyOk(s)
    ensures EarlyOk(Apply(s, step))
  {
    hide EventsAfter, WellFormed;
    if step.Read? && s.reader.phase.FirstRead? {
      assert s.reader.yielded + EventsAfter(s.store.log, s.reader.cursor) == EventsAfter(s.store.log, s.reader.cursor);
    }
  }

  /**
   A reader that returned leaves a terminated log behind, and has yielded everything after its
   cursor exactly when it got past its first check, or had nothing left to read. Every other early
   leaver misses the terminal event.
   */
  lemma ReturnedIsCompleteIff(s: System, after: int, steps: seq<Step>)
    requires Initial(s, after) && Run(s, steps).reader.phase.Finished?
    ensures var t, start := Run(s, steps), Max(after, 0);
            && Terminated(t.store.log)
            && (t.reader.yielded == t.store.log[Min(start, |t.store.log|)..]
                <==> t.reader.phase == Finished(false) || start >= |t.store.log|)
            && ((exists e :: e in t.reader.yielded && e.terminal)
                <==> t.reader.phase == Finished(false) && start < |t.store.log|)
  {
    hide Apply, Run;
    RunKeeps(s, steps);
    EarlyKeeps(s, after, steps);
    var t := Run(s, steps);
    if t.reader.phase == Finished(false) {
      FinishedMeansComplete(t);
    } else {
      EarlyLeaverMisses(t.store.log, t.reader);
    }
  }

  lemma EarlyLeaverMisses(log: seq<Event>, r: Reader)
    requires WellFormed(log) && Terminated(log) && YieldedRun(log, r) && !Terminated(r.yielded)
    ensures r.yielded == log[Min(r.start, |log|)..] <==> r.start >= |log|
    ensures forall e :: e in r.yielded ==> !e.terminal
  {
    if r.start < |log| {
      assert Terminated(log[r.start..]);
    }
  }

  /** Such a reader exists: a reader that leaves at the first check may have missed a whole log: completeness needs a reader that got past it. */
  lemma EarlyReaderMayMiss(own: nat)
    ensures exists s: System, steps: seq<Step> ::
              && s.own == own && Initial(s, 0)
              && Run(s, steps).reader.phase == Finished(true)
              && Run(s, steps).reader.yielded == []
              && Terminated(Run(s, steps).store.log)
  {
    var s := System(own, Store([], own, own), Reader(FirstRead, 0, 0, [], []));
    var e := Event(1, true, "");
    var a := s.(reader := s.reader.(phase := FirstCheck));
    var b := a.(store := Store([e], own, own));
    var c := b.(store := Store([e], NOBODY, own));
    assert Apply(s, Read) == a && Apply(a, Publish(true, "")) == b && Apply(b, Release) == c;
    assert Apply(c, Read) == c.(reader := s.reader.(phase := Finished(true)));
    FourSteps(s, Read, Publish(true, ""), Release, Read);
  }

  lemma FourSteps(s: System, w: Step, x: Step, y: Step, z: Step)
    ensures Run(s, [w, x, y, z]) == Apply(Apply(Apply(Apply(s, w), x), y), z)
  {
    hide Apply;
    RunAppend(s, [], w);
    RunAppend(s, [w], x);
    RunAppend(s, [w, x], y);
    RunAppend(s, [w, x, y], z);
    assert [] + [w] == [w] && [w] + [x] == [w, x] && [w, x] + [y] == [w, x, y] && [w, x, y] + [z] == [w, x, y, z];
  }

  lemma RunAppend(s: System, steps: seq<Step>, step: Step)
    ensures Run(s, steps + [step]) == Apply(Run(s, steps), step)
  {
    assert (steps + [step])[..|steps|] == steps;
  }

  // ---- Notifications out of order --------------------------------------------------

  /** A listening reader receives some notifications, one after the other. */
  function Listen(r: Reader, arrivals: seq<Event>): Reader {
    if |arrivals| == 0 then r
    else MessageStep(Listen(r, arrivals[..|arrivals| - 1]).(queue := [arrivals[|arrivals| - 1]]))
  }

  /** The terminal event has the highest id. */
  ghost predicate TerminalIsHighest(arrivals: seq<Event>) {
    forall i, j :: 0 <= i < |arrivals| && 0 <= j < |arrivals| && arrivals[j].terminal ==> arrivals[i].id <= arrivals[j].id
  }

  /** The cursor is the highest id so far; a reader that finished has seen the highest of all. */
  ghost predicate CursorIsHighest(start: nat, r: Reader, arrivals: seq<Event>, n: nat) {
    && n <= |arrivals|
    && (r.phase.Listening? || (exists j :: 0 <= j < n && arrivals[j].terminal && arrivals[j].id == r.cursor))
    && (r.cursor == start || exists j :: 0 <= j < n && arrivals[j].id == r.cursor)
    && r.cursor >= start && forall j :: 0 <= j < n ==> arrivals[j].id <= r.cursor
  }

  lemma {:induction false} ListenTracks(r: Reader, arrivals: seq<Event>, n: nat)
    requires r.phase.Listening? && n <= |arrivals| && TerminalIsHighest(arrivals)
    ensures CursorIsHighest(r.cursor, Listen(r, arrivals[..n]), arrivals, n)
  {
    if n > 0 {
      ListenTracks(r, arrivals, n - 1);
      assert arrivals[..n][..n - 1] == arrivals[..n - 1];
    }
  }

  /** An arrival is yielded exactly when it lies after the cursor and no event with as high an id arrived before it. */
  lemma ArrivalYieldedIff(r: Reader, arrivals: seq<Event>, i: nat)
    requires r.phase.Listening? && i < |arrivals| && TerminalIsHighest(arrivals)
    ensures var before, after := Listen(r, arrivals[..i]).yielded, Listen(r, arrivals[..i + 1]).yielded;
            var kept := arrivals[i].id > r.cursor && forall j :: 0 <= j < i ==> arrivals[j].id < arrivals[i].id;
            after == if kept then before + [arrivals[i]] else before
  {
    ListenTracks(r, arrivals, i);
    assert arrivals[..i + 1][..i] == arrivals[..i];
  }

  /** The second of two events overtakes the first, and the reader never yields the first. */
  lemma OvertakenEventIsLost(r: Reader, first: Event, second: Event)
    requires r.phase.Listening? && r.cursor < first.id < second.id && !first.terminal
    ensures Listen(r, [second, first]).yielded == r.yielded + [second]
    ensures first.id <= Listen(r, [second, first]).cursor
  {
    var arrivals := [second, first];
    assert arrivals[..1] == [second] && arrivals[..2] == arrivals && arrivals[..0] == [];
    ArrivalYieldedIff(r, arrivals, 0);
    ArrivalYieldedIff(r, arrivals, 1);
    ListenTracks(r, arrivals, 2);
  }
}
