/**
 Streaming an answer to the end and continuing it when the provider cuts it off.

 The provider is an arbitrary script: how each pass is split into chunks, how it ends and
 when a stop is requested are all unconstrained. `TextAfter` is the batch specification of
 the answer; `AnswerStream` is the chunk-by-chunk algorithm, proved to refine it.
 */
module AnswerRecovery {
  import opened Basics
  import opened ContinuationText

  /** How a pass ended; the error classes the recovery loop tells apart. */
  datatype Ending = Finished | RateLimited | InputLimited | OutputLimited | ProviderFailed | ServiceFailed | Crashed

  /** One chunk together with what the stop check answered when it arrived. */
  datatype Delivery = Delivery(chunk: string, stopRequested: bool)

  /** One provider pass; `stopRequested` is the stop check made after a recoverable error. */
  datatype Pass = Pass(deliveries: seq<Delivery>, ending: Ending, stopRequested: bool)

  datatype Failure = Cause(ending: Ending) | Stalled

  datatype Outcome = Returned(error: Option<Failure>) | Raised(failure: Failure)

  // ---- Batch specification ----------------------------------------------------

  function TextOf(deliveries: seq<Delivery>): string {
    if |deliveries| == 0 then ""
    else TextOf(deliveries[..|deliveries| - 1]) + deliveries[|deliveries| - 1].chunk
  }

  /** Number of chunks accepted before the first stop. */
  function Accepted(deliveries: seq<Delivery>): (n: nat)
    ensures n <= |deliveries|
    ensures forall i :: 0 <= i < n ==> !deliveries[i].stopRequested
    ensures n < |deliveries| ==> deliveries[n].stopRequested
  {
    if |deliveries| == 0 || deliveries[0].stopRequested then 0
    else 1 + Accepted(deliveries[1..])
  }

  predicate StoppedDuring(pass: Pass) { Accepted(pass.deliveries) < |pass.deliveries| }

  function Received(pass: Pass): string { TextOf(pass.deliveries[..Accepted(pass.deliveries)]) }

  predicate Recoverable(ending: Ending) { ending.OutputLimited? || ending.ProviderFailed? }

  function Grown(existing: string, received: string, continuing: bool): string {
    existing + if continuing then Contribution(existing, received) else received
  }

  /** The answer after n whole passes; every pass but an un-adopted first one is a continuation. */
  function TextAfter(start: string, adopted: bool, provider: nat -> Pass, n: nat): string {
    if n == 0 then start
    else Grown(TextAfter(start, adopted, provider, n - 1), Received(provider(n - 1)), adopted || n > 1)
  }

  ghost predicate Grew(start: string, adopted: bool, provider: nat -> Pass, i: nat) {
    |TextAfter(start, adopted, provider, i)| < |TextAfter(start, adopted, provider, i + 1)|
  }

  lemma GrownExtends(existing: string, received: string, continuing: bool)
    ensures existing <= Grown(existing, received, continuing)
  {
  }

  /** Published text is only ever extended. */
  lemma {:induction false} TextOnlyExtends(start: string, adopted: bool, provider: nat -> Pass, m: nat, n: nat)
    requires m <= n
    ensures TextAfter(start, adopted, provider, m) <= TextAfter(start, adopted, provider, n)
    decreases n - m
  {
    hide Grown;
    if m < n {
      GrownExtends(TextAfter(start, adopted, provider, n - 1), Received(provider(n - 1)), adopted || n > 1);
      TextOnlyExtends(start, adopted, provider, m, n - 1);
    }
  }

  /** Once the window is full and no rewrite was seen, later text is added as it comes. */
  lemma ContributionExtends(existing: string, head: string, tail: string)
    requires |head| >= OVERLAP_CHARS && !LooksRestarted(existing, head)
    ensures !LooksRestarted(existing, head + tail)
    ensures Contribution(existing, head + tail) == Contribution(existing, head) + tail
  {
    hide Stripped;
    RestartDecidedByPrefix(existing, head, tail);
    StrippedExtends(existing, head, tail);
  }

  /** What the loop answers for the last pass it ran to its end. */
  function Verdict(ending: Ending, continuing: bool, grew: bool, empty: bool): Outcome {
    match ending
    case Finished => Returned(if continuing && !grew then Some(Stalled) else None)
    case OutputLimited => Returned(Some(if continuing && !grew then Stalled else Cause(ending)))
    case ProviderFailed => Returned(Some(if continuing && !grew then Stalled else Cause(ending)))
    case Crashed => Raised(Cause(ending))
    case _ => if empty then Raised(Cause(ending)) else Returned(Some(Cause(ending)))
  }

  // ---- The streaming algorithm ------------------------------------------------

  /** The answer being streamed and the buffer of the current continuation pass. */
  class AnswerStream {
    var raw: seq<string>
    var buffer: seq<string>
    var bufferedChars: nat
    var headFlushed: bool
    var fullBufferMode: bool
    /** The job's copy of fullBufferMode, read by the stop path. */
    var rewriteFlag: bool
    var continuing: bool
    var restartTrimmed: bool
    ghost var base: string
    ghost var received: string
    ghost var closed: bool

    ghost predicate Valid()
      reads this
    {
      && (raw == [] <==> Join(raw) == "")
      && bufferedChars == |Join(buffer)|
      && (headFlushed || !continuing ==> buffer == [])
      && (if continuing && !headFlushed then
            && Join(raw) == base && Join(buffer) == received
            && (fullBufferMode <==> LooksRestarted(base, received))
            && (rewriteFlag ==> fullBufferMode)
          else Join(raw) == Grown(base, received, continuing))
      && (continuing && headFlushed && !closed ==> |received| >= OVERLAP_CHARS && !LooksRestarted(base, received))
    }

    constructor (published: string)
      ensures Valid() && Join(raw) == published && buffer == [] && !continuing && !rewriteFlag
    {
      raw := if published == "" then [] else [published];
      buffer, bufferedChars := [], 0;
      headFlushed, fullBufferMode, rewriteFlag, continuing, restartTrimmed := false, false, false, false, false;
      base, received, closed := published, "", false;
      new;
      if published != "" {
        JoinAppend([], published);
      }
    }

    /** What would be saved if the job were stopped now. */
    ghost function SavedOnStop(): string
      reads this
    {
      Join(raw) + Salvage(Join(raw), Join(buffer), rewriteFlag)
    }

    method PublishText(text: string)
      requires raw == [] <==> Join(raw) == ""
      modifies this`raw
      ensures raw == [] <==> Join(raw) == ""
      ensures Join(raw) == old(Join(raw)) + text
    {
      if text != "" {
        JoinAppend(raw, text);
        raw := raw + [text];
      }
    }

    method BeginPass(isContinuation: bool)
      requires Valid()
      modifies this
      ensures Valid() && !closed && received == "" && base == old(Join(raw)) && raw == old(raw)
      ensures continuing == isContinuation && buffer == []
    {
      hide Contribution;
      buffer, bufferedChars, headFlushed, fullBufferMode := [], 0, false, false;
      continuing := isContinuation;
      if isContinuation {
        rewriteFlag := false;
      }
      base, received, closed := Join(raw), "", false;
    }

    /** Publish the buffered opening, or the spliced rewrite, exactly once. */
    method FlushPass()
      requires Valid()
      modifies this
      ensures Valid() && closed && buffer == []
      ensures base == old(base) && received == old(received) && continuing == old(continuing)
      ensures Join(raw) == Grown(base, received, continuing)
      ensures raw == [] <==> Join(raw) == ""
    {
      hide LooksRestarted, Stripped, Spliced;
      closed := true;
      if headFlushed {
        return;
      }
      if !continuing {
        return;
      }
      headFlushed := true;
      var segment := Join(buffer);
      var existing := Join(raw);
      buffer, bufferedChars := [], 0;
      if segment == "" {
        NothingFollowsNothing(base);
        return;
      }
      if fullBufferMode {
        restartTrimmed := true;
        var spliced := SpliceRestartedAnswer(existing, segment);
        if spliced.Some? {
          PublishText(spliced.value);
        }
      } else {
        var rest := StripContinuationOverlap(existing, segment);
        PublishText(rest);
      }
    }

    method Deliver(chunk: string)
      requires Valid() && !closed
      modifies this
      ensures Valid() && !closed
      ensures base == old(base) && received == old(received) + chunk && continuing == old(continuing)
    {
      hide Contribution, LooksRestarted, Join;
      if chunk == "" {
        assert received + chunk == received;
        return;
      }
      if !continuing || headFlushed {
        if continuing {
          ContributionExtends(base, received, chunk);
        }
        PublishText(chunk);
        received := received + chunk;
        return;
      }
      JoinAppend(buffer, chunk);
      if fullBufferMode {
        RestartPersists(base, received, chunk);
      }
      buffer := buffer + [chunk];
      bufferedChars := bufferedChars + |chunk|;
      received := received + chunk;
      if !fullBufferMode && LooksRestarted(Join(raw), Join(buffer)) {
        fullBufferMode, rewriteFlag := true, true;
      }
      if !fullBufferMode && bufferedChars >= OVERLAP_CHARS {
        FlushPass();
        closed := false;
      }
    }

    /** Stream one pass, returning whether a stop cut it short. */
    method StreamPass(pass: Pass) returns (stopped: bool)
      requires Valid() && !closed && received == ""
      modifies this
      ensures Valid() && !closed
      ensures base == old(base) && continuing == old(continuing) && received == Received(pass)
      ensures stopped == StoppedDuring(pass)
    {
      var ds := pass.deliveries;
      var i := 0;
      while i < |ds|
        invariant 0 <= i <= |ds|
        invariant Valid() && !closed && base == old(base) && continuing == old(continuing)
        invariant received == TextOf(ds[..i])
        invariant forall j :: 0 <= j < i ==> !ds[j].stopRequested
      {
        if ds[i].stopRequested {
          assert Accepted(ds) == i;
          return true;
        }
        assert ds[..i + 1][..i] == ds[..i];
        Deliver(ds[i].chunk);
        i := i + 1;
      }
      assert Accepted(ds) == |ds|;
      return false;
    }

    /** One pass from its first chunk to its flush; a stop or an unexpected error leaves the buffer behind. */
    method RunPass(pass: Pass, isContinuation: bool) returns (cut: bool, grew: bool)
      requires Valid()
      modifies this
      ensures Valid() && cut == StoppedDuring(pass)
      ensures SavedOnStop() == Grown(old(Join(raw)), Received(pass), isContinuation)
      ensures !cut && !pass.ending.Crashed? ==> buffer == [] && Join(raw) == SavedOnStop()
      ensures !cut && !pass.ending.Crashed? ==> grew == (|Join(raw)| > |old(Join(raw))|)
      ensures raw == [] <==> Join(raw) == ""
    {
      hide Grown, Salvage, Join, Received, Accepted, LooksRestarted;
      BeginPass(isContinuation);
      var before := |Join(raw)|;
      cut := StreamPass(pass);
      SalvageAgrees();
      grew := false;
      if !cut && !pass.ending.Crashed? {
        FlushPass();
        NothingPending();
        grew := |Join(raw)| > before;
      }
    }

    /** Stream every pass live until the answer completes, stalls, fails or is stopped. */
    method Recover(interruption: Option<Ending>, stopAtStart: bool, provider: nat -> Pass, maxContinuations: nat)
      returns (outcome: Outcome, passes: nat, ghost stopped: bool)
      requires Valid() && buffer == [] && !continuing
      modifies this
      ensures Valid()
      ensures passes <= maxContinuations + 1
      ensures SavedOnStop() == TextAfter(old(Join(raw)), interruption.Some?, provider, passes)
      ensures passes == 0 <==> interruption.Some? && (old(raw) == [] || maxContinuations == 0 || stopAtStart)
      ensures passes == 0 ==> outcome == Returned(Some(Cause(interruption.value))) && !stopped
      ensures forall i: nat :: i + 1 < passes ==>
                Recoverable(provider(i).ending) && !provider(i).stopRequested && !StoppedDuring(provider(i))
      ensures forall i: nat :: i + 1 < passes && (interruption.Some? || i > 0) ==>
                Grew(old(Join(raw)), interruption.Some?, provider, i)
      ensures passes > 0 ==> stopped == StoppedDuring(provider(passes - 1))
      ensures stopped ==> outcome == Returned(None)
      ensures passes > 0 && !stopped ==>
                outcome == Verdict(provider(passes - 1).ending, interruption.Some? || passes > 1,
                                   Grew(old(Join(raw)), interruption.Some?, provider, passes - 1), Join(raw) == "")
      // without an error: the last pass finished, and grew if it was a continuation
      ensures passes > 0 && !stopped ==>
                (outcome == Returned(None) <==>
                   && provider(passes - 1).ending.Finished?
                   && ((interruption.None? && passes == 1) || Grew(old(Join(raw)), interruption.Some?, provider, passes - 1)))
      // raised rather than returned: a crash, or no text to return
      ensures outcome.Raised? <==>
                && passes > 0 && !stopped
                && var ending := provider(passes - 1).ending;
                   ending.Crashed? || ((ending.RateLimited? || ending.InputLimited? || ending.ServiceFailed?) && Join(raw) == "")
      ensures passes > 0 && !stopped && !provider(passes - 1).ending.Crashed? ==>
                buffer == [] && Join(raw) == TextAfter(old(Join(raw)), interruption.Some?, provider, passes)
      ensures passes > 0 && !stopped && outcome == Returned(Some(Cause(provider(passes - 1).ending)))
              && Recoverable(provider(passes - 1).ending) ==>
                provider(passes - 1).stopRequested || passes - 1 + (if interruption.Some? then 1 else 0) >= maxContinuations
    {
      hide Valid, SavedOnStop, Grown, Join, Received, Accepted;
      ghost var start := Join(raw);
      var adopted := interruption.Some?;
      var count := 0;
      passes, stopped := 0, false;
      if adopted {
        NothingPending();
        if raw == [] || count >= maxContinuations || stopAtStart {
          return Returned(Some(Cause(interruption.value))), 0, false;
        }
        count := 1;
      }
      while true
        invariant Valid() && buffer == []
        invariant count == passes + (if adopted then 1 else 0) <= maxContinuations
        invariant Join(raw) == TextAfter(start, adopted, provider, passes)
        invariant forall i: nat :: i < passes ==>
                    Recoverable(provider(i).ending) && !provider(i).stopRequested && !StoppedDuring(provider(i))
        invariant forall i: nat :: i < passes && (adopted || i > 0) ==> Grew(start, adopted, provider, i)
        invariant passes == 0 ==> raw == old(raw)
        decreases maxContinuations - count
      {
        var pass := provider(passes);
        var cut, grew := RunPass(pass, count > 0);
        passes, stopped := passes + 1, cut;
        if cut {
          return Returned(None), passes, true;
        }
        match pass.ending {
          case Finished =>
            if count > 0 && !grew {
              return Returned(Some(Stalled)), passes, false;
            }
            return Returned(None), passes, false;
          case OutputLimited | ProviderFailed =>
            if count > 0 && !grew {
              return Returned(Some(Stalled)), passes, false;
            }
            if count >= maxContinuations || pass.stopRequested {
              return Returned(Some(Cause(pass.ending))), passes, false;
            }
            count := count + 1;
          case Crashed =>
            return Raised(Cause(Crashed)), passes, false;
          case _ =>
            if raw != [] {
              return Returned(Some(Cause(pass.ending))), passes, false;
            }
            return Raised(Cause(pass.ending)), passes, false;
        }
      }
    }

    lemma NothingPending()
      requires buffer == []
      ensures SavedOnStop() == Join(raw)
    {
    }

    /** Between chunk deliveries, published text plus what a stop would take is the batch specification. */
    lemma SalvageAgrees()
      requires Valid()
      ensures SavedOnStop() == Grown(base, received, continuing)
    {
      if continuing && !headFlushed && received == "" {
        assert Contribution(base, received) == "";
      }
    }
  }
}
