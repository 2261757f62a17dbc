/**
 Reading a model stream with retries: transient failures, one resample and one tool-free replay
 after tool rejections. The provider is an arbitrary script of attempts.
 */
module RetryLoop {
  import opened Basics
  import opened ContinuationText

  const MAX_DELAY: nat := 8

  /**
   One raw chunk: what the leak guard released for it, whether a stop was requested when it came,
   and whether it tripped the guard (with the characters to take back from earlier chunks).
   */
  datatype Delivery = Delivery(pieces: seq<string>, stopRequested: bool, tripped: bool, overflow: nat)

  datatype Failure = OutputLimit | ToolRejected | Transient(retryAfter: int) | InputLimit | Other

  datatype Ending = Completed | Failed(failure: Failure)

  /**
   One attempt. `tail` is what the guard still held at the end; `cancelled` and `cancelledInSleep`
   are the stop flag as read in the error handler and during the back-off.
   */
  datatype Attempt = Attempt(
    fits: bool, deliveries: seq<Delivery>, tail: string, ending: Ending, cancelled: bool, cancelledInSleep: bool)

  /** A guard that was never fed holds nothing back. */
  predicate Plausible(a: Attempt) { a.deliveries == [] ==> a.tail == "" }

  datatype Outcome = Finished | Limited | Stopped | Raised(failure: Failure)

  // ---- Back-off -------------------------------------------------------------------

  function Power2(n: nat): nat { if n == 0 then 1 else 2 * Power2(n - 1) }

  function RetryDelay(retryAfter: int, attempt: nat): nat {
    if retryAfter > 0 then Min(retryAfter, MAX_DELAY) else Min(Power2(attempt), MAX_DELAY)
  }

  predicate Affordable(retryAfter: int) { retryAfter <= MAX_DELAY }

  /** A retry waits at least as long as the provider asked, and never longer than the cap. */
  lemma RetryHonoursProvider(retryAfter: int, attempt: nat)
    requires Affordable(retryAfter)
    ensures retryAfter <= RetryDelay(retryAfter, attempt) <= MAX_DELAY
    ensures retryAfter > 0 ==> RetryDelay(retryAfter, attempt) == retryAfter
    ensures retryAfter <= 0 ==> RetryDelay(retryAfter, 0) == 1
    ensures retryAfter <= 0 ==> RetryDelay(retryAfter, attempt + 1) == Min(2 * RetryDelay(retryAfter, attempt), MAX_DELAY)
  {
  }

  // ---- Buffered chunks ------------------------------------------------------------

  /** Drop characters from the end of buffered chunks. */
  function TrimTail(chunks: seq<string>, chars: nat): seq<string> {
    if chars == 0 || chunks == [] then chunks
    else
      var last := chunks[|chunks| - 1];
      if |last| > chars then chunks[..|chunks| - 1] + [last[..|last| - chars]]
      else TrimTail(chunks[..|chunks| - 1], chars - |last|)
  }

  /** The buffered text loses exactly that many characters, or all of them. */
  lemma {:induction false} TrimTailText(chunks: seq<string>, chars: nat)
    ensures Join(TrimTail(chunks, chars)) == Join(chunks)[..|Join(chunks)| - Min(chars, |Join(chunks)|)]
  {
    if chars > 0 && chunks != [] {
      var rest, last := chunks[..|chunks| - 1], chunks[|chunks| - 1];
      if |last| > chars {
        JoinAppend(rest, last[..|last| - chars]);
      } else {
        TrimTailText(rest, chars - |last|);
      }
    }
  }

  /** What an attempt's buffer holds after one released piece. */
  function WithPiece(buffer: seq<string>, piece: string, d: Delivery): seq<string> {
    var b := if d.tripped then TrimTail(buffer, d.overflow) else buffer;
    if piece == "" then b else b + [piece]
  }

  function WithPieces(buffer: seq<string>, d: Delivery, n: nat): seq<string>
    requires n <= |d.pieces|
  {
    if n == 0 then buffer else WithPiece(WithPieces(buffer, d, n - 1), d.pieces[n - 1], d)
  }

  function Kept(deliveries: seq<Delivery>): seq<string> {
    if |deliveries| == 0 then []
    else
      var d := deliveries[|deliveries| - 1];
      WithPieces(Kept(deliveries[..|deliveries| - 1]), d, |d.pieces|)
  }

  /** Chunks read before a stop, or up to and including the one that tripped the guard. */
  function Consumed(deliveries: seq<Delivery>): (n: nat)
    ensures n <= |deliveries|
  {
    if deliveries == [] || deliveries[0].stopRequested then 0
    else if deliveries[0].tripped then 1
    else 1 + Consumed(deliveries[1..])
  }

  predicate Tripped(deliveries: seq<Delivery>) {
    var n := Consumed(deliveries);
    n > 0 && deliveries[n - 1].tripped
  }

  predicate StoppedDuring(a: Attempt) {
    a.fits && Consumed(a.deliveries) < |a.deliveries| && !Tripped(a.deliveries)
  }

  /** The guarded chunks of one attempt. */
  function Guarded(a: Attempt): seq<string> {
    if !a.fits then []
    else
      var kept := Kept(a.deliveries[..Consumed(a.deliveries)]);
      if StoppedDuring(a) || a.tail == "" then kept else kept + [a.tail]
  }

  function NonEmpty(pieces: seq<string>): seq<string> {
    if pieces == [] then []
    else NonEmpty(pieces[..|pieces| - 1]) + (if pieces[|pieces| - 1] == "" then [] else [pieces[|pieces| - 1]])
  }

  function Flow(deliveries: seq<Delivery>): seq<string> {
    if |deliveries| == 0 then []
    else Flow(deliveries[..|deliveries| - 1]) + NonEmpty(deliveries[|deliveries| - 1].pieces)
  }

  /** What one attempt passes straight on when nothing is buffered. */
  function Passed(a: Attempt): seq<string> {
    if !a.fits then []
    else
      var flow := Flow(a.deliveries[..Consumed(a.deliveries)]);
      if StoppedDuring(a) || a.tail == "" then flow else flow + [a.tail]
  }

  lemma NoAttemptsYet(provider: nat -> Attempt)
    ensures Transients(provider, 0) == 0 && Rejections(provider, 0) == 0
  {
  }

  lemma OneMoreAttempt(provider: nat -> Attempt, n: nat)
    ensures Transients(provider, n + 1) == Transients(provider, n) + if FailsTransiently(provider(n)) then 1 else 0
    ensures Rejections(provider, n + 1) == Rejections(provider, n) + if RejectsTools(provider(n)) then 1 else 0
  {
  }

  lemma SilentAttempt(a: Attempt)
    requires Plausible(a) && !StoppedDuring(a) && (!a.fits || Consumed(a.deliveries) == 0)
    ensures Passed(a) == []
  {
  }

  function EndingOf(a: Attempt): Ending {
    if !a.fits then Failed(InputLimit) else if Tripped(a.deliveries) then Completed else a.ending
  }

  // ---- When a read ends -------------------------------------------------------------

  predicate Emitted(a: Attempt) { a.fits && Consumed(a.deliveries) > 0 }

  predicate FailsTransiently(a: Attempt) { !StoppedDuring(a) && EndingOf(a).Failed? && EndingOf(a).failure.Transient? }

  predicate RejectsTools(a: Attempt) { !StoppedDuring(a) && EndingOf(a) == Failed(ToolRejected) }

  /** How many of the first n attempts failed transiently. */
  ghost function Transients(provider: nat -> Attempt, n: nat): nat {
    if n == 0 then 0 else Transients(provider, n - 1) + (if FailsTransiently(provider(n - 1)) then 1 else 0)
  }

  /** How many of the first n attempts were rejected for a tool call. */
  ghost function Rejections(provider: nat -> Attempt, n: nat): nat {
    if n == 0 then 0 else Rejections(provider, n - 1) + (if RejectsTools(provider(n - 1)) then 1 else 0)
  }

  /** Tools stay through the first rejection and are dropped by the second. */
  ghost predicate HasTools(provider: nat -> Attempt, withTools: bool, k: nat) { withTools && Rejections(provider, k) < 2 }

  /** A transient failure is not retried: text is out already, the retries are spent, a stop was seen, or the wait is too long. */
  ghost predicate TransientEnds(provider: nat -> Attempt, k: nat, discard: bool, maxRetries: nat) {
    var a := provider(k);
    && FailsTransiently(a)
    && (|| (Emitted(a) && !discard) || Transients(provider, k) >= maxRetries || a.cancelled || a.cancelledInSleep
        || EndingOf(a).failure.retryAfter > 8)
  }

  /** A rejection is not replayed: there are no tools to blame, text is out already, or a stop was seen. */
  ghost predicate RejectionEnds(provider: nat -> Attempt, k: nat, withTools: bool, discard: bool) {
    var a := provider(k);
    RejectsTools(a) && (!HasTools(provider, withTools, k) || (Emitted(a) && !discard) || a.cancelled)
  }

  /** Attempt k is the last one. */
  ghost predicate IsLastAttempt(provider: nat -> Attempt, k: nat, withTools: bool, discard: bool, maxRetries: nat) {
    var a := provider(k);
    || (!FailsTransiently(a) && !RejectsTools(a))
    || TransientEnds(provider, k, discard, maxRetries)
    || RejectionEnds(provider, k, withTools, discard)
  }

  lemma {:induction false} ConsumedExtends(deliveries: seq<Delivery>, n: nat)
    requires n <= |deliveries|
    requires forall i :: 0 <= i < n ==> !deliveries[i].stopRequested && !deliveries[i].tripped
    ensures n <= Consumed(deliveries)
    ensures n == |deliveries| || deliveries[n].stopRequested ==> Consumed(deliveries) == n && !Tripped(deliveries)
    ensures n < |deliveries| && !deliveries[n].stopRequested && deliveries[n].tripped ==>
              Consumed(deliveries) == n + 1 && Tripped(deliveries)
  {
    if n > 0 {
      ConsumedExtends(deliveries[1..], n - 1);
    }
  }

  class StreamReader {
    /** The shared buffer a stop would salvage. */
    var pending: seq<string>
    /** Everything handed to the consumer. */
    var output: seq<string>

    constructor ()
      ensures pending == [] && output == []
    {
      pending, output := [], [];
    }

    /** One attempt, buffering in discard mode and passing pieces on otherwise. */
    method ReadAttempt(a: Attempt, discard: bool) returns (chunks: seq<string>, emitted: bool, stopped: bool, ending: Ending)
      requires Plausible(a) && (discard ==> pending == [])
      modifies this
      ensures stopped == StoppedDuring(a) && (!stopped ==> ending == EndingOf(a))
      ensures emitted == (a.fits && Consumed(a.deliveries) > 0)
      ensures discard ==> output == old(output) && chunks == Guarded(a)
      ensures discard && (stopped || ending.Failed?) ==> pending == Guarded(a)
      ensures !discard ==> pending == old(pending) && output == old(output) + Passed(a)
    {
      hide Consumed, Kept, Flow, Tripped;
      chunks, emitted, stopped, ending := [], false, false, Failed(InputLimit);
      if !a.fits {
        return;
      }
      var n, tripped: bool;
      n, chunks, tripped := ReadDeliveries(a.deliveries, discard);
      emitted := n > 0;
      if n < |a.deliveries| && !tripped {
        return chunks, emitted, true, a.ending;
      }
      ending := if tripped then Completed else a.ending;
      if a.tail != "" {
        if discard {
          chunks := chunks + [a.tail];
          pending := chunks;
        } else {
          output := output + [a.tail];
        }
      }
    }

    /** Read chunks until a stop, a tripped guard or the end of the stream. */
    method ReadDeliveries(ds: seq<Delivery>, discard: bool) returns (n: nat, chunks: seq<string>, tripped: bool)
      requires discard ==> pending == []
      modifies this
      ensures n == Consumed(ds) && tripped == Tripped(ds)
      ensures discard ==> output == old(output) && chunks == Kept(ds[..n]) == pending
      ensures !discard ==> pending == old(pending) && output == old(output) + Flow(ds[..n])
    {
      hide Consumed, Tripped, WithPieces, NonEmpty;
      n, chunks, tripped := 0, [], false;
      while n < |ds|
        invariant n <= |ds|
        invariant forall j :: 0 <= j < n ==> !ds[j].stopRequested && !ds[j].tripped
        invariant discard ==> output == old(output) && chunks == Kept(ds[..n]) == pending
        invariant !discard ==> pending == old(pending) && output == old(output) + Flow(ds[..n])
      {
        ConsumedExtends(ds, n);
        if ds[n].stopRequested {
          return n, chunks, false;
        }
        assert ds[..n + 1][..n] == ds[..n];
        chunks := TakePieces(ds[n], chunks, discard);
        n := n + 1;
        if ds[n - 1].tripped {
          return n, chunks, true;
        }
      }
      ConsumedExtends(ds, n);
    }

    method TakePieces(d: Delivery, before: seq<string>, discard: bool) returns (chunks: seq<string>)
      modifies this
      ensures discard ==> output == old(output) && chunks == WithPieces(before, d, |d.pieces|)
      ensures discard && old(pending) == before ==> pending == chunks
      ensures !discard ==> pending == old(pending) && output == old(output) + NonEmpty(d.pieces)
    {
      chunks := before;
      for k := 0 to |d.pieces|
        invariant discard ==> output == old(output) && chunks == WithPieces(before, d, k)
        invariant discard && old(pending) == before ==> pending == chunks
        invariant !discard ==> pending == old(pending) && output == old(output) + NonEmpty(d.pieces[..k])
      {
        assert d.pieces[..k + 1][..k] == d.pieces[..k];
        var piece := d.pieces[k];
        if discard {
          if d.tripped {
            chunks := TrimTail(chunks, d.overflow);
          }
          if piece != "" {
            chunks := chunks + [piece];
          }
          pending := chunks;
        } else if piece != "" {
          output := output + [piece];
        }
      }
      assert d.pieces[..|d.pieces|] == d.pieces;
    }

    /**
     The retry loop. `offered` records for each attempt whether tools were offered; the last attempt
     alone reaches the consumer. A failed or stopped read leaves that attempt's text in the pending
     buffer, unless the stop came during the back-off (`slept`), when the buffer was already cleared.
     */
    method Read(provider: nat -> Attempt, withTools: bool, discard: bool, tolerateLimit: bool, maxRetries: nat)
      returns (outcome: Outcome, attempts: nat, slept: bool, ghost offered: seq<bool>)
      requires pending == [] && output == [] && forall k :: Plausible(provider(k))
      modifies this
      ensures 1 <= attempts <= maxRetries + 3 && |offered| == attempts
      ensures offered[0] == withTools
      ensures forall i, j :: 0 <= i < j < attempts && offered[j] ==> offered[i]
      ensures forall i :: 0 <= i < attempts ==> (offered[i] <==> HasTools(provider, withTools, i))
      // an attempt is retried exactly as long as nothing ends the read
      ensures IsLastAttempt(provider, attempts - 1, withTools, discard, maxRetries)
      ensures forall i :: 0 <= i < attempts - 1 ==> !IsLastAttempt(provider, i, withTools, discard, maxRetries)
      ensures outcome.Raised? && outcome.failure.Transient? <==> TransientEnds(provider, attempts - 1, discard, maxRetries)
      ensures outcome == Raised(ToolRejected) <==> RejectionEnds(provider, attempts - 1, withTools, discard)
      ensures outcome == Raised(OutputLimit) <==>
              var last := provider(attempts - 1); !StoppedDuring(last) && EndingOf(last) == Failed(OutputLimit) && !tolerateLimit
      ensures var last := provider(attempts - 1);
              && (discard && (outcome.Finished? || outcome.Limited?) ==> output == Guarded(last) && pending == [])
              && (discard && (outcome.Stopped? || outcome.Raised?) ==>
                    output == [] && pending == if slept then [] else Guarded(last))
              && (slept ==> outcome.Raised? && outcome.failure.Transient? && last.cancelledInSleep && !last.cancelled)
      ensures !discard ==> output == Passed(provider(attempts - 1))
      ensures !discard ==> forall i: nat :: i + 1 < attempts ==> !provider(i).fits || Consumed(provider(i).deliveries) == 0
      ensures forall i: nat :: i + 1 < attempts ==> !StoppedDuring(provider(i)) && EndingOf(provider(i)).Failed?
      ensures var last := provider(attempts - 1);
              && (outcome.Stopped? <==> StoppedDuring(last))
              && (outcome.Finished? <==> !StoppedDuring(last) && EndingOf(last).Completed?)
              && (outcome.Limited? <==> !StoppedDuring(last) && EndingOf(last) == Failed(OutputLimit) && tolerateLimit)
              && (outcome.Raised? ==> EndingOf(last) == Failed(outcome.failure))
    {
      hide Guarded, Passed, StoppedDuring, EndingOf, Consumed, Transients, Rejections;
      NoAttemptsYet(provider);
      var retries, tools, resampled := 0, withTools, false;
      attempts, offered, slept := 0, [], false;
      while true
        invariant attempts == retries + (if resampled then 1 else 0) + (if withTools && !tools then 1 else 0)
        invariant retries <= maxRetries && |offered| == attempts
        invariant retries == Transients(provider, attempts)
        invariant withTools ==> (resampled <==> Rejections(provider, attempts) >= 1) && (tools <==> Rejections(provider, attempts) < 2)
        invariant forall i :: 0 <= i < attempts ==> (offered[i] <==> HasTools(provider, withTools, i))
        invariant forall i :: 0 <= i < attempts ==> !IsLastAttempt(provider, i, withTools, discard, maxRetries)
        invariant withTools && !tools ==> resampled
        invariant resampled ==> withTools
        invariant tools ==> withTools
        invariant attempts > 0 ==> offered[0] == withTools
        invariant forall i, j :: 0 <= i < j < attempts && offered[j] ==> offered[i]
        invariant forall i :: 0 <= i < attempts && tools ==> offered[i]
        invariant discard ==> pending == []
        invariant output == []
        invariant !discard ==> forall i: nat :: i < attempts ==> !provider(i).fits || Consumed(provider(i).deliveries) == 0
        invariant forall i: nat :: i < attempts ==> !StoppedDuring(provider(i)) && EndingOf(provider(i)).Failed?
        decreases maxRetries - retries, !resampled, tools
      {
        var a := provider(attempts);
        offered := offered + [tools];
        attempts := attempts + 1;
        OneMoreAttempt(provider, attempts - 1);
        var chunks, emitted, stopped, ending := ReadAttempt(a, discard);
        if stopped {
          return Stopped, attempts, false, offered;
        }
        match ending {
          case Completed =>
            if discard {
              pending := [];
              output := output + chunks;
            }
            return Finished, attempts, false, offered;
          case Failed(OutputLimit) =>
            if !tolerateLimit {
              return Raised(OutputLimit), attempts, false, offered;
            }
            if discard {
              pending := [];
              output := output + chunks;
            }
            return Limited, attempts, false, offered;
          case Failed(ToolRejected) =>
            if !tools || (emitted && !discard) || a.cancelled {
              return Raised(ToolRejected), attempts, false, offered;
            }
            if !discard {
              SilentAttempt(a);
            }
            if !resampled {
              resampled := true;
            } else {
              tools := false;
            }
            if discard {
              pending := [];
            }
          case Failed(Transient(after)) =>
            if (emitted && !discard) || retries >= maxRetries || a.cancelled || !Affordable(after) {
              return Raised(Transient(after)), attempts, false, offered;
            }
            if discard {
              pending := [];
            }
            retries := retries + 1;
            if !discard {
              SilentAttempt(a);
            }
            if a.cancelledInSleep {
              return Raised(Transient(after)), attempts, true, offered;
            }
          case Failed(f) =>
            return Raised(f), attempts, false, offered;
        }
      }
    }
  }
}
