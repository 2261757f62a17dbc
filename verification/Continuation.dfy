/**
 Text rules for an answer that a provider cut off and then continued.

 A continuation either repeats the boundary (the overlap is removed) or rewrites the
 answer from the start (only what follows the existing tail is kept). `Contribution`
 is the batch rule: what a whole pass adds to the existing text.
 */
module ContinuationText {
  import opened Basics

  const OVERLAP_CHARS: nat := 2048
  const RESTART_PREFIX_CHARS: nat := 160
  const ANCHOR_CHARS: seq<nat> := [320, 200, 120, 64]

  /** Concatenation of published or buffered chunks. */
  function Join(chunks: seq<string>): string {
    if |chunks| == 0 then "" else Join(chunks[..|chunks| - 1]) + chunks[|chunks| - 1]
  }

  lemma JoinAppend(chunks: seq<string>, chunk: string)
    ensures Join(chunks + [chunk]) == Join(chunks) + chunk
  {
    assert (chunks + [chunk])[..|chunks|] == chunks;
  }

  // ---- Boundary overlap -------------------------------------------------------

  predicate OverlapsAt(existing: string, continuation: string, k: nat) {
    && k <= |existing|
    && k <= |continuation|
    && existing[|existing| - k..] == continuation[..k]
  }

  function OverlapCap(existing: string, continuation: string): nat {
    Min(Min(|existing|, |continuation|), OVERLAP_CHARS)
  }

  /** k is the largest overlap no longer than the comparison window. */
  ghost predicate IsLongestOverlap(existing: string, continuation: string, k: nat) {
    && k <= OverlapCap(existing, continuation)
    && OverlapsAt(existing, continuation, k)
    && forall j: nat :: k < j <= OverlapCap(existing, continuation) ==> !OverlapsAt(existing, continuation, j)
  }

  function OverlapAtMost(existing: string, continuation: string, k: nat): (n: nat)
    requires k <= OverlapCap(existing, continuation)
    ensures n <= k && OverlapsAt(existing, continuation, n)
    ensures forall j: nat :: n < j <= k ==> !OverlapsAt(existing, continuation, j)
  {
    if k == 0 || OverlapsAt(existing, continuation, k) then k
    else OverlapAtMost(existing, continuation, k - 1)
  }

  function LongestOverlap(existing: string, continuation: string): (n: nat)
    ensures IsLongestOverlap(existing, continuation, n)
  {
    OverlapAtMost(existing, continuation, OverlapCap(existing, continuation))
  }

  function Stripped(existing: string, continuation: string): string {
    continuation[LongestOverlap(existing, continuation)..]
  }

  method StripContinuationOverlap(existing: string, continuation: string) returns (rest: string)
    ensures rest == Stripped(existing, continuation)
  {
    var overlap := OverlapCap(existing, continuation);
    while overlap > 0
      invariant 0 <= overlap <= OverlapCap(existing, continuation)
      invariant OverlapAtMost(existing, continuation, overlap) == LongestOverlap(existing, continuation)
    {
      if existing[|existing| - overlap..] == continuation[..overlap] {
        return continuation[overlap..];
      }
      overlap := overlap - 1;
    }
    return continuation;
  }

  /** Removing the overlap never loses or invents text: the boundary is shared exactly once. */
  lemma StrippedJoinsSeamlessly(existing: string, continuation: string)
    ensures |Stripped(existing, continuation)| <= |continuation|
    ensures existing + Stripped(existing, continuation)
            == existing[..|existing| - (|continuation| - |Stripped(existing, continuation)|)] + continuation
  {
    var k := LongestOverlap(existing, continuation);
    assert continuation == continuation[..k] + continuation[k..];
    assert existing == existing[..|existing| - k] + existing[|existing| - k..];
  }

  /** A full window fixes the overlap: text arriving later passes through untouched. */
  lemma StrippedExtends(existing: string, head: string, tail: string)
    requires |head| >= OVERLAP_CHARS
    ensures Stripped(existing, head + tail) == Stripped(existing, head) + tail
  {
    var whole := head + tail;
    var cap := OverlapCap(existing, head);
    assert OverlapCap(existing, whole) == cap;
    forall k: nat | k <= cap
      ensures OverlapsAt(existing, whole, k) == OverlapsAt(existing, head, k)
    {
      assert whole[..k] == head[..k];
    }
    var a, b := LongestOverlap(existing, head), LongestOverlap(existing, whole);
    assert a == b;
    assert whole[a..] == head[a..] + tail;
  }

  // ---- Rewritten answers ------------------------------------------------------

  /** The continuation opens with the first RESTART_PREFIX_CHARS characters of the answer. */
  predicate LooksRestarted(existing: string, continuation: string) {
    var n := Min(Min(|existing|, |continuation|), RESTART_PREFIX_CHARS);
    n == RESTART_PREFIX_CHARS && existing[..n] == continuation[..n]
  }

  /** A rewrite agrees with the answer at each of the first 160 positions, and both are that long; nothing else is one. */
  lemma RestartMeaning(existing: string, continuation: string)
    ensures LooksRestarted(existing, continuation) <==>
            && |existing| >= 160 && |continuation| >= 160
            && forall i :: 0 <= i < 160 ==> existing[i] == continuation[i]
  {
    if LooksRestarted(existing, continuation) {
      forall i | 0 <= i < 160 ensures existing[i] == continuation[i] {
        assert existing[..160][i] == continuation[..160][i];
      }
    }
  }

  /** Whatever follows it, the opening of a long enough answer is recognised. */
  lemma RepeatedOpeningRestarts(existing: string, rest: string)
    requires |existing| >= 160
    ensures LooksRestarted(existing, existing[..160] + rest)
  {
    RestartMeaning(existing, existing[..160] + rest);
  }

  lemma RestartDecidedByPrefix(existing: string, head: string, tail: string)
    requires |head| >= RESTART_PREFIX_CHARS
    ensures LooksRestarted(existing, head + tail) == LooksRestarted(existing, head)
  {
    assert (head + tail)[..RESTART_PREFIX_CHARS] == head[..RESTART_PREFIX_CHARS];
  }

  lemma RestartPersists(existing: string, head: string, tail: string)
    requires LooksRestarted(existing, head)
    ensures LooksRestarted(existing, head + tail)
  {
    RestartDecidedByPrefix(existing, head, tail);
  }

  predicate OccursAt(text: string, anchor: string, p: nat) {
    p + |anchor| <= |text| && text[p..p + |anchor|] == anchor
  }

  /** Last occurrence of the anchor at or before p, if any. */
  function LastOccurrence(text: string, anchor: string, p: nat): (r: Option<nat>)
    ensures r.Some? ==> r.value <= p && OccursAt(text, anchor, r.value)
    ensures r.Some? ==> forall q: nat :: r.value < q <= p ==> !OccursAt(text, anchor, q)
    ensures r.None? ==> forall q: nat :: q <= p ==> !OccursAt(text, anchor, q)
  {
    if OccursAt(text, anchor, p) then Some(p)
    else if p == 0 then None
    else LastOccurrence(text, anchor, p - 1)
  }

  /** What follows the last occurrence of the n-character tail, if the answer is that long and the tail occurs. */
  function AfterAnchor(existing: string, continuation: string, n: nat): Option<string> {
    if |existing| < n then None
    else
      match LastOccurrence(continuation, existing[|existing| - n..], |continuation|)
      case None => None
      case Some(p) => Some(continuation[p + n..])
  }

  function SpliceFrom(existing: string, continuation: string, i: nat): Option<string>
    requires i <= |ANCHOR_CHARS|
    decreases |ANCHOR_CHARS| - i
  {
    if i == |ANCHOR_CHARS| then None
    else
      match AfterAnchor(existing, continuation, ANCHOR_CHARS[i])
      case None => SpliceFrom(existing, continuation, i + 1)
      case Some(rest) => Some(rest)
  }

  /** What a rewrite adds after the existing tail, or None when the tail cannot be found in it. */
  function Spliced(existing: string, continuation: string): Option<string> {
    SpliceFrom(existing, continuation, 0)
  }

  method SpliceRestartedAnswer(existing: string, continuation: string) returns (rest: Option<string>)
    ensures rest == Spliced(existing, continuation)
  {
    for i := 0 to |ANCHOR_CHARS|
      invariant SpliceFrom(existing, continuation, i) == Spliced(existing, continuation)
    {
      var n := ANCHOR_CHARS[i];
      if |existing| >= n {
        var anchor := existing[|existing| - n..];
        var position := LastOccurrence(continuation, anchor, |continuation|);
        if position.Some? {
          return Some(continuation[position.value + n..]);
        }
      }
    }
    return None;
  }

  function Tail(text: string, n: nat): string
    requires n <= |text|
  {
    text[|text| - n..]
  }

  /** The anchor last occurs in the text at p. */
  ghost predicate LastOccursAt(text: string, anchor: string, p: nat) {
    OccursAt(text, anchor, p) && forall q: nat :: p < q ==> !OccursAt(text, anchor, q)
  }

  ghost predicate AnchorFound(existing: string, continuation: string, n: nat) {
    n <= |existing| && exists p: nat :: OccursAt(continuation, Tail(existing, n), p)
  }

  /** The splice keeps what follows the last occurrence of the n-character tail. */
  ghost predicate SplicedAfter(existing: string, continuation: string, n: nat, rest: string) {
    n <= |existing| && exists p: nat :: LastOccursAt(continuation, Tail(existing, n), p) && rest == continuation[p + n..]
  }

  /** The splice uses the longest tail that occurs in the rewrite, and fails exactly when none does. */
  lemma {:induction false} SpliceFromMeaning(existing: string, continuation: string, i: nat)
    requires i <= |ANCHOR_CHARS|
    ensures SpliceFrom(existing, continuation, i).None? <==>
            forall j :: i <= j < |ANCHOR_CHARS| ==> !AnchorFound(existing, continuation, ANCHOR_CHARS[j])
    ensures SpliceFrom(existing, continuation, i).Some? ==>
              exists j :: i <= j < |ANCHOR_CHARS|
                && SplicedAfter(existing, continuation, ANCHOR_CHARS[j], SpliceFrom(existing, continuation, i).value)
                && forall m :: i <= m < j ==> !AnchorFound(existing, continuation, ANCHOR_CHARS[m])
    decreases |ANCHOR_CHARS| - i
  {
    hide AfterAnchor, SplicedAfter, AnchorFound;
    if i < |ANCHOR_CHARS| {
      SpliceFromMeaning(existing, continuation, i + 1);
      AnchorMeaning(existing, continuation, ANCHOR_CHARS[i]);
    }
  }

  lemma AnchorMeaning(existing: string, continuation: string, n: nat)
    ensures var r := AfterAnchor(existing, continuation, n);
            && (r.Some? <==> AnchorFound(existing, continuation, n))
            && (r.Some? ==> SplicedAfter(existing, continuation, n, r.value))
  {
    if n <= |existing| {
      var anchor := Tail(existing, n);
      var r := LastOccurrence(continuation, anchor, |continuation|);
      if r.Some? {
        assert OccursAt(continuation, anchor, r.value);
        assert LastOccursAt(continuation, anchor, r.value);
      }
    }
  }

  // ---- The batch rule ---------------------------------------------------------

  /** What one whole continuation pass adds to the existing answer. */
  function Contribution(existing: string, received: string): string {
    if LooksRestarted(existing, received) then SplicedOrNothing(existing, received)
    else Stripped(existing, received)
  }

  /** A pass that differs from the answer in its first 160 characters, or is shorter, adds all of its text but the overlap. */
  lemma OtherOpeningIsAdded(existing: string, received: string)
    requires |existing| < 160 || |received| < 160 || exists i :: 0 <= i < 160 && existing[i] != received[i]
    ensures exists k: nat :: IsLongestOverlap(existing, received, k) && Contribution(existing, received) == received[k..]
  {
    RestartMeaning(existing, received);
    assert IsLongestOverlap(existing, received, LongestOverlap(existing, received));
  }

  /** A pass that repeats the answer's opening adds what follows the splice point, and nothing if it cannot be spliced. */
  lemma RepeatedOpeningIsSpliced(existing: string, rest: string)
    requires |existing| >= 160
    ensures var received := existing[..160] + rest;
            exists p: nat :: p <= |received| && IsSplicePoint(existing, received, p) && Contribution(existing, received) == received[p..]
  {
    hide SplicedOrNothing, SplicePoint, IsSplicePoint;
    var received := existing[..160] + rest;
    RepeatedOpeningRestarts(existing, rest);
    SplicePointMeaning(existing, received);
    var p: nat := SplicePoint(existing, received);
  }

  /** What a stop takes from the undelivered buffer (an envelope-free one). */
  function Salvage(existing: string, pending: string, isRewrite: bool): string {
    if pending == "" then ""
    else if isRewrite || LooksRestarted(existing, pending) then SplicedOrNothing(existing, pending)
    else Stripped(existing, pending)
  }

  /** What a rewrite adds; one that cannot be spliced adds nothing. */
  function SplicedOrNothing(existing: string, pending: string): string {
    match Spliced(existing, pending)
    case Some(rest) => rest
    case None => ""
  }

  /** A stop takes exactly what the flush would publish, whether or not the rewrite flag is set yet. */
  lemma StopAgreesWithFlush(existing: string, pending: string, isRewrite: bool)
    requires isRewrite ==> LooksRestarted(existing, pending)
    ensures Salvage(existing, pending, isRewrite) == Contribution(existing, pending)
  {
    hide Spliced;
  }

  // ---- A stop sees the saved answer, which may open with a search trace ---------

  lemma TailUnderPrefix(prefix: string, existing: string, n: nat)
    requires n <= |existing|
    ensures (prefix + existing)[|prefix + existing| - n..] == existing[|existing| - n..]
  {
  }

  /** The last n characters of the text stand in the continuation, ending at p. */
  predicate EndsAt(text: string, continuation: string, n: nat, p: nat) {
    n <= |text| && n <= p <= |continuation| && continuation[p - n..p] == Tail(text, n)
  }

  /** Where the part added by a rewrite starts; the end when the rewrite cannot be spliced. */
  function SplicePoint(existing: string, continuation: string): int {
    |continuation| - |SplicedOrNothing(existing, continuation)|
  }

  /** The tail of length n ends at p, and nowhere later. */
  ghost predicate EndsLastAt(text: string, continuation: string, n: nat, p: nat) {
    EndsAt(text, continuation, n, p) && forall q: nat :: p < q ==> !EndsAt(text, continuation, n, q)
  }

  /** The longest anchor that occurs ends last at p; without any, p is the end. */
  ghost predicate IsSplicePoint(text: string, continuation: string, p: nat) {
    || (exists j :: 0 <= j < |ANCHOR_CHARS|
          && EndsLastAt(text, continuation, ANCHOR_CHARS[j], p)
          && forall i :: 0 <= i < j ==> !AnchorFound(text, continuation, ANCHOR_CHARS[i]))
    || (p == |continuation| && forall j :: 0 <= j < |ANCHOR_CHARS| ==> !AnchorFound(text, continuation, ANCHOR_CHARS[j]))
  }

  lemma EndsAtIsOccurrence(text: string, continuation: string, n: nat)
    ensures forall p: nat :: n <= |text| && OccursAt(continuation, Tail(text, n), p) ==> EndsAt(text, continuation, n, p + n)
    ensures forall q: nat :: EndsAt(text, continuation, n, q) ==> OccursAt(continuation, Tail(text, n), q - n) && AnchorFound(text, continuation, n)
    ensures AnchorFound(text, continuation, n) ==> exists q: nat :: EndsAt(text, continuation, n, q)
  {
    forall q: nat | EndsAt(text, continuation, n, q)
      ensures OccursAt(continuation, Tail(text, n), q - n) && AnchorFound(text, continuation, n)
    {
      var p: nat := q - n;
      assert OccursAt(continuation, Tail(text, n), p);
    }
    if AnchorFound(text, continuation, n) {
      var p: nat :| OccursAt(continuation, Tail(text, n), p);
      assert EndsAt(text, continuation, n, p + n);
    }
  }

  lemma SplicedAfterEndsLast(text: string, continuation: string, n: nat, rest: string)
    requires SplicedAfter(text, continuation, n, rest)
    ensures |rest| <= |continuation| && EndsLastAt(text, continuation, n, |continuation| - |rest|)
    ensures rest == continuation[|continuation| - |rest|..]
  {
    EndsAtIsOccurrence(text, continuation, n);
  }

  /** The splice point means what its name says, and determines the spliced text. */
  lemma SplicePointMeaning(existing: string, continuation: string)
    ensures 0 <= SplicePoint(existing, continuation) <= |continuation|
    ensures IsSplicePoint(existing, continuation, SplicePoint(existing, continuation))
    ensures SplicedOrNothing(existing, continuation) == continuation[SplicePoint(existing, continuation)..]
  {
    hide SpliceFrom, SplicedAfter, AnchorFound, EndsLastAt;
    SpliceFromMeaning(existing, continuation, 0);
    if Spliced(existing, continuation).Some? {
      var rest := Spliced(existing, continuation).value;
      var j :| 0 <= j < |ANCHOR_CHARS| && SplicedAfter(existing, continuation, ANCHOR_CHARS[j], rest)
               && forall m :: 0 <= m < j ==> !AnchorFound(existing, continuation, ANCHOR_CHARS[m]);
      SplicedAfterEndsLast(existing, continuation, ANCHOR_CHARS[j], rest);
    }
  }

  lemma OverlapUnderPrefix(prefix: string, existing: string, continuation: string, k: nat)
    requires k <= |existing|
    ensures OverlapsAt(prefix + existing, continuation, k) == OverlapsAt(existing, continuation, k)
  {
    TailUnderPrefix(prefix, existing, k);
  }

  /** A prefix leaves the overlap alone exactly when the longest overlap does not reach into it. */
  lemma OverlapUnderPrefixIff(prefix: string, existing: string, continuation: string)
    ensures LongestOverlap(prefix + existing, continuation) == LongestOverlap(existing, continuation)
            <==> LongestOverlap(prefix + existing, continuation) <= |existing|
  {
    hide OverlapAtMost, LongestOverlap, OverlapsAt;
    var k, n := LongestOverlap(prefix + existing, continuation), LongestOverlap(existing, continuation);
    if k <= |existing| {
      OverlapUnderPrefix(prefix, existing, continuation, k);
      OverlapUnderPrefix(prefix, existing, continuation, n);
    }
  }

  lemma EndsUnderPrefix(prefix: string, existing: string, continuation: string, n: nat)
    requires n <= |existing|
    ensures forall p: nat :: EndsAt(prefix + existing, continuation, n, p) == EndsAt(existing, continuation, n, p)
    ensures AnchorFound(prefix + existing, continuation, n) == AnchorFound(existing, continuation, n)
  {
    TailUnderPrefix(prefix, existing, n);
    assert Tail(prefix + existing, n) == Tail(existing, n);
  }

  /** A shorter tail ends wherever a longer one does. */
  lemma ShorterEndsToo(text: string, continuation: string, n: nat, m: nat, p: nat)
    requires m <= n && EndsAt(text, continuation, n, p)
    ensures EndsAt(text, continuation, m, p)
  {
    assert continuation[p - m..p] == continuation[p - n..p][n - m..];
    assert Tail(text, m) == Tail(text, n)[n - m..];
  }

  /** Every anchor reaching into the prefix that occurs at all also ends where the answer alone is spliced. */
  ghost predicate LongAnchorsEndThere(prefix: string, existing: string, continuation: string) {
    forall j :: 0 <= j < |ANCHOR_CHARS| && ANCHOR_CHARS[j] > |existing| && AnchorFound(prefix + existing, continuation, ANCHOR_CHARS[j]) ==>
      0 <= SplicePoint(existing, continuation) && EndsAt(prefix + existing, continuation, ANCHOR_CHARS[j], SplicePoint(existing, continuation))
  }

  lemma SplicePointIsUnique(text: string, continuation: string, p: nat, q: nat)
    requires IsSplicePoint(text, continuation, p) && IsSplicePoint(text, continuation, q)
    ensures p == q
  {
    hide AnchorFound, EndsAt;
    forall j | 0 <= j < |ANCHOR_CHARS| ensures forall r: nat :: EndsAt(text, continuation, ANCHOR_CHARS[j], r) ==> AnchorFound(text, continuation, ANCHOR_CHARS[j]) {
      EndsAtIsOccurrence(text, continuation, ANCHOR_CHARS[j]);
    }
  }

  /** Without a long anchor the prefix does not matter. */
  lemma ShortAnchorsOnly(prefix: string, existing: string, continuation: string, q: nat)
    requires IsSplicePoint(prefix + existing, continuation, q)
    requires forall j :: 0 <= j < |ANCHOR_CHARS| && ANCHOR_CHARS[j] > |existing| ==>
               !AnchorFound(prefix + existing, continuation, ANCHOR_CHARS[j])
    ensures IsSplicePoint(existing, continuation, q)
  {
    hide EndsAt;
    forall j | 0 <= j < |ANCHOR_CHARS|
      ensures AnchorFound(prefix + existing, continuation, ANCHOR_CHARS[j]) == AnchorFound(existing, continuation, ANCHOR_CHARS[j])
      ensures EndsLastAt(prefix + existing, continuation, ANCHOR_CHARS[j], q) ==> EndsLastAt(existing, continuation, ANCHOR_CHARS[j], q)
    {
      if ANCHOR_CHARS[j] <= |existing| {
        EndsUnderPrefix(prefix, existing, continuation, ANCHOR_CHARS[j]);
      } else {
        EndsAtIsOccurrence(prefix + existing, continuation, ANCHOR_CHARS[j]);
      }
    }
  }

  lemma LongAnchorDecides(prefix: string, existing: string, continuation: string, j: nat, p: nat, q: nat)
    requires j < |ANCHOR_CHARS| && ANCHOR_CHARS[j] > |existing|
    requires IsSplicePoint(existing, continuation, p) && EndsLastAt(prefix + existing, continuation, ANCHOR_CHARS[j], q)
    ensures p == q <==> EndsAt(prefix + existing, continuation, ANCHOR_CHARS[j], p)
  {
    if p < |continuation| {
      var m :| 0 <= m < |ANCHOR_CHARS| && EndsLastAt(existing, continuation, ANCHOR_CHARS[m], p);
      ShorterEndsToo(prefix + existing, continuation, ANCHOR_CHARS[j], ANCHOR_CHARS[m], q);
      EndsUnderPrefix(prefix, existing, continuation, ANCHOR_CHARS[m]);
    }
  }

  /** A prefix leaves the splice alone exactly when each anchor reaching into it ends where the answer alone is spliced. */
  lemma SplicePointUnderPrefixIff(prefix: string, existing: string, continuation: string)
    ensures SplicePoint(prefix + existing, continuation) == SplicePoint(existing, continuation)
            <==> LongAnchorsEndThere(prefix, existing, continuation)
  {
    hide AnchorFound, EndsAt, SplicePoint;
    var saved := prefix + existing;
    SplicePointMeaning(existing, continuation);
    SplicePointMeaning(saved, continuation);
    var p, q := SplicePoint(existing, continuation), SplicePoint(saved, continuation);
    if long :| 0 <= long < |ANCHOR_CHARS| && ANCHOR_CHARS[long] > |existing| && AnchorFound(saved, continuation, ANCHOR_CHARS[long]) {
      var j :| 0 <= j < |ANCHOR_CHARS| && EndsLastAt(saved, continuation, ANCHOR_CHARS[j], q)
               && forall i :: 0 <= i < j ==> !AnchorFound(saved, continuation, ANCHOR_CHARS[i]);
      assert j <= long;
      LongAnchorDecides(prefix, existing, continuation, j, p, q);
      if p == q {
        forall i | 0 <= i < |ANCHOR_CHARS| && ANCHOR_CHARS[i] > |existing| && AnchorFound(saved, continuation, ANCHOR_CHARS[i])
          ensures EndsAt(saved, continuation, ANCHOR_CHARS[i], p)
        {
          ShorterEndsToo(saved, continuation, ANCHOR_CHARS[j], ANCHOR_CHARS[i], p);
        }
      } else {
        assert AnchorFound(saved, continuation, ANCHOR_CHARS[j]) by { EndsAtIsOccurrence(saved, continuation, ANCHOR_CHARS[j]); }
      }
    } else {
      ShortAnchorsOnly(prefix, existing, continuation, q);
      SplicePointIsUnique(existing, continuation, p, q);
    }
  }

  /** No overlap reaches beyond the splice point of a text with the same tails. */
  lemma OverlapWithinSplice(spliced: string, stripped: string, continuation: string, k: nat, p: nat)
    requires forall n: nat :: n <= |spliced| && n <= |stripped| ==> Tail(spliced, n) == Tail(stripped, n)
    requires IsSplicePoint(spliced, continuation, p) && OverlapsAt(stripped, continuation, k)
    ensures k <= p
  {
    hide AnchorFound;
    if p < |continuation| {
      var j :| 0 <= j < |ANCHOR_CHARS| && EndsLastAt(spliced, continuation, ANCHOR_CHARS[j], p);
      if ANCHOR_CHARS[j] <= k {
        assert EndsAt(stripped, continuation, k, k);
        ShorterEndsToo(stripped, continuation, k, ANCHOR_CHARS[j], k);
        assert EndsAt(spliced, continuation, ANCHOR_CHARS[j], k);
      }
    }
  }

  /** Strip and splice cut at the same place exactly when all that precedes the splice point is itself an overlap. */
  lemma SpliceMeetsOverlapIff(spliced: string, stripped: string, continuation: string)
    requires forall n: nat :: n <= |spliced| && n <= |stripped| ==> Tail(spliced, n) == Tail(stripped, n)
    ensures LongestOverlap(stripped, continuation) == SplicePoint(spliced, continuation) <==>
            && 0 <= SplicePoint(spliced, continuation) <= OVERLAP_CHARS
            && OverlapsAt(stripped, continuation, SplicePoint(spliced, continuation))
  {
    hide SplicePoint, OverlapAtMost, LongestOverlap, IsSplicePoint;
    SplicePointMeaning(spliced, continuation);
    OverlapWithinSplice(spliced, stripped, continuation, LongestOverlap(stripped, continuation), SplicePoint(spliced, continuation));
  }

  /** How a stop behind a prefix can still cut the buffer where the flush would. */
  ghost predicate SameCut(prefix: string, existing: string, pending: string, isRewrite: bool) {
    var saved := prefix + existing;
    var seen, rewritten := isRewrite || LooksRestarted(saved, pending), LooksRestarted(existing, pending);
    if seen && rewritten then LongAnchorsEndThere(prefix, existing, pending)
    else if !seen && !rewritten then LongestOverlap(saved, pending) <= |existing|
    else
      var spliced, stripped := if rewritten then existing else saved, if rewritten then saved else existing;
      && 0 <= SplicePoint(spliced, pending) <= OVERLAP_CHARS
      && OverlapsAt(stripped, pending, SplicePoint(spliced, pending))
  }

  lemma SameSuffix(text: string, a: nat, b: nat)
    requires a <= |text| && b <= |text|
    ensures text[a..] == text[b..] <==> a == b
  {
    assert |text[a..]| == |text| - a && |text[b..]| == |text| - b;
  }

  /**
   The saved answer is the streamed one behind a search trace. A stop then takes what the flush
   would publish if and only if: when both recognise a rewrite, no anchor reaches into the trace, or
   each that does ends where the answer alone is spliced; when neither does, the overlap does not
   reach into the trace; when only one does, everything before the splice point is itself an overlap.
   */
  lemma StopAgreesUnderPrefixIff(prefix: string, existing: string, pending: string, isRewrite: bool)
    requires isRewrite ==> LooksRestarted(existing, pending)
    ensures Salvage(prefix + existing, pending, isRewrite) == Contribution(existing, pending) <==>
            pending == "" || SameCut(prefix, existing, pending, isRewrite)
  {
    hide SplicePoint, SplicedOrNothing, OverlapAtMost, LongestOverlap, LooksRestarted, LongAnchorsEndThere, IsSplicePoint;
    var saved := prefix + existing;
    if pending == "" {
      NothingFollowsNothing(existing);
    } else {
      SplicePointMeaning(existing, pending);
      SplicePointMeaning(saved, pending);
      var p, q := SplicePoint(existing, pending), SplicePoint(saved, pending);
      var k, n := LongestOverlap(saved, pending), LongestOverlap(existing, pending);
      SameSuffix(pending, p, q);
      SameSuffix(pending, k, n);
      SameSuffix(pending, k, p);
      SameSuffix(pending, q, n);
      SplicePointUnderPrefixIff(prefix, existing, pending);
      OverlapUnderPrefixIff(prefix, existing, pending);
      forall n: nat | n <= |existing| ensures Tail(saved, n) == Tail(existing, n) {
        TailUnderPrefix(prefix, existing, n);
      }
      SpliceMeetsOverlapIff(existing, saved, pending);
      SpliceMeetsOverlapIff(saved, existing, pending);
    }
  }

  lemma NothingFollowsNothing(existing: string)
    ensures Contribution(existing, "") == ""
  {
    SplicePointMeaning(existing, "");
  }

  /**
   Without the flag, any trace that differs in its first character hides a rewrite from the restart
   test. A rewrite stopped before it reaches the last character of the answer is then saved a second
   time, although the flush would drop it.
   */
  lemma StopMissesRewriteUnderPrefix(prefix: string, existing: string, pending: string)
    requires LooksRestarted(existing, pending) && existing[|existing| - 1] !in pending
    requires prefix != "" && prefix[0] != pending[0]
    ensures Contribution(existing, pending) == ""
    ensures Salvage(prefix + existing, pending, true) == ""
    ensures Salvage(prefix + existing, pending, false) == pending != ""
  {
    hide SpliceFrom, LastOccurrence, OverlapAtMost;
    var saved := prefix + existing;
    assert saved[|saved| - 1] == existing[|existing| - 1];
    AnchorsEndingElsewhere(existing, pending);
    AnchorsEndingElsewhere(saved, pending);
    assert saved[..RESTART_PREFIX_CHARS][0] != pending[..RESTART_PREFIX_CHARS][0];
    forall k: nat | 0 < k <= OverlapCap(saved, pending)
      ensures !OverlapsAt(saved, pending, k)
    {
      assert saved[|saved| - k..][k - 1] != pending[..k][k - 1];
    }
  }

  /** The smallest such case: the rewrite has reproduced all but the last character. */
  lemma StopMissesRewriteExample()
    ensures exists existing: string, pending: string ::
              Contribution(existing, pending) == "" && Salvage("t" + existing, pending, false) == pending != ""
  {
    hide Contribution, Salvage;
    var pending := seq(RESTART_PREFIX_CHARS, _ => 'a');
    var existing := pending + "b";
    assert existing[..RESTART_PREFIX_CHARS] == pending == pending[..RESTART_PREFIX_CHARS];
    StopMissesRewriteUnderPrefix("t", existing, pending);
  }

  /** A rewrite that never reaches the last character of the answer cannot be spliced. */
  lemma AnchorsEndingElsewhere(existing: string, continuation: string)
    requires existing != "" && existing[|existing| - 1] !in continuation
    ensures Spliced(existing, continuation).None?
  {
    hide LastOccurrence;
    forall j | 0 <= j < |ANCHOR_CHARS|
      ensures !AnchorFound(existing, continuation, ANCHOR_CHARS[j])
    {
      var n := ANCHOR_CHARS[j];
      if n <= |existing| {
        forall p: nat
          ensures !OccursAt(continuation, Tail(existing, n), p)
        {
          if p + n <= |continuation| {
            assert continuation[p..p + n][n - 1] in continuation;
            assert Tail(existing, n)[n - 1] == existing[|existing| - 1];
          }
        }
      }
    }
    SpliceFromMeaning(existing, continuation, 0);
  }
}
