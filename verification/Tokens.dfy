/** Token estimates and the text trimming built on them. */
module Tokens {
  import opened Basics

  predicate IsCjk(c: char) {
    var n := c as int;
    || 0x3000 <= n <= 0x30FF   // punctuation, Hiragana, Katakana
    || 0x3400 <= n <= 0x4DBF   // extension A
    || 0x4E00 <= n <= 0x9FFF   // unified ideographs
    || 0xF900 <= n <= 0xFAFF   // compatibility ideographs
    || 0xFF00 <= n <= 0xFFEF   // half- and full-width forms
  }

  function CjkCount(text: string): (n: nat)
    ensures n <= |text|
  {
    if |text| == 0 then 0 else (if IsCjk(text[0]) then 1 else 0) + CjkCount(text[1..])
  }

  /** ceil(cjk / 1.5 + other / 4) over the common denominator 12, and at least 1 for any text. */
  function Estimate(text: string): (n: nat)
    ensures n == 0 <==> text == ""
  {
    if text == "" then 0
    else
      var cjk := CjkCount(text);
      Max(1, (8 * cjk + 3 * (|text| - cjk) + 11) / 12)
  }

  lemma {:induction false} CjkCountAdds(a: string, b: string)
    ensures CjkCount(a + b) == CjkCount(a) + CjkCount(b)
  {
    if a == "" {
      assert a + b == b;
    } else {
      CjkCountAdds(a[1..], b);
      assert (a + b)[1..] == a[1..] + b;
    }
  }

  /** The code point ranges of CJK punctuation, kana, ideographs, compatibility ideographs and wide forms. */
  const CJK_RANGES: seq<(int, int)> :=
    [(0x3000, 0x30FF), (0x3400, 0x4DBF), (0x4E00, 0x9FFF), (0xF900, 0xFAFF), (0xFF00, 0xFFEF)]

  predicate InRange(code: int, r: (int, int)) { r.0 <= code <= r.1 }

  ghost predicate InCjkRange(c: char) { exists r :: r in CJK_RANGES && InRange(c as int, r) }

  /** The positions of CJK characters. */
  ghost function CjkPositions(text: string): set<int> {
    set i | 0 <= i < |text| && InCjkRange(text[i])
  }

  lemma IsCjkInRange(c: char)
    ensures IsCjk(c) <==> InCjkRange(c)
  {
    forall j | 0 <= j < |CJK_RANGES| && InRange(c as int, CJK_RANGES[j])
      ensures InCjkRange(c)
    {
      assert CJK_RANGES[j] in CJK_RANGES;
    }
    assert IsCjk(c) <==> exists j :: 0 <= j < |CJK_RANGES| && InRange(c as int, CJK_RANGES[j]) by {
      assert IsCjk(c) ==> InRange(c as int, CJK_RANGES[0]) || InRange(c as int, CJK_RANGES[1]) || InRange(c as int, CJK_RANGES[2])
                          || InRange(c as int, CJK_RANGES[3]) || InRange(c as int, CJK_RANGES[4]);
    }
  }

  lemma {:induction false} CjkCountIsPositions(text: string)
    ensures CjkCount(text) == |CjkPositions(text)|
  {
    hide IsCjk, InCjkRange;
    if text == "" {
      assert CjkPositions(text) == {};
    } else {
      var n := |text| - 1;
      var front, last := text[..n], text[n];
      CjkCountIsPositions(front);
      CjkCountAdds(front, [last]);
      assert text == front + [last] && CjkCount([last]) == if IsCjk(last) then 1 else 0;
      IsCjkInRange(last);
      assert CjkPositions(text) == if IsCjk(last) then CjkPositions(front) + {n} else CjkPositions(front);
    }
  }

  /** The estimate of a text is the least number of tokens, at least one, that covers 2/3 for each CJK character and 1/4 for each other. */
  lemma EstimateIsLeast(text: string)
    requires text != ""
    ensures var c := |CjkPositions(text)|;
            var twelfths := 8 * c + 3 * (|text| - c);
            && 1 <= Estimate(text) && 12 * Estimate(text) >= twelfths
            && forall k :: 1 <= k && 12 * k >= twelfths ==> Estimate(text) <= k
  {
    CjkCountIsPositions(text);
  }

  /** Text in one script: three CJK characters for two tokens, four others for one, rounded up. */
  lemma OneScriptCosts(text: string)
    requires text != ""
    ensures (forall i :: 0 <= i < |text| ==> IsCjk(text[i])) ==> 3 * Estimate(text) - 2 <= 2 * |text| <= 3 * Estimate(text)
    ensures (forall i :: 0 <= i < |text| ==> !IsCjk(text[i])) ==> 4 * Estimate(text) - 3 <= |text| <= 4 * Estimate(text)
  {
    OneScriptCounts(text);
  }

  lemma {:induction false} OneScriptCounts(text: string)
    ensures (forall i :: 0 <= i < |text| ==> IsCjk(text[i])) ==> CjkCount(text) == |text|
    ensures (forall i :: 0 <= i < |text| ==> !IsCjk(text[i])) ==> CjkCount(text) == 0
  {
    if text != "" {
      OneScriptCounts(text[1..]);
    }
  }

  /** Joining texts never costs more than the parts, and no part costs more than the whole. */
  lemma EstimateSubadditive(a: string, b: string)
    ensures Estimate(a) <= Estimate(a + b)
    ensures Estimate(b) <= Estimate(a + b)
    ensures Estimate(a + b) <= Estimate(a) + Estimate(b)
  {
    CjkCountAdds(a, b);
  }

  lemma SliceCostsLess(text: string, lo: nat, hi: nat)
    requires lo <= hi <= |text|
    ensures Estimate(text[lo..hi]) <= Estimate(text)
  {
    EstimateSubadditive(text[..lo], text[lo..]);
    EstimateSubadditive(text[lo..hi], text[hi..]);
    assert text == text[..lo] + text[lo..] && text[lo..] == text[lo..hi] + text[hi..];
  }

  // ---- White space ----------------------------------------------------------------

  predicate IsSpace(c: char) {
    var n := c as int;
    || 0x09 <= n <= 0x0D || 0x1C <= n <= 0x20 || n == 0x85 || n == 0xA0 || n == 0x1680
    || 0x2000 <= n <= 0x200A || n == 0x2028 || n == 0x2029 || n == 0x202F || n == 0x205F || n == 0x3000
  }

  function LeadingSpaces(text: string): (n: nat)
    ensures n <= |text|
  {
    if text != "" && IsSpace(text[0]) then 1 + LeadingSpaces(text[1..]) else 0
  }

  function TrailingSpaces(text: string): (n: nat)
    ensures n <= |text|
  {
    if text != "" && IsSpace(text[|text| - 1]) then 1 + TrailingSpaces(text[..|text| - 1]) else 0
  }

  function TrimLeft(text: string): string { text[LeadingSpaces(text)..] }

  function TrimRight(text: string): string { text[..|text| - TrailingSpaces(text)] }

  predicate IsSuffix(part: string, text: string) {
    |part| <= |text| && text[|text| - |part|..] == part
  }

  // ---- Shrinking ------------------------------------------------------------------

  /** The share of a smaller count out of a larger one is a proper share. */
  lemma ProperShare(part: nat, whole: nat, n: nat)
    requires part < whole && 0 < n
    ensures part * n / whole < n
  {
    var product := part * n;
    assert product < n * whole by { MoreOfSame(part, whole, n); }
    DivisionRoundsDown(product, whole);
    CancelFactor(product / whole, n, whole);
  }

  lemma MoreOfSame(a: nat, b: nat, factor: nat)
    requires a < b && 0 < factor
    ensures a * factor < factor * b
  {
    assert factor * b == a * factor + (b - a) * factor;
  }

  lemma DivisionRoundsDown(x: nat, whole: nat)
    requires whole > 0
    ensures x / whole * whole <= x
  {
  }

  lemma CancelFactor(a: nat, b: nat, factor: nat)
    requires a * factor < b * factor
    ensures a < b
  {
  }

  /**
   Cut from one end until the estimate fits. The length of a cut follows the script mix of the text;
   the source computes it in floating point, so any positive cut up to the exact share is allowed.
   */
  method ShrinkToBudget(text: string, maxTokens: int, keepHead: bool) returns (r: string)
    ensures Estimate(r) <= Max(maxTokens, 0)
    ensures if keepHead then r <= text else IsSuffix(r, text)
    ensures maxTokens > 0 && Estimate(text) <= maxTokens ==> r == text
    ensures maxTokens > 0 && text != "" ==> r != ""
  {
    hide Estimate;
    if maxTokens <= 0 {
      return "";
    }
    r := text;
    while r != "" && Estimate(r) > maxTokens
      invariant if keepHead then r <= text else IsSuffix(r, text)
      invariant Estimate(text) <= maxTokens ==> r == text
      invariant text != "" ==> r != ""
      decreases |r|
    {
      var tokens := Estimate(r);
      ProperShare(tokens - maxTokens, tokens, |r|);
      SingleCharCostsOne(r);
      var share := (tokens - maxTokens) * |r| / tokens;
      assert share < |r| && |r| > 1;
      var longest := if share < 1 then 1 else share;
      var cut: nat :| 1 <= cut <= longest;
      r := if keepHead then r[..|r| - cut] else r[cut..];
    }
  }

  lemma SingleCharCostsOne(text: string)
    ensures |text| == 1 ==> Estimate(text) == 1
  {
  }

  // ---- Trimming -------------------------------------------------------------------

  const ELLIPSIS := "..."
  const OMISSION := "\n\U{2026}\n"
  const SEPARATOR := "\n\n"

  lemma MarkerCosts()
    ensures Estimate(ELLIPSIS) == 1 && Estimate(OMISSION) == 1 && Estimate(SEPARATOR) == 1
  {
    assert CjkCount("...") == 0 by {
      assert "..."[1..] == ".." && ".."[1..] == "." && "."[1..] == "";
    }
    assert CjkCount("\n\U{2026}\n") == 0 by {
      assert OMISSION[1..] == "\U{2026}\n" && "\U{2026}\n"[1..] == "\n" && "\n"[1..] == "";
    }
    assert CjkCount("\n\n") == 0 by {
      assert "\n\n"[1..] == "\n" && "\n"[1..] == "";
    }
  }

  /** Characters to keep for a token budget: the exact share of the text, or one less from rounding, at least 1. */
  method CharBudget(text: string, maxTokens: int) returns (chars: nat)
    ensures chars == 0 <==> text == "" || maxTokens <= 0
    ensures text != "" && maxTokens > 0 ==>
              var share := maxTokens * |text| / Estimate(text);
              Max(1, share - 1) <= chars <= Max(1, share)
  {
    if text == "" || maxTokens <= 0 {
      return 0;
    }
    var share := maxTokens * |text| / Estimate(text);
    chars :| 1 <= chars && Max(1, share - 1) <= chars <= Max(1, share);
  }

  /** A text, an opening of it, or an opening marked by an ellipsis. */
  predicate OpeningOf(r: string, whole: string) {
    || r <= whole
    || (|r| >= |ELLIPSIS| && r[|r| - |ELLIPSIS|..] == ELLIPSIS && r[..|r| - |ELLIPSIS|] <= whole)
  }

  /** The first n characters are an opening, then comes the marker, then the end of the text. */
  predicate CutAt(r: string, whole: string, n: nat) {
    && n + |OMISSION| <= |r| && r[..n] <= whole
    && r[n..n + |OMISSION|] == OMISSION && IsSuffix(r[n + |OMISSION|..], whole)
  }

  /** The end of a text, or an opening, a marker and the end. */
  ghost predicate EndsOf(r: string, whole: string) { IsSuffix(r, whole) || exists n: nat :: CutAt(r, whole, n) }

  /** The text if it fits, else its opening and an ellipsis. */
  method TrimText(norm: string -> string, text: string, maxTokens: int) returns (r: string)
    ensures Estimate(r) <= Max(maxTokens, 0)
    ensures maxTokens > 0 && Estimate(norm(text)) <= maxTokens ==> r == norm(text)
    ensures maxTokens > 0 && norm(text) != "" ==> r != ""
    ensures OpeningOf(r, norm(text))
    ensures Estimate(norm(text)) > maxTokens > 1 ==> |r| >= |ELLIPSIS| && r[|r| - |ELLIPSIS|..] == ELLIPSIS
  {
    hide Estimate;
    if maxTokens <= 0 {
      return "";
    }
    var normalized := norm(text);
    if Estimate(normalized) <= maxTokens {
      return normalized;
    }
    MarkerCosts();
    if maxTokens <= 1 {
      r := ShrinkToBudget(normalized, maxTokens, true);
      return;
    }
    var bodyBudget := maxTokens - 1;
    var maxChars := CharBudget(normalized, bodyBudget);
    var opening := if maxChars <= |normalized| then normalized[..maxChars] else normalized;
    var body := ShrinkToBudget(opening, bodyBudget, true);
    var trimmed := TrimRight(body);
    SliceCostsLess(body, 0, |trimmed|);
    EstimateSubadditive(trimmed, ELLIPSIS);
    assert trimmed <= normalized;
    return trimmed + ELLIPSIS;
  }

  /** A long user turn keeps a little of its opening and more of its end, where the request usually is. */
  method TrimUserText(norm: string -> string, text: string, maxTokens: int)
    returns (r: string, ghost head: string, ghost tail: string)
    ensures Estimate(r) <= Max(maxTokens, 0)
    ensures Estimate(norm(text)) <= maxTokens ==> r == norm(text)
    ensures Estimate(norm(text)) > maxTokens ==>
              && head <= norm(text) && IsSuffix(tail, norm(text))
              && r == if head == "" then tail else head + OMISSION + tail
    ensures EndsOf(r, norm(text))
    ensures Estimate(norm(text)) > maxTokens > 2 ==>
              var usable := maxTokens - 1;
              Estimate(tail) <= Max(1, 7 * usable / 10) && Estimate(head) <= usable - Max(1, 7 * usable / 10 - 1)
  {
    hide Estimate;
    var normalized := norm(text);
    if Estimate(normalized) <= maxTokens {
      return normalized, "", "";
    }
    MarkerCosts();
    var usable := maxTokens - 1;
    if usable <= 1 {
      r := ShrinkToBudget(normalized, maxTokens, false);
      return r, "", r;
    }
    var seventy := 7 * usable / 10;
    var tailTokens: nat :| 1 <= tailTokens && seventy - 1 <= tailTokens <= seventy;
    var headTokens := usable - tailTokens;
    var opening := Opening(normalized, headTokens);
    var closing := Closing(normalized, tailTokens);
    head, tail := opening, closing;
    if opening == "" {
      return closing, head, tail;
    }
    EstimateSubadditive(opening, OMISSION);
    EstimateSubadditive(opening + OMISSION, closing);
    r := opening + OMISSION + closing;
    assert CutAt(r, normalized, |opening|);
  }

  method Opening(text: string, tokens: nat) returns (r: string)
    requires text != "" && tokens > 0
    ensures r <= text && Estimate(r) <= tokens
  {
    hide Estimate;
    var chars := CharBudget(text, tokens);
    var start := if chars <= |text| then text[..chars] else text;
    var kept := ShrinkToBudget(start, tokens, true);
    r := TrimRight(kept);
    SliceCostsLess(kept, 0, |r|);
  }

  method Closing(text: string, tokens: nat) returns (r: string)
    requires text != "" && tokens > 0
    ensures IsSuffix(r, text) && Estimate(r) <= tokens
  {
    hide Estimate;
    var chars := CharBudget(text, tokens);
    var end := if chars <= |text| then text[|text| - chars..] else text;
    var kept := ShrinkToBudget(end, tokens, false);
    r := TrimLeft(kept);
    assert r == kept[|kept| - |r|..|kept|];
    SliceCostsLess(kept, |kept| - |r|, |kept|);
  }

  /** A generated reference block in front of the user's own request. */
  datatype Referenced = Referenced(reference: string, request: string)

  /** Trimmed reference material, a separator and the whole request. */
  ghost predicate ReferenceAndRequest(norm: string -> string, r: string, parts: Referenced) {
    && IsSuffix(SEPARATOR + parts.request, r)
    && OpeningOf(r[..|r| - |SEPARATOR| - |parts.request|], norm(parts.reference))
  }

  /** What may become of the newest message: its text, an opening, or for a user the end that holds the request. */
  ghost predicate NewestOf(norm: string -> string, split: string -> Option<Referenced>, r: string, content: string, isUser: bool) {
    var whole := norm(content);
    || r == whole
    || (!isUser && OpeningOf(r, norm(whole)))
    || (isUser && split(whole).None? && EndsOf(r, norm(whole)))
    || (isUser && split(whole).Some? &&
        var parts := split(whole).value;
        r == parts.request || EndsOf(r, norm(parts.request)) || ReferenceAndRequest(norm, r, parts))
  }

  /** A request behind reference material that fits the budget survives whole. */
  ghost predicate RequestKept(norm: string -> string, split: string -> Option<Referenced>, r: string, content: string, isUser: bool, maxTokens: int) {
    isUser && Estimate(norm(content)) > maxTokens && split(norm(content)).Some? ==>
      var request := split(norm(content)).value.request;
      && (Estimate(request) < maxTokens ==> IsSuffix(request, r))
      && (Estimate(request) == maxTokens && norm(request) == request ==> r == request)
  }

  /**
   The newest message: the user's own request survives before its generated references. `split`
   recognises the references in front of the normalized text.
   */
  method TrimLatest(norm: string -> string, split: string -> Option<Referenced>, content: string, isUser: bool, maxTokens: int)
    returns (r: string)
    ensures Estimate(r) <= Max(maxTokens, 0)
    ensures Estimate(norm(content)) <= maxTokens ==> r == norm(content)
    ensures NewestOf(norm, split, r, content, isUser)
    ensures RequestKept(norm, split, r, content, isUser, maxTokens)
  {
    hide Estimate;
    var normalized := norm(content);
    if Estimate(normalized) <= maxTokens {
      return normalized;
    }
    if !isUser {
      r := TrimText(norm, normalized, maxTokens);
      return;
    }
    var parts := split(normalized);
    if parts.None? {
      var trimmed, _, _ := TrimUserText(norm, normalized, maxTokens);
      return trimmed;
    }
    var request := parts.value.request;
    var requestTokens := Estimate(request);
    if requestTokens >= maxTokens {
      var trimmed, _, _ := TrimUserText(norm, request, maxTokens);
      return trimmed;
    }
    MarkerCosts();
    var referenceBudget := maxTokens - requestTokens - 1;
    if referenceBudget <= 0 {
      return request;
    }
    var reference := TrimText(norm, parts.value.reference, referenceBudget);
    if reference == "" {
      return request;
    }
    EstimateSubadditive(reference, SEPARATOR);
    EstimateSubadditive(reference + SEPARATOR, request);
    r := reference + SEPARATOR + request;
    assert r == reference + (SEPARATOR + request);
    assert r[..|r| - |SEPARATOR| - |request|] == reference;
  }
}
