/** Choosing the conversation history and assembling the context inside its token budget. */
module Context {
  import opened Basics
  import opened Tokens

  const CONTEXT_BUDGET: nat := 26000
  const RECENT_HISTORY_BUDGET: nat := 7400
  const RECENT_HISTORY_MAX_MESSAGES: nat := 16
  const GUARANTEED_RECENT_MESSAGES: nat := 3
  const ARCHIVE_RECENT_MESSAGES: nat := 12
  const ARCHIVE_RECENT_BUDGET: nat := RECENT_HISTORY_BUDGET
  const PROFILE_BUDGET: nat := 2200
  const PROJECT_BUDGET: nat := 2600
  const SKILLS_BUDGET: nat := 3800
  const FOLLOW_UP_BUDGET: nat := 180
  const TASK_BUDGET: nat := 2600
  const SUMMARY_BUDGET: nat := 2000
  const MEMORY_BUDGET: nat := 1100

  datatype Role = SystemRole | UserRole | AssistantRole

  /** A message; `images` is the token estimate of its images, if it has any. */
  datatype Message = Message(role: Role, content: string, images: Option<nat>)

  function ImageTokens(images: Option<nat>): nat {
    match images case None => 0 case Some(n) => n
  }

  function Cost(m: Message): nat { Estimate(m.content) + ImageTokens(m.images) }

  function Total(messages: seq<Message>): nat {
    if |messages| == 0 then 0 else Cost(messages[0]) + Total(messages[1..])
  }

  lemma {:induction false} TotalAdds(a: seq<Message>, b: seq<Message>)
    ensures Total(a + b) == Total(a) + Total(b)
  {
    if a == [] {
      assert a + b == b;
    } else {
      TotalAdds(a[1..], b);
      assert (a + b)[1..] == a[1..] + b;
    }
  }

  lemma TotalPrepend(m: Message, rest: seq<Message>)
    ensures Total([m] + rest) == Cost(m) + Total(rest)
  {
    assert ([m] + rest)[1..] == rest;
  }

  // ---- Archive split --------------------------------------------------------------

  function TextTotal(messages: seq<Message>): nat {
    if |messages| == 0 then 0 else Estimate(messages[0].content) + TextTotal(messages[1..])
  }

  /** The last k messages form an admissible recent window. */
  predicate Admissible(messages: seq<Message>, k: nat)
    requires k <= |messages|
  {
    k <= 2 || (k <= ARCHIVE_RECENT_MESSAGES && TextTotal(messages[|messages| - k..]) <= ARCHIVE_RECENT_BUDGET)
  }

  lemma {:induction false} SuffixCostsLess(messages: seq<Message>, i: nat, j: nat)
    requires i <= j <= |messages|
    ensures TextTotal(messages[j..]) <= TextTotal(messages[i..])
    decreases j - i
  {
    if i < j {
      SuffixCostsLess(messages, i + 1, j);
      SuffixCost(messages, i);
    }
  }

  lemma SuffixCost(messages: seq<Message>, i: nat)
    requires i < |messages|
    ensures TextTotal(messages[i..]) == Estimate(messages[i].content) + TextTotal(messages[i + 1..])
  {
    assert messages[i..][1..] == messages[i + 1..];
  }

  lemma NothingCosts()
    ensures TextTotal([]) == 0
  {
  }

  /** A window too long to be admissible cannot become so by growing. */
  lemma InadmissibleGrows(messages: seq<Message>, k: nat, longer: nat)
    requires k <= longer <= |messages| && !Admissible(messages, k)
    ensures !Admissible(messages, longer)
  {
    SuffixCostsLess(messages, |messages| - longer, |messages| - k);
  }

  /** Everything before the longest admissible recent window goes to the summary. */
  method SelectArchived(messages: seq<Message>) returns (archived: seq<Message>)
    ensures archived <= messages
    ensures Admissible(messages, |messages| - |archived|)
    ensures forall k :: |messages| - |archived| < k <= |messages| ==> !Admissible(messages, k)
  {
    hide Estimate, TextTotal;
    NothingCosts();
    var n := |messages|;
    if n <= 2 {
      return [];
    }
    var total := 0;
    assert messages[n..] == [];
    for i := n downto 0
      invariant total == TextTotal(messages[i..])
    {
      SuffixCost(messages, i);
      total := total + Estimate(messages[i].content);
    }
    assert messages[0..] == messages && messages[n - n..] == messages;
    if n <= ARCHIVE_RECENT_MESSAGES && total <= ARCHIVE_RECENT_BUDGET {
      return [];
    }
    var recentStart, recentTokens := n, 0;
    while recentStart > 0
      invariant 0 <= recentStart <= n
      invariant recentTokens == TextTotal(messages[recentStart..])
      invariant Admissible(messages, n - recentStart)
    {
      var index, recentCount := recentStart - 1, n - recentStart;
      var messageTokens := Estimate(messages[index].content);
      SuffixCost(messages, index);
      if recentCount >= 2
         && (recentCount >= ARCHIVE_RECENT_MESSAGES || recentTokens + messageTokens > ARCHIVE_RECENT_BUDGET) {
        assert !Admissible(messages, recentCount + 1);
        forall k | recentCount < k <= n
          ensures !Admissible(messages, k)
        {
          InadmissibleGrows(messages, recentCount + 1, k);
        }
        break;
      }
      recentStart, recentTokens := index, recentTokens + messageTokens;
    }
    archived := messages[..recentStart];
  }

  // ---- Recent history -------------------------------------------------------------

  predicate NonEmpty(norm: string -> string, m: Message) {
    norm(m.content) != "" || m.images.Some?
  }

  /**
   A selected message keeps the role; its text is whole or cheaper, its images whole or gone. The text
   of any but the newest is an opening of the original, marked where it was cut.
   */
  ghost predicate SelectedFrom(norm: string -> string, selected: Message, original: Message, newest: bool) {
    var whole := norm(norm(original.content));
    && selected.role == original.role
    && (selected.content == whole || Estimate(selected.content) < Estimate(whole))
    && (selected.images == original.images || selected.images.None?)
    && (!newest ==> OpeningOf(selected.content, whole))
  }

  /** `picks` are the positions the selection was made from, in order. */
  ghost predicate IsSelection(norm: string -> string, messages: seq<Message>, selected: seq<Message>, picks: seq<nat>) {
    && |selected| == |picks|
    && (forall j :: 0 <= j < |picks| ==>
          && picks[j] < |messages| && NonEmpty(norm, messages[picks[j]])
          && SelectedFrom(norm, selected[j], messages[picks[j]], j == |picks| - 1))
    && (forall i, j :: 0 <= i < j < |picks| ==> picks[i] < picks[j])
  }

  ghost predicate IsNewest(norm: string -> string, messages: seq<Message>, p: nat) {
    && p < |messages| && NonEmpty(norm, messages[p])
    && forall q :: p < q < |messages| ==> !NonEmpty(norm, messages[q])
  }

  /** `kept` are the normalized non-empty messages, `at` says where each one came from. */
  ghost predicate IsHistory(norm: string -> string, messages: seq<Message>, kept: seq<Message>, at: seq<nat>) {
    && |kept| == |at|
    && (forall i :: 0 <= i < |at| ==>
          at[i] < |messages| && NonEmpty(norm, messages[at[i]])
          && kept[i] == messages[at[i]].(content := norm(messages[at[i]].content)))
    && (forall i, j :: 0 <= i < j < |at| ==> at[i] < at[j])
  }

  /** The normalized messages that are not empty. */
  function NonEmptyOnes(norm: string -> string, messages: seq<Message>): seq<Message> {
    if |messages| == 0 then []
    else
      var rest, last := NonEmptyOnes(norm, messages[..|messages| - 1]), messages[|messages| - 1];
      if NonEmpty(norm, last) then rest + [last.(content := norm(last.content))] else rest
  }

  function WholeOf(norm: string -> string, m: Message): Message { m.(content := norm(m.content)) }

  /** From position i on, the selection is the history itself, every text and image whole. */
  ghost predicate WholeFrom(norm: string -> string, kept: seq<Message>, selected: seq<Message>, i: int) {
    0 <= i <= |kept| && |selected| == |kept| - i && forall j :: 0 <= j < |selected| ==> selected[j] == WholeOf(norm, kept[i + j])
  }

  /** The message fits its allocation, and its images fit what the text leaves. */
  predicate FitsHere(norm: string -> string, m: Message, allocation: int, remaining: int) {
    && NonEmpty(norm, m) && Estimate(norm(m.content)) <= allocation
    && (m.images.Some? ==> m.images.value <= remaining - Estimate(norm(m.content)))
  }

  /** The messages just before the newest share what is left evenly; all older ones may use all of it. */
  function Allocation(n: nat, guaranteed: nat, i: nat, remaining: int): int {
    var slots := i - (n - guaranteed) + 1;
    if slots >= 1 then (remaining + slots - 1) / slots else remaining
  }

  /** With three guaranteed messages the one before the newest gets half of what is left, rounded up, and any older one all of it. */
  lemma AllocationShares(n: nat, maxMessages: int, i: nat, remaining: int)
    requires maxMessages > 0 && i + 2 <= n
    ensures Allocation(n, Guaranteed(n, maxMessages), i, remaining)
            == if n >= 3 && maxMessages >= 3 && i == n - 2 then (remaining + 1) / 2 else remaining
  {
  }

  predicate FitsFrom(norm: string -> string, kept: seq<Message>, guaranteed: nat, i: int, remaining: int)
    requires i < |kept|
    decreases i + 1
  {
    if i < 0 then true
    else
      && remaining > 0
      && FitsHere(norm, kept[i], Allocation(|kept|, guaranteed, i, remaining), remaining)
      && FitsFrom(norm, kept, guaranteed, i - 1, remaining - Cost(WholeOf(norm, kept[i])))
  }

  /** Whole so far, and everything older still fits. */
  ghost predicate WholeAndFits(norm: string -> string, kept: seq<Message>, guaranteed: nat, selected: seq<Message>, i: int, remaining: int)
    requires i < |kept|
  {
    WholeFrom(norm, kept, selected, i + 1) && FitsFrom(norm, kept, guaranteed, i, remaining)
  }

  /** Taking the message at i keeps the whole-and-fits question open for the older ones. */
  lemma WholeAndFitsStep(norm: string -> string, kept: seq<Message>, guaranteed: nat, i: nat, remaining: int,
                         selected: seq<Message>, selected': seq<Message>, remaining': int)
    requires i < |kept| && |selected| <= |kept| - 1 - i && remaining > 0
    requires selected' == selected || (|selected'| == |selected| + 1 && selected'[1..] == selected)
    requires var fits := FitsHere(norm, kept[i], Allocation(|kept|, guaranteed, i, remaining), remaining);
             && (fits <==> selected' == [WholeOf(norm, kept[i])] + selected)
             && (fits ==> remaining' == remaining - Cost(WholeOf(norm, kept[i])))
    ensures WholeAndFits(norm, kept, guaranteed, selected', i - 1, remaining')
            <==> WholeAndFits(norm, kept, guaranteed, selected, i, remaining)
  {
    hide FitsHere, Cost, WholeFrom;
    WholeStep(norm, kept, selected, selected', i);
  }

  function Guaranteed(n: nat, maxMessages: int): int { Min(Min(maxMessages, GUARANTEED_RECENT_MESSAGES), n) }

  /** When nothing of a history has to be cut: few enough messages, and each fits its own allocation. */
  predicate FitsWhole(norm: string -> string, kept: seq<Message>, budget: int, maxMessages: int)
    requires maxMessages > 0
  {
    if kept == [] then true
    else
    var newest := kept[|kept| - 1];
    && |kept| <= maxMessages
    && NonEmpty(norm, newest) && Estimate(norm(newest.content)) <= budget
    && FitsFrom(norm, kept, Guaranteed(|kept|, maxMessages), |kept| - 2, budget - Cost(WholeOf(norm, newest)))
  }

  lemma WholeStep(norm: string -> string, kept: seq<Message>, selected: seq<Message>, selected': seq<Message>, i: nat)
    requires i < |kept| && |selected| <= |kept| - 1 - i
    requires selected' == selected || (|selected'| == |selected| + 1 && selected'[1..] == selected)
    ensures WholeFrom(norm, kept, selected', i) <==>
            WholeFrom(norm, kept, selected, i + 1) && selected' == [WholeOf(norm, kept[i])] + selected
  {
    if WholeFrom(norm, kept, selected', i) {
      assert selected' == [selected'[0]] + selected;
      forall j | 0 <= j < |selected| ensures selected[j] == WholeOf(norm, kept[i + 1 + j]) {
        assert selected[j] == selected'[j + 1];
      }
    }
  }

  /** Every kept message from position i on whose text survives normalization has been picked. */
  ghost predicate Covered(norm: string -> string, kept: seq<Message>, at: seq<nat>, picks: seq<nat>, i: int) {
    |kept| == |at| && forall j :: 0 <= j < |kept| && i <= j && norm(kept[j].content) != "" ==> at[j] in picks
  }

  method NormalizeHistory(norm: string -> string, messages: seq<Message>)
    returns (kept: seq<Message>, ghost at: seq<nat>)
    ensures IsHistory(norm, messages, kept, at)
    ensures |kept| == |at|
    ensures kept != [] ==> IsNewest(norm, messages, at[|at| - 1])
    ensures kept == [] ==> forall q :: 0 <= q < |messages| ==> !NonEmpty(norm, messages[q])
    ensures Complete(norm, messages, at)
    ensures kept == NonEmptyOnes(norm, messages)
  {
    hide IsHistory, IsNewest, Complete;
    kept, at := [], [];
    EmptyHistory(norm);
    assert messages[..0] == [];
    for n := 0 to |messages|
      invariant IsHistory(norm, messages[..n], kept, at) && Complete(norm, messages[..n], at)
      invariant kept == NonEmptyOnes(norm, messages[..n])
    {
      assert messages[..n + 1][..n] == messages[..n];
      var m := messages[n].(content := norm(messages[n].content));
      assert messages[..n + 1] == messages[..n] + [messages[n]];
      if m.content != "" || m.images.Some? {
        HistoryExtends(norm, messages[..n], messages[n], kept, at);
        kept, at := kept + [m], at + [n];
      } else {
        HistorySkips(norm, messages[..n], messages[n], kept, at);
      }
    }
    assert messages[..|messages|] == messages;
    LastKeptIsNewest(norm, messages, kept, at);
  }

  ghost predicate Complete(norm: string -> string, messages: seq<Message>, at: seq<nat>) {
    forall q :: 0 <= q < |messages| && NonEmpty(norm, messages[q]) ==> q in at
  }

  lemma EmptyHistory(norm: string -> string)
    ensures IsHistory(norm, [], [], []) && Complete(norm, [], [])
  {
  }

  lemma HistoryExtends(norm: string -> string, messages: seq<Message>, next: Message, kept: seq<Message>, at: seq<nat>)
    requires IsHistory(norm, messages, kept, at) && Complete(norm, messages, at) && NonEmpty(norm, next)
    ensures IsHistory(norm, messages + [next], kept + [next.(content := norm(next.content))], at + [|messages|])
    ensures Complete(norm, messages + [next], at + [|messages|])
  {
    var at' := at + [|messages|];
    assert at'[|at|] == |messages|;
    forall q | 0 <= q < |messages + [next]| && NonEmpty(norm, (messages + [next])[q])
      ensures q in at'
    {
      if q < |messages| {
        assert (messages + [next])[q] == messages[q] && q in at;
      }
    }
  }

  lemma HistorySkips(norm: string -> string, messages: seq<Message>, next: Message, kept: seq<Message>, at: seq<nat>)
    requires IsHistory(norm, messages, kept, at) && Complete(norm, messages, at) && !NonEmpty(norm, next)
    ensures IsHistory(norm, messages + [next], kept, at) && Complete(norm, messages + [next], at)
  {
  }

  lemma LastKeptIsNewest(norm: string -> string, messages: seq<Message>, kept: seq<Message>, at: seq<nat>)
    requires IsHistory(norm, messages, kept, at) && Complete(norm, messages, at)
    ensures kept != [] ==> IsNewest(norm, messages, at[|at| - 1])
    ensures kept == [] ==> forall q :: 0 <= q < |messages| ==> !NonEmpty(norm, messages[q])
    ensures |kept| == |at|
  {
  }

  /** The selection built backwards from the newest message. */
  ghost predicate Partial(norm: string -> string, messages: seq<Message>, selected: seq<Message>, picks: seq<nat>,
                          budget: int, remaining: int)
  {
    && IsSelection(norm, messages, selected, picks)
    && |selected| == |picks| > 0
    && IsNewest(norm, messages, picks[|picks| - 1])
    && Total(selected) == budget - remaining
    && (remaining >= 0 || |selected| == 1)
  }

  /** Put one older message in front: trimmed text first, then its images if they still fit. */
  method TakeOlder(norm: string -> string, messages: seq<Message>, original: Message, ghost position: nat, allocation: int,
                   selected: seq<Message>, ghost picks: seq<nat>, ghost budget: int, remaining: int)
    returns (selected': seq<Message>, ghost picks': seq<nat>, remaining': int)
    requires Partial(norm, messages, selected, picks, budget, remaining) && 0 < allocation <= remaining
    requires position < picks[0] && position < |messages| && NonEmpty(norm, messages[position])
    requires original == messages[position].(content := norm(messages[position].content))
    ensures Partial(norm, messages, selected', picks', budget, remaining')
    ensures remaining' >= 0
    ensures |selected'| <= |selected| + 1
    ensures picks'[0] >= position && selected'[|selected'| - 1] == selected[|selected| - 1]
    ensures picks' == [position] + picks || (picks' == picks && norm(original.content) == "")
    ensures selected' == selected || (|selected'| == |selected| + 1 && selected'[1..] == selected)
    ensures FitsHere(norm, original, allocation, remaining) <==> selected' == [WholeOf(norm, original)] + selected
    ensures FitsHere(norm, original, allocation, remaining) ==> remaining' == remaining - Cost(WholeOf(norm, original))
    ensures original.images.None? ==> remaining' >= remaining - allocation
  {
    hide Estimate, IsNewest, IsSelection, Total;
    var content := TrimText(norm, original.content, allocation);
    if content == "" && original.images.None? {
      return selected, picks, remaining;
    }
    remaining' := remaining - Estimate(content);
    var images: Option<nat> := None;
    if original.images.Some? && original.images.value <= remaining' {
      images := original.images;
      remaining' := remaining' - original.images.value;
    }
    var m := Message(original.role, content, images);
    assert SelectedFrom(norm, m, messages[position], false);
    PartialPrepend(norm, messages, selected, picks, budget, remaining, m, position);
    selected', picks' := [m] + selected, [position] + picks;
    assert selected'[0] == m;
  }

  lemma PartialPrepend(norm: string -> string, messages: seq<Message>, selected: seq<Message>, picks: seq<nat>,
                       budget: int, remaining: int, m: Message, position: nat)
    requires Partial(norm, messages, selected, picks, budget, remaining) && Cost(m) <= remaining
    requires position < picks[0] && position < |messages| && NonEmpty(norm, messages[position])
    requires SelectedFrom(norm, m, messages[position], false)
    ensures Partial(norm, messages, [m] + selected, [position] + picks, budget, remaining - Cost(m))
  {
    hide SelectedFrom, IsNewest, NonEmpty, Total, Cost;
    TotalPrepend(m, selected);
    assert ([position] + picks)[|picks|] == picks[|picks| - 1];
  }

  /** What the newest message's text becomes: one of the shapes of its trimming, with a request that fits kept whole. */
  ghost predicate NewestText(norm: string -> string, split: string -> Option<Referenced>, text: string, original: Message, budget: int) {
    && NewestOf(norm, split, text, norm(original.content), original.role.UserRole?)
    && RequestKept(norm, split, text, norm(original.content), original.role.UserRole?, budget)
  }

  /** The newest message opens the selection; its images are kept whatever they cost. */
  method TakeNewest(norm: string -> string, split: string -> Option<Referenced>, messages: seq<Message>, newest: Message,
                    ghost position: nat, budget: int)
    returns (selected: seq<Message>, ghost picks: seq<nat>, remaining: int)
    requires budget > 0 && IsNewest(norm, messages, position)
    requires newest == messages[position].(content := norm(messages[position].content))
    ensures selected != [] ==> |selected| == 1 && picks == [position] && Partial(norm, messages, selected, picks, budget, remaining)
    ensures selected != [] ==> Estimate(selected[0].content) <= budget && selected[0].images == newest.images
    ensures selected == [] ==> picks == [] && newest.images.None? && (norm(newest.content) == "" || Estimate(norm(newest.content)) > budget)
    ensures selected != [] ==> NewestText(norm, split, selected[0].content, messages[position], budget)
    ensures selected == [WholeOf(norm, newest)] <==> NonEmpty(norm, newest) && Estimate(norm(newest.content)) <= budget
    ensures selected == [WholeOf(norm, newest)] ==> remaining == budget - Cost(WholeOf(norm, newest))
  {
    hide Estimate;
    selected, picks, remaining := [], [], budget;
    var content := TrimLatest(norm, split, newest.content, newest.role.UserRole?, budget);
    if content == "" && newest.images.None? {
      return;
    }
    var m := Message(newest.role, content, newest.images);
    selected, picks := [m], [position];
    TotalPrepend(m, []);
    assert [m] + [] == [m];
    remaining := budget - ImageTokens(m.images) - Estimate(content);
    assert selected[0] == m;
    assert SelectedFrom(norm, m, messages[position], true);
  }

  /** With the newest message taken, the whole history fits exactly when that message is whole and the older ones fit. */
  lemma NewestDecidesWhole(norm: string -> string, kept: seq<Message>, selected: seq<Message>, budget: int, remaining: int, maxMessages: int)
    requires kept != [] && maxMessages > 0 && |selected| <= 1
    requires var newest := kept[|kept| - 1];
             && (selected == [WholeOf(norm, newest)] <==> NonEmpty(norm, newest) && Estimate(norm(newest.content)) <= budget)
             && (selected == [WholeOf(norm, newest)] ==> remaining == budget - Cost(WholeOf(norm, newest)))
    ensures |kept| <= maxMessages && WholeAndFits(norm, kept, Guaranteed(|kept|, maxMessages), selected, |kept| - 2, remaining)
            <==> FitsWhole(norm, kept, budget, maxMessages)
    ensures selected == [] ==> !WholeFrom(norm, kept, selected, 0) && !FitsWhole(norm, kept, budget, maxMessages)
  {
    hide FitsFrom, Cost, Estimate, NonEmpty;
    assert WholeFrom(norm, kept, selected, |kept| - 1) <==> selected == [WholeOf(norm, kept[|kept| - 1])];
  }

  /** The selection from a history that is not empty. */
  method SelectFromHistory(norm: string -> string, split: string -> Option<Referenced>, messages: seq<Message>,
                           kept: seq<Message>, ghost at: seq<nat>, budget: int, maxMessages: int)
    returns (selected: seq<Message>, ghost picks: seq<nat>)
    requires budget > 0 && maxMessages > 0 && kept != []
    requires IsHistory(norm, messages, kept, at) && Complete(norm, messages, at) && IsNewest(norm, messages, at[|at| - 1])
    ensures IsSelection(norm, messages, selected, picks)
    ensures |selected| <= maxMessages
    ensures selected != [] ==>
              var newest := messages[at[|at| - 1]];
              && IsNewest(norm, messages, picks[|picks| - 1])
              && Total(selected) <= Max(budget, Cost(selected[|selected| - 1]))
              && Estimate(selected[|selected| - 1].content) <= budget
              && selected[|selected| - 1].images == newest.images
              && NewestText(norm, split, selected[|selected| - 1].content, newest, budget)
    ensures WholeFrom(norm, kept, selected, 0) <==> FitsWhole(norm, kept, budget, maxMessages)
    ensures selected != [] && |selected| < maxMessages && Total(selected) < budget ==> Covered(norm, kept, at, picks, 0)
    // a long answer before the newest message does not push out the message it answers
    ensures selected != [] && maxMessages >= 3 && |kept| >= 3 && kept[|kept| - 2].images.None?
            && budget - Cost(selected[|selected| - 1]) >= 2 ==>
              Covered(norm, kept, at, picks, |kept| - 3)
    ensures selected == [] ==>
              var newest := messages[at[|at| - 1]];
              var whole := norm(norm(newest.content));
              newest.images.None? && (whole == "" || Estimate(whole) > budget)
  {
    hide Estimate, IsSelection, Total, Cost, IsNewest, IsHistory, Partial, NonEmpty, NewestText, Covered, Complete, WholeFrom, WholeAndFits, FitsWhole;
    NothingSelected(norm, messages);
    var n := |kept|;
    HistoryAt(norm, messages, kept, at, n - 1);
    var remaining: int;
    selected, picks, remaining := TakeNewest(norm, split, messages, kept[n - 1], at[n - 1], budget);
    NewestDecidesWhole(norm, kept, selected, budget, remaining, maxMessages);
    if selected == [] {
      return;
    }
    OnlyOneSelected(norm, messages, selected, picks, budget, remaining);
    var guaranteed := if maxMessages < GUARANTEED_RECENT_MESSAGES then maxMessages else GUARANTEED_RECENT_MESSAGES;
    guaranteed := if n < guaranteed then n else guaranteed;
    assert guaranteed == Guaranteed(n, maxMessages);
    selected, picks, remaining := TakeGuaranteed(norm, messages, kept, at, guaranteed, selected, picks, budget, remaining);
    ghost var first := picks;
    selected, picks, remaining :=
      TakeRest(norm, messages, kept, at, guaranteed, maxMessages, selected, picks, budget, remaining);
    CoveredByMore(norm, kept, at, first, picks, n - 3);
    PartialIsBounded(norm, messages, selected, picks, budget, remaining);
  }

  /** Recent messages from the newest backwards, inside the token budget and the message limit. */
  method SelectRecent(norm: string -> string, split: string -> Option<Referenced>, messages: seq<Message>, budget: int, maxMessages: int)
    returns (selected: seq<Message>, ghost picks: seq<nat>)
    ensures IsSelection(norm, messages, selected, picks)
    ensures |selected| <= Max(maxMessages, 0)
    ensures selected != [] ==> IsNewest(norm, messages, picks[|picks| - 1])
    ensures selected != [] ==> Total(selected) <= Max(budget, Cost(selected[|selected| - 1]))
    ensures selected != [] ==> Estimate(selected[|selected| - 1].content) <= budget
    ensures selected != [] ==> forall p: nat :: IsNewest(norm, messages, p) ==> selected[|selected| - 1].images == messages[p].images
    ensures selected != [] ==>
              forall p: nat :: IsNewest(norm, messages, p) ==> NewestText(norm, split, selected[|selected| - 1].content, messages[p], budget)
    ensures budget <= 0 || maxMessages <= 0 ==> selected == []
    ensures budget > 0 && maxMessages > 0 ==>
              (WholeFrom(norm, NonEmptyOnes(norm, messages), selected, 0) <==> FitsWhole(norm, NonEmptyOnes(norm, messages), budget, maxMessages))
    ensures selected != [] && |selected| < maxMessages && Total(selected) < budget ==>
              forall q :: 0 <= q < |messages| && NonEmpty(norm, messages[q]) && norm(norm(messages[q].content)) != "" ==> q in picks
    ensures selected == [] && budget > 0 && maxMessages > 0 ==>
              forall p: nat :: IsNewest(norm, messages, p) ==>
                var whole := norm(norm(messages[p].content));
                messages[p].images.None? && (whole == "" || Estimate(whole) > budget)
  {
    hide Estimate, IsSelection, Total, Cost, IsNewest, IsHistory, NonEmpty, NewestText, FitsFrom, NonEmptyOnes, Covered, Complete;
    selected, picks := [], [];
    NothingSelected(norm, messages);
    if budget <= 0 || maxMessages <= 0 {
      return;
    }
    var kept, at := NormalizeHistory(norm, messages);
    if kept == [] {
      NoNewest(norm, messages);
      return;
    }
    NewestIsUnique(norm, messages, at[|at| - 1]);
    selected, picks := SelectFromHistory(norm, split, messages, kept, at, budget, maxMessages);
    if selected != [] && |selected| < maxMessages && Total(selected) < budget {
      CoveredHistory(norm, messages, kept, at, picks);
    }
  }

  lemma CoveredHistory(norm: string -> string, messages: seq<Message>, kept: seq<Message>, at: seq<nat>, picks: seq<nat>)
    requires IsHistory(norm, messages, kept, at) && Covered(norm, kept, at, picks, 0)
    requires Complete(norm, messages, at)
    ensures forall q :: 0 <= q < |messages| && NonEmpty(norm, messages[q]) && norm(norm(messages[q].content)) != "" ==> q in picks
  {
  }

  lemma CoveredByMore(norm: string -> string, kept: seq<Message>, at: seq<nat>, picks: seq<nat>, more: seq<nat>, i: int)
    requires forall p :: p in picks ==> p in more
    ensures Covered(norm, kept, at, picks, i) ==> Covered(norm, kept, at, more, i)
  {
  }

  lemma CoveredStep(norm: string -> string, kept: seq<Message>, at: seq<nat>, picks: seq<nat>, picks': seq<nat>, i: nat)
    requires i < |kept| == |at| && Covered(norm, kept, at, picks, i + 1)
    requires picks' == [at[i]] + picks || (picks' == picks && norm(kept[i].content) == "")
    ensures Covered(norm, kept, at, picks', i)
  {
    assert forall p :: p in picks ==> p in picks';
  }

  /** The newest message covers itself. */
  lemma NewestIsCovered(norm: string -> string, messages: seq<Message>, kept: seq<Message>, at: seq<nat>, selected: seq<Message>,
                   picks: seq<nat>, budget: int, remaining: int)
    requires |kept| == |at| > 0 && Partial(norm, messages, selected, picks, budget, remaining) && picks[0] == at[|at| - 1]
    ensures Covered(norm, kept, at, picks, |kept| - 1)
  {
    hide IsSelection, IsNewest, Total;
  }

  lemma OnlyOneSelected(norm: string -> string, messages: seq<Message>, selected: seq<Message>, picks: seq<nat>, budget: int, remaining: int)
    requires |selected| == 1 && Partial(norm, messages, selected, picks, budget, remaining)
    ensures remaining == budget - Cost(selected[0])
  {
    TotalPrepend(selected[0], []);
    assert [selected[0]] + [] == selected;
  }

  lemma NoNewest(norm: string -> string, messages: seq<Message>)
    requires forall q :: 0 <= q < |messages| ==> !NonEmpty(norm, messages[q])
    ensures forall p: nat :: !IsNewest(norm, messages, p)
  {
  }

  lemma NewestIsUnique(norm: string -> string, messages: seq<Message>, p: nat)
    requires IsNewest(norm, messages, p)
    ensures forall q: nat :: IsNewest(norm, messages, q) ==> q == p
  {
  }

  lemma HistoryAt(norm: string -> string, messages: seq<Message>, kept: seq<Message>, at: seq<nat>, i: nat)
    requires IsHistory(norm, messages, kept, at) && i < |kept|
    ensures |at| == |kept| && at[i] < |messages|
    ensures kept[i] == messages[at[i]].(content := norm(messages[at[i]].content))
  {
  }

  lemma NothingSelected(norm: string -> string, messages: seq<Message>)
    ensures IsSelection(norm, messages, [], [])
  {
  }

  lemma PartialIsBounded(norm: string -> string, messages: seq<Message>, selected: seq<Message>, picks: seq<nat>,
                         budget: int, remaining: int)
    requires Partial(norm, messages, selected, picks, budget, remaining)
    ensures IsSelection(norm, messages, selected, picks) && IsNewest(norm, messages, picks[|picks| - 1])
    ensures Total(selected) <= Max(budget, Cost(selected[|selected| - 1])) && Total(selected) == budget - remaining
  {
    hide Estimate;
    if remaining < 0 {
      TotalPrepend(selected[0], []);
      assert [selected[0]] + [] == selected;
    }
  }

  /** The messages just before the newest, each with an even share of what remains. */
  method TakeGuaranteed(norm: string -> string, messages: seq<Message>, kept: seq<Message>, ghost at: seq<nat>, guaranteed: nat,
                        selected0: seq<Message>, ghost picks0: seq<nat>, ghost budget: int, remaining0: int)
    returns (selected: seq<Message>, ghost picks: seq<nat>, remaining: int)
    requires IsHistory(norm, messages, kept, at) && 0 < guaranteed <= |kept| && guaranteed <= GUARANTEED_RECENT_MESSAGES
    requires Partial(norm, messages, selected0, picks0, budget, remaining0) && |selected0| == 1 && picks0[0] == at[|at| - 1]
    ensures Partial(norm, messages, selected, picks, budget, remaining)
    ensures 0 < |selected| <= guaranteed && |picks| > 0 && picks[0] >= at[|kept| - guaranteed]
    ensures selected[|selected| - 1] == selected0[0]
    ensures remaining <= 0 || Covered(norm, kept, at, picks, |kept| - guaranteed)
    ensures guaranteed == 3 && remaining0 >= 2 && kept[|kept| - 2].images.None? ==> Covered(norm, kept, at, picks, |kept| - 3)
    ensures WholeAndFits(norm, kept, guaranteed, selected, |kept| - guaranteed - 1, remaining)
            <==> WholeAndFits(norm, kept, guaranteed, selected0, |kept| - 2, remaining0)
  {
    hide Estimate, IsNewest, IsSelection, FitsHere, WholeAndFits, WholeFrom, Cost, Total, NonEmpty, Allocation, Covered;
    NewestIsCovered(norm, messages, kept, at, selected0, picks0, budget, remaining0);
    selected, picks, remaining := selected0, picks0, remaining0;
    var n := |kept|;
    var i := n - 2;
    while i >= n - guaranteed && remaining > 0
      invariant n - guaranteed - 1 <= i <= n - 2
      invariant Partial(norm, messages, selected, picks, budget, remaining)
      invariant |picks| > 0 && |selected| <= n - 1 - i && picks[0] >= at[i + 1]
      invariant selected[|selected| - 1] == selected0[0]
      invariant Covered(norm, kept, at, picks, i + 1)
      invariant i == n - 2 ==> remaining == remaining0
      invariant guaranteed == 3 && i == n - 3 && remaining0 >= 2 && kept[n - 2].images.None? ==> remaining > 0
      invariant WholeAndFits(norm, kept, guaranteed, selected, i, remaining)
                <==> WholeAndFits(norm, kept, guaranteed, selected0, n - 2, remaining0)
    {
      ghost var before, left, first := selected, remaining, picks;
      EvenShareFits(n, guaranteed, i, remaining);
      var share := Allocation(n, guaranteed, i, remaining);
      selected, picks, remaining := TakeOlder(norm, messages, kept[i], at[i], share, selected, picks, budget, remaining);
      WholeAndFitsStep(norm, kept, guaranteed, i, left, before, selected, remaining);
      CoveredStep(norm, kept, at, first, picks, i);
      i := i - 1;
    }
    assert i + 1 == n - guaranteed || at[n - guaranteed] <= at[i + 1];
    NothingLeftToFit(norm, kept, guaranteed, selected, i, remaining);
  }

  /** Stopping with messages left means that not all of them are whole. */
  lemma NothingLeftToFit(norm: string -> string, kept: seq<Message>, guaranteed: nat, selected: seq<Message>, i: int, remaining: int)
    requires -1 <= i < |kept| && |selected| <= |kept| - 1 - i
    ensures remaining <= 0 && i >= 0 ==> !WholeAndFits(norm, kept, guaranteed, selected, i, remaining)
    ensures forall k, r :: -1 <= k < i ==> !WholeAndFits(norm, kept, guaranteed, selected, k, r)
  {
  }

  lemma EvenShareFits(n: nat, guaranteed: nat, i: nat, remaining: int)
    requires remaining > 0 && guaranteed <= GUARANTEED_RECENT_MESSAGES && n - guaranteed <= i <= n - 2
    ensures 1 <= Allocation(n, guaranteed, i, remaining) <= remaining
    ensures guaranteed == 3 && i == n - 2 && remaining >= 2 ==> Allocation(n, guaranteed, i, remaining) < remaining
  {
    var slots := i - (n - guaranteed) + 1;
    assert slots == 1 || slots == 2;
  }

  /** The selection is whole exactly when it reached the oldest message with nothing cut on the way. */
  lemma WholeAtTheEnd(norm: string -> string, kept: seq<Message>, guaranteed: nat, selected: seq<Message>, i: int, remaining: int, maxMessages: nat)
    requires -1 <= i < |kept| && |selected| <= |kept| - 1 - i && |selected| <= maxMessages
    requires i < 0 || |selected| == maxMessages || remaining <= 0
    ensures WholeFrom(norm, kept, selected, 0) <==>
            |kept| <= maxMessages && WholeAndFits(norm, kept, guaranteed, selected, i, remaining)
  {
    NothingLeftToFit(norm, kept, guaranteed, selected, i, remaining);
  }

  /** Older messages while room and places remain. */
  method TakeRest(norm: string -> string, messages: seq<Message>, kept: seq<Message>, ghost at: seq<nat>, guaranteed: nat, maxMessages: nat,
                  selected0: seq<Message>, ghost picks0: seq<nat>, ghost budget: int, remaining0: int)
    returns (selected: seq<Message>, ghost picks: seq<nat>, remaining: int)
    requires IsHistory(norm, messages, kept, at) && 0 < guaranteed <= |kept|
    requires Partial(norm, messages, selected0, picks0, budget, remaining0) && picks0[0] >= at[|kept| - guaranteed]
    requires |selected0| <= guaranteed <= maxMessages
    requires remaining0 <= 0 || Covered(norm, kept, at, picks0, |kept| - guaranteed)
    ensures Partial(norm, messages, selected, picks, budget, remaining)
    ensures 0 < |selected| <= maxMessages && selected[|selected| - 1] == selected0[|selected0| - 1]
    ensures |selected| == maxMessages || remaining <= 0 || Covered(norm, kept, at, picks, 0)
    ensures forall p :: p in picks0 ==> p in picks
    ensures WholeFrom(norm, kept, selected, 0) <==>
            |kept| <= maxMessages && WholeAndFits(norm, kept, guaranteed, selected0, |kept| - guaranteed - 1, remaining0)
  {
    hide Estimate, IsNewest, IsSelection, FitsHere, WholeAndFits, Cost, Total;
    selected, picks, remaining := selected0, picks0, remaining0;
    var n := |kept|;
    var end := n - guaranteed;
    var i := end - 1;
    while i >= 0 && |selected| < maxMessages && remaining > 0
      invariant -1 <= i < end
      invariant Partial(norm, messages, selected, picks, budget, remaining)
      invariant |picks| > 0 && |selected| <= maxMessages && picks[0] >= at[i + 1]
      invariant selected[|selected| - 1] == selected0[|selected0| - 1]
      invariant remaining0 <= 0 || Covered(norm, kept, at, picks, i + 1)
      invariant remaining0 <= 0 ==> remaining <= 0
      invariant forall p :: p in picks0 ==> p in picks
      invariant |selected| <= n - 1 - i
      invariant WholeAndFits(norm, kept, guaranteed, selected, i, remaining)
                <==> WholeAndFits(norm, kept, guaranteed, selected0, end - 1, remaining0)
    {
      ghost var before, left := selected, remaining;
      selected, picks, remaining := TakeOlder(norm, messages, kept[i], at[i], remaining, selected, picks, budget, remaining);
      WholeAndFitsStep(norm, kept, guaranteed, i, left, before, selected, remaining);
      i := i - 1;
    }
    WholeAtTheEnd(norm, kept, guaranteed, selected, i, remaining, maxMessages);
  }

  // ---- Assembly -------------------------------------------------------------------

  function LeadingSystem(messages: seq<Message>): (n: nat)
    ensures n <= |messages|
    ensures forall i :: 0 <= i < n ==> messages[i].role.SystemRole?
    ensures n < |messages| ==> !messages[n].role.SystemRole?
  {
    if messages != [] && messages[0].role.SystemRole? then 1 + LeadingSystem(messages[1..]) else 0
  }

  predicate IsLatestUser(messages: seq<Message>, i: nat) {
    && i < |messages| && messages[i].role.UserRole?
    && forall j :: i < j < |messages| ==> !messages[j].role.UserRole?
  }

  /** The conversation without its system messages. */
  function Turns(messages: seq<Message>): seq<Message> {
    if |messages| == 0 then []
    else (if messages[0].role.SystemRole? then [] else [messages[0]]) + Turns(messages[1..])
  }

  lemma {:induction false} TurnsMembers(messages: seq<Message>)
    ensures forall m :: m in Turns(messages) <==> m in messages && !m.role.SystemRole?
  {
    if messages != [] {
      TurnsMembers(messages[1..]);
      assert messages == [messages[0]] + messages[1..];
    }
  }

  lemma {:induction false} TurnsAdd(a: seq<Message>, b: seq<Message>)
    ensures Turns(a + b) == Turns(a) + Turns(b)
  {
    if a == [] {
      assert a + b == b;
    } else {
      var first := if a[0].role.SystemRole? then [] else [a[0]];
      TurnsAdd(a[1..], b);
      assert (a + b)[1..] == a[1..] + b && (a + b)[0] == a[0];
      assert first + (Turns(a[1..]) + Turns(b)) == (first + Turns(a[1..])) + Turns(b);
    }
  }

  ghost predicate AllSystem(messages: seq<Message>) {
    forall m :: m in messages ==> m.role.SystemRole?
  }

  lemma {:induction false} SystemBlockHasNoTurns(messages: seq<Message>)
    requires AllSystem(messages)
    ensures Turns(messages) == []
  {
    if messages != [] {
      assert messages[0] in messages;
      SystemBlockHasNoTurns(messages[1..]);
    }
  }

  lemma TurnsKeptByInsertion(messages: seq<Message>, m: Message, at: nat)
    requires at <= |messages| && m.role.SystemRole?
    ensures Turns(messages[..at] + [m] + messages[at..]) == Turns(messages)
  {
    hide Turns;
    var head, tail := messages[..at], messages[at..];
    TurnsAdd(head, tail);
    TurnsAdd(head, [m] + tail);
    TurnsAdd([m], tail);
    SystemBlockHasNoTurns([m]);
    assert head + tail == messages && head + [m] + tail == head + ([m] + tail);
  }

  /** The message sits immediately before the latest user message. */
  ghost predicate SitsBeforeLatestUser(messages: seq<Message>, m: Message) {
    exists at: nat :: at + 1 < |messages| && messages[at] == m && IsLatestUser(messages, at + 1)
  }

  ghost predicate HasUser(messages: seq<Message>) {
    exists j :: 0 <= j < |messages| && messages[j].role.UserRole?
  }

  /** Where per-turn context goes: before the latest user message, else after the leading system block. */
  ghost predicate IsPlace(messages: seq<Message>, at: nat) {
    || IsLatestUser(messages, at)
    || (!HasUser(messages) && at == LeadingSystem(messages))
  }

  ghost function PlaceIn(messages: seq<Message>): (at: nat)
    ensures IsPlace(messages, at)
  {
    if exists j: nat :: IsLatestUser(messages, j) then (var j: nat :| IsLatestUser(messages, j); j)
    else
      LatestUserExists(messages);
      LeadingSystem(messages)
  }

  lemma {:induction false} LatestUserExists(messages: seq<Message>)
    ensures HasUser(messages) ==> exists j: nat :: IsLatestUser(messages, j)
  {
    if |messages| > 0 {
      var before, last := messages[..|messages| - 1], |messages| - 1;
      LatestUserExists(before);
      if messages[last].role.UserRole? {
        assert IsLatestUser(messages, last);
      } else if HasUser(messages) {
        var i :| 0 <= i < |messages| && messages[i].role.UserRole?;
        assert before[i].role.UserRole?;
        var j: nat :| IsLatestUser(before, j);
        assert IsLatestUser(messages, j);
      }
    }
  }

  /** There is only one such place, and a system message put there moves it by one. */
  lemma PlaceMoves(messages: seq<Message>, m: Message, at: nat)
    requires m.role.SystemRole? && IsPlace(messages, at)
    ensures at <= |messages| && forall other: nat :: IsPlace(messages, other) ==> other == at
    ensures IsPlace(messages[..at] + [m] + messages[at..], at + 1)
  {
    var r := messages[..at] + [m] + messages[at..];
    if IsLatestUser(messages, at) {
      assert r[at + 1] == messages[at] && IsLatestUser(r, at + 1);
    } else {
      assert r[..at] == messages[..at] && r[at] == m && r[at + 1..] == messages[at..];
      var n := LeadingSystem(r);
      assert n < |r| ==> !r[n].role.SystemRole?;
      assert at < |messages| ==> r[at + 1] == messages[at];
      assert n >= at + 1;
    }
  }

  method InsertionPoint(messages: seq<Message>) returns (at: nat)
    ensures at <= |messages| && IsPlace(messages, at)
    ensures IsLatestUser(messages, at)
            || ((forall j :: 0 <= j < |messages| ==> !messages[j].role.UserRole?) && at == LeadingSystem(messages))
  {
    var index := |messages| - 1;
    while index >= 0
      invariant -1 <= index < |messages|
      invariant forall j :: index < j < |messages| ==> !messages[j].role.UserRole?
    {
      if messages[index].role.UserRole? {
        return index;
      }
      index := index - 1;
    }
    return LeadingSystem(messages);
  }

  /** Insert one system message before the latest user message; the turns keep their order. */
  method InsertContext(messages: seq<Message>, m: Message) returns (r: seq<Message>, ghost place: nat)
    requires m.role.SystemRole?
    ensures IsPlace(messages, place) && place <= |messages| && r == messages[..place] + [m] + messages[place..]
    ensures Total(r) == Total(messages) + Cost(m)
    ensures Turns(r) == Turns(messages)
    ensures HasUser(messages) ==> SitsBeforeLatestUser(r, m) && HasUser(r)
    ensures messages != [] && messages[0].role.SystemRole? ==> r != [] && r[0] == messages[0]
  {
    hide Total, Turns, IsPlace;
    var at := InsertionPoint(messages);
    place := at;
    r := messages[..at] + [m] + messages[at..];
    InsertionCosts(messages, m, at);
    TurnsKeptByInsertion(messages, m, at);
    if HasUser(messages) {
      assert r[at] == m && r[at + 1] == messages[at] && IsLatestUser(r, at + 1);
    }
  }

  lemma InsertionCosts(messages: seq<Message>, m: Message, at: nat)
    requires at <= |messages|
    ensures Total(messages[..at] + [m] + messages[at..]) == Total(messages) + Cost(m)
  {
    var head, tail := messages[..at], messages[at..];
    TotalAdds(head, tail);
    TotalAdds(head, [m] + tail);
    TotalPrepend(m, tail);
    assert head + tail == messages && head + [m] + tail == head + ([m] + tail);
  }

  function SystemMessage(text: string): Message { Message(SystemRole, text, None) }

  /** An optional text as a system message, untrimmed; nothing for a missing or blank text. */
  function Whole(norm: string -> string, content: Option<string>): seq<Message> {
    if content.Some? && content.value != "" && norm(content.value) != "" then [SystemMessage(norm(content.value))] else []
  }

  function WholeCost(norm: string -> string, content: Option<string>): (n: nat)
    ensures n == 0 ==> Whole(norm, content) == []
  {
    if content.Some? && content.value != "" then Estimate(norm(content.value)) else 0
  }

  /**
   What becomes of an optional text with so many tokens left: nothing if there is no text or no room, the
   whole text if it is within its limit and fits, else an opening of it, marked where it was cut.
   */
  ghost predicate IsPiece(norm: string -> string, content: Option<string>, limit: nat, left: int, piece: seq<Message>) {
    && |piece| <= 1 && Total(piece) <= Min(limit, WholeCost(norm, content)) && (left >= 0 ==> Total(piece) <= left)
    && (WholeCost(norm, content) <= Min(limit, left) ==> piece == Whole(norm, content))
    && (piece == [] ==> Whole(norm, content) == [] || limit == 0 || left <= 0)
    && (piece != [] ==>
          && content.Some? && piece[0] == SystemMessage(piece[0].content)
          && OpeningOf(piece[0].content, norm(content.value)))
  }

  /** Optional system context: trimmed to its own limit and to what is left of the optional budget. */
  method AppendOptional(norm: string -> string, content: Option<string>, limit: nat, target: seq<Message>, remaining: nat)
    returns (target': seq<Message>, ghost piece: seq<Message>, remaining': nat)
    ensures target' == target + piece && IsPiece(norm, content, limit, remaining, piece)
    ensures remaining' == remaining - Total(piece)
    ensures target <= target' && IsPiece(norm, content, limit, remaining, target'[|target|..])
    ensures Total(target') - Total(target) == remaining - remaining'
    ensures AllSystem(target) ==> AllSystem(target')
  {
    hide Estimate;
    target', piece, remaining' := target, [], remaining;
    assert target + [] == target;
    if content.None? || content.value == "" || remaining <= 0 {
      return;
    }
    var allowed := if limit <= remaining then limit else remaining;
    var trimmed := TrimText(norm, content.value, allowed);
    if trimmed == "" {
      return;
    }
    SingleCost(SystemMessage(trimmed));
    TotalAdds(target, [SystemMessage(trimmed)]);
    piece := [SystemMessage(trimmed)];
    target', remaining' := target + [SystemMessage(trimmed)], remaining - Estimate(trimmed);
  }

  /** The optional texts of a request, in the order in which they claim the optional budget. */
  datatype Optionals = Optionals(
    profile: Option<string>, project: Option<string>, skills: Option<string>, followUp: Option<string>,
    task: Option<string>, summary: Option<string>, memory: Option<string>)

  function TextsOf(texts: Optionals): seq<Option<string>> {
    [texts.profile, texts.project, texts.skills, texts.followUp, texts.task, texts.summary, texts.memory]
  }

  const LIMITS: seq<nat> :=
    [PROFILE_BUDGET, PROJECT_BUDGET, SKILLS_BUDGET, FOLLOW_UP_BUDGET, TASK_BUDGET, SUMMARY_BUDGET, MEMORY_BUDGET]

  /** What the first k pieces cost. */
  function Claimed(pieces: seq<seq<Message>>, k: nat): nat
    requires k <= |pieces|
  {
    if k == 0 then 0 else Claimed(pieces, k - 1) + Total(pieces[k - 1])
  }

  /** The k-th text becomes a piece under what the texts before it left. */
  ghost predicate PieceAt(norm: string -> string, texts: Optionals, pieces: seq<seq<Message>>, budget: int, k: nat)
    requires k < |pieces| <= |LIMITS|
  {
    IsPiece(norm, TextsOf(texts)[k], LIMITS[k], budget - Claimed(pieces, k), pieces[k])
  }

  ghost predicate ArePieces(norm: string -> string, texts: Optionals, pieces: seq<seq<Message>>, budget: int) {
    |pieces| == |LIMITS| && forall k :: 0 <= k < |pieces| ==> PieceAt(norm, texts, pieces, budget, k)
  }

  /** The first k texts, each counted up to its own limit. */
  function Demand(norm: string -> string, texts: Optionals, k: nat): nat
    requires k <= |LIMITS|
  {
    if k == 0 then 0 else Demand(norm, texts, k - 1) + Min(LIMITS[k - 1], WholeCost(norm, TextsOf(texts)[k - 1]))
  }

  lemma {:induction false} DemandGrows(norm: string -> string, texts: Optionals, j: nat, k: nat)
    requires j <= k <= |LIMITS|
    ensures Demand(norm, texts, j) <= Demand(norm, texts, k)
    decreases k - j
  {
    hide WholeCost;
    if j < k {
      DemandGrows(norm, texts, j, k - 1);
    }
  }

  lemma {:induction false} ClaimsAreDemanded(norm: string -> string, texts: Optionals, pieces: seq<seq<Message>>, budget: int, k: nat)
    requires ArePieces(norm, texts, pieces, budget) && k <= |pieces|
    ensures Claimed(pieces, k) <= Demand(norm, texts, k)
  {
    hide Total, WholeCost, Whole;
    if k > 0 {
      ClaimsAreDemanded(norm, texts, pieces, budget, k - 1);
      assert PieceAt(norm, texts, pieces, budget, k - 1);
    }
  }

  /**
   If the texts, each counted up to its own limit, fit the budget together, then every text within its
   limit is whole, however long the others are.
   */
  lemma NoTextIsCrowdedOut(norm: string -> string, texts: Optionals, pieces: seq<seq<Message>>, budget: int, i: nat)
    requires ArePieces(norm, texts, pieces, budget) && Demand(norm, texts, |LIMITS|) <= budget
    requires i < |LIMITS| && WholeCost(norm, TextsOf(texts)[i]) <= LIMITS[i]
    ensures pieces[i] == Whole(norm, TextsOf(texts)[i])
  {
    ClaimsAreDemanded(norm, texts, pieces, budget, i);
    DemandGrows(norm, texts, i + 1, |LIMITS|);
    assert PieceAt(norm, texts, pieces, budget, i);
    hide Total, WholeCost, Whole;
    assert Demand(norm, texts, i + 1) == Demand(norm, texts, i) + Min(LIMITS[i], WholeCost(norm, TextsOf(texts)[i]));
  }

  /** All limits together are 14480 tokens. */
  lemma DemandIsBounded(norm: string -> string, texts: Optionals)
    ensures Demand(norm, texts, |LIMITS|) <= 14480
  {
    hide WholeCost;
    var limits := [2200, 2600, 3800, 180, 2600, 2000, 1100];
    assert LIMITS == limits;
    forall k: nat | k < 7 ensures Demand(norm, texts, k + 1) <= Demand(norm, texts, k) + limits[k] {
    }
    var d := seq(8, k requires 0 <= k < 8 => Demand(norm, texts, k));
    assert d[0] == 0 && forall k: nat :: k < 7 ==> d[k + 1] <= d[k] + limits[k];
    assert d[1] <= 2200 && d[2] <= 4800 && d[3] <= 8600 && d[4] <= 8780 && d[5] <= 11380 && d[6] <= 13380;
  }

  /** Stable optional context and the per-turn part that is placed behind the history. */
  method OptionalContext(norm: string -> string, texts: Optionals, budget: nat)
    returns (stable: seq<Message>, dynamic: seq<Message>, ghost pieces: seq<seq<Message>>)
    ensures ArePieces(norm, texts, pieces, budget)
    ensures stable == StablePieces(pieces) && dynamic == DynamicPieces(pieces)
    ensures Total(stable) + Total(dynamic) <= budget
    ensures AllSystem(stable) && AllSystem(dynamic)
  {
    hide Total, Estimate, Whole, WholeCost, AllSystem, IsPiece, Claimed;
    var left: nat;
    ghost var profile, project, skills, followUp, task, summary, memory;
    stable, profile, left := AppendOptional(norm, texts.profile, PROFILE_BUDGET, [], budget);
    stable, project, left := AppendOptional(norm, texts.project, PROJECT_BUDGET, stable, left);
    dynamic, skills, left := AppendOptional(norm, texts.skills, SKILLS_BUDGET, [], left);
    dynamic, followUp, left := AppendOptional(norm, texts.followUp, FOLLOW_UP_BUDGET, dynamic, left);
    stable, task, left := AppendOptional(norm, texts.task, TASK_BUDGET, stable, left);
    stable, summary, left := AppendOptional(norm, texts.summary, SUMMARY_BUDGET, stable, left);
    stable, memory, left := AppendOptional(norm, texts.memory, MEMORY_BUDGET, stable, left);
    pieces := [profile, project, skills, followUp, task, summary, memory];
    ClaimedSteps(pieces);
    assert stable == StablePieces(pieces) && dynamic == DynamicPieces(pieces);
    PiecesAreBounded(norm, texts, pieces, budget);
  }

  function StablePieces(pieces: seq<seq<Message>>): seq<Message>
    requires |pieces| == |LIMITS|
  {
    pieces[0] + pieces[1] + pieces[4] + pieces[5] + pieces[6]
  }

  function DynamicPieces(pieces: seq<seq<Message>>): seq<Message>
    requires |pieces| == |LIMITS|
  {
    pieces[2] + pieces[3]
  }

  lemma ClaimedSteps(pieces: seq<seq<Message>>)
    requires |pieces| == |LIMITS|
    ensures Claimed(pieces, 0) == 0
    ensures forall k :: 0 < k <= |LIMITS| ==> Claimed(pieces, k) == Claimed(pieces, k - 1) + Total(pieces[k - 1])
  {
    hide Total;
  }

  lemma PiecesAreBounded(norm: string -> string, texts: Optionals, pieces: seq<seq<Message>>, budget: nat)
    requires ArePieces(norm, texts, pieces, budget)
    ensures Total(StablePieces(pieces)) + Total(DynamicPieces(pieces)) <= budget
    ensures AllSystem(StablePieces(pieces)) && AllSystem(DynamicPieces(pieces))
  {
    hide Total, WholeCost, Whole, OpeningOf;
    ClaimsFit(norm, texts, pieces, budget, |LIMITS|);
    ClaimedSteps(pieces);
    TotalAdds(pieces[2], pieces[3]);
    TotalAdds(pieces[0], pieces[1]);
    TotalAdds(pieces[0] + pieces[1], pieces[4]);
    TotalAdds(pieces[0] + pieces[1] + pieces[4], pieces[5]);
    TotalAdds(pieces[0] + pieces[1] + pieces[4] + pieces[5], pieces[6]);
    hide Claimed;
    forall k | 0 <= k < |LIMITS| ensures AllSystem(pieces[k]) {
      assert PieceAt(norm, texts, pieces, budget, k);
    }
    hide PieceAt;
  }

  lemma {:induction false} ClaimsFit(norm: string -> string, texts: Optionals, pieces: seq<seq<Message>>, budget: nat, k: nat)
    requires ArePieces(norm, texts, pieces, budget) && k <= |LIMITS|
    ensures Claimed(pieces, k) <= budget
  {
    hide Total, WholeCost, Whole, OpeningOf;
    if k > 0 {
      ClaimsFit(norm, texts, pieces, budget, k - 1);
      assert PieceAt(norm, texts, pieces, budget, k - 1);
    }
  }

  lemma NoCost()
    ensures Total([]) == 0 && AllSystem([])
  {
  }

  /** Insert all dynamic messages, one after the other, before the latest user message. */
  method InsertAll(messages: seq<Message>, dynamic: seq<Message>) returns (r: seq<Message>, ghost place: nat)
    requires messages != [] && messages[0].role.SystemRole? && AllSystem(dynamic)
    ensures IsPlace(messages, place) && place <= |messages| && r == messages[..place] + dynamic + messages[place..]
    ensures IsPlace(r, place + |dynamic|)
    ensures Total(r) == Total(messages) + Total(dynamic)
    ensures Turns(r) == Turns(messages)
    ensures HasUser(messages) ==> HasUser(r)
    ensures r != [] && r[0] == messages[0]
  {
    hide Turns, HasUser, IsPlace, AllSystem, Total;
    r, place := messages, PlaceIn(messages);
    PlaceMoves(messages, SystemMessage(""), place);
    assert r == messages[..place] + dynamic[..0] + messages[place..];
    for i := 0 to |dynamic|
      invariant r == messages[..place] + dynamic[..i] + messages[place..] && IsPlace(r, place + i)
    {
      AtIsSystem(dynamic, i);
      ghost var before := r;
      ghost var at;
      r, at := InsertContext(r, dynamic[i]);
      PlaceMoves(before, dynamic[i], at);
      assert r == messages[..place] + (dynamic[..i] + [dynamic[i]]) + messages[place..];
      assert dynamic[..i + 1] == dynamic[..i] + [dynamic[i]];
    }
    assert dynamic[..|dynamic|] == dynamic;
    BlockInserted(messages, dynamic, place);
  }

  lemma AtIsSystem(messages: seq<Message>, i: nat)
    requires AllSystem(messages) && i < |messages|
    ensures messages[i].role.SystemRole?
  {
    assert messages[i] in messages;
  }

  /** A block of system messages at its place changes neither the turns nor the first message. */
  lemma BlockInserted(messages: seq<Message>, block: seq<Message>, place: nat)
    requires messages != [] && messages[0].role.SystemRole? && AllSystem(block) && IsPlace(messages, place) && place <= |messages|
    ensures var r := messages[..place] + block + messages[place..];
            && Total(r) == Total(messages) + Total(block) && Turns(r) == Turns(messages)
            && (HasUser(messages) ==> HasUser(r)) && r[0] == messages[0]
  {
    hide Turns, Total;
    var head, tail := messages[..place], messages[place..];
    var r := head + block + tail;
    TotalAdds(head, tail);
    TotalAdds(head, block);
    TotalAdds(head + block, tail);
    TurnsAdd(head, tail);
    TurnsAdd(head, block);
    TurnsAdd(head + block, tail);
    SystemBlockHasNoTurns(block);
    assert head + tail == messages && Turns(head) + [] == Turns(head);
    assert [messages[0]] + messages[1..] == messages;
    PlaceIsBehindOpening([messages[0]], messages[1..], place);
    if HasUser(messages) {
      assert r[place + |block|] == messages[place];
    }
  }

  function Mandatory(base: string, contract: Option<string>, runtime: string): nat {
    Estimate(base) + (match contract case None => 0 case Some(text) => Estimate(text)) + Estimate(runtime)
  }

  /** What is reserved for history before any optional context is added. */
  function ReservedHistory(mandatory: nat): nat {
    Min(RECENT_HISTORY_BUDGET, Max(CONTEXT_BUDGET - mandatory, 0))
  }

  /** What is left for the optional texts. */
  function OptionalBudget(mandatory: nat): nat {
    Max(CONTEXT_BUDGET - mandatory - ReservedHistory(mandatory), 0)
  }

  /** With a mandatory part of at most 4120 tokens the optional texts never crowd each other out. */
  lemma LimitsFitTogether(norm: string -> string, texts: Optionals, pieces: seq<seq<Message>>, mandatory: nat, i: nat)
    requires mandatory <= 4120 && ArePieces(norm, texts, pieces, OptionalBudget(mandatory))
    requires i < |LIMITS| && WholeCost(norm, TextsOf(texts)[i]) <= LIMITS[i]
    ensures pieces[i] == Whole(norm, TextsOf(texts)[i])
  {
    DemandIsBounded(norm, texts);
    NoTextIsCrowdedOut(norm, texts, pieces, OptionalBudget(mandatory), i);
  }

  function ContractMessage(contract: Option<string>): seq<Message> {
    match contract case None => [] case Some(text) => [SystemMessage(text)]
  }

  ghost predicate TextOnly(messages: seq<Message>) {
    forall m :: m in messages ==> m.images.None?
  }

  lemma SelectionFits(norm: string -> string, recent: seq<Message>, selected: seq<Message>, picks: seq<nat>, budget: nat)
    requires TextOnly(recent) && IsSelection(norm, recent, selected, picks)
    requires selected != [] ==> Total(selected) <= Max(budget, Cost(selected[|selected| - 1]))
    requires selected != [] ==> Estimate(selected[|selected| - 1].content) <= budget
    ensures Total(selected) <= budget
  {
    hide Estimate;
    if selected != [] {
      assert recent[picks[|picks| - 1]] in recent;
    }
  }

  /** The system messages of a request, and what they leave for history: always the whole reserved window. */
  method SystemContext(norm: string -> string, base: string, contract: Option<string>, runtime: string, texts: Optionals)
    returns (opening: seq<Message>, perTurn: seq<Message>, remaining: int, ghost pieces: seq<seq<Message>>)
    ensures ArePieces(norm, texts, pieces, OptionalBudget(Mandatory(base, contract, runtime)))
    ensures opening == [SystemMessage(base)] + StablePieces(pieces)
    ensures perTurn == DynamicPieces(pieces) + ContractMessage(contract)
    ensures opening != [] && opening[0] == SystemMessage(base) && AllSystem(opening) && AllSystem(perTurn)
    ensures remaining == ReservedHistory(Mandatory(base, contract, runtime))
    ensures Mandatory(base, contract, runtime) <= Total(opening) + Total(perTurn) + Estimate(runtime)
    ensures Total(opening) + Total(perTurn) + Estimate(runtime) + remaining <= Max(CONTEXT_BUDGET, Mandatory(base, contract, runtime))
  {
    hide Total, Estimate, ArePieces, StablePieces, DynamicPieces;
    var mandatory := Mandatory(base, contract, runtime);
    var reserved := ReservedHistory(mandatory);
    var spare := CONTEXT_BUDGET - mandatory - reserved;
    var stable, dynamic, parts := OptionalContext(norm, texts, if spare > 0 then spare else 0);
    pieces := parts;
    opening := [SystemMessage(base)] + stable;
    TotalPrepend(SystemMessage(base), stable);
    perTurn := dynamic;
    if contract.Some? {
      perTurn := dynamic + [SystemMessage(contract.value)];
      TotalAdds(dynamic, [SystemMessage(contract.value)]);
      SingleCost(SystemMessage(contract.value));
    }
    var used := Total(opening) + Total(perTurn) + Estimate(runtime);
    assert used == mandatory + Total(stable) + Total(dynamic);
    remaining := if CONTEXT_BUDGET - used <= reserved then CONTEXT_BUDGET - used else reserved;
    if remaining < 0 {
      remaining := 0;
    }
    assert remaining == reserved;
  }

  /** Base prompt, optional context, reserved history, and per-turn context just before the latest user message. */
  method BuildContext(norm: string -> string, split: string -> Option<Referenced>, base: string, contract: Option<string>,
                      runtime: string, texts: Optionals, recent: seq<Message>)
    returns (messages: seq<Message>, ghost history: seq<Message>, ghost picks: seq<nat>, ghost historyBudget: int,
             ghost pieces: seq<seq<Message>>, ghost place: nat)
    ensures ArePieces(norm, texts, pieces, OptionalBudget(Mandatory(base, contract, runtime)))
    // the whole context: base prompt, stable texts and history, with the per-turn texts at their place
    ensures var body := [SystemMessage(base)] + StablePieces(pieces) + history;
            && IsPlace(body, place) && 1 + |StablePieces(pieces)| <= place <= |body|
            && messages == body[..place] + (DynamicPieces(pieces) + ContractMessage(contract) + [SystemMessage(runtime)]) + body[place..]
    ensures IsSelection(norm, recent, history, picks) && Turns(messages) == Turns(history)
    ensures Total(messages) >= Mandatory(base, contract, runtime) + Total(history)
    ensures HasUser(history) ==> SitsBeforeLatestUser(messages, SystemMessage(runtime))
    ensures historyBudget == ReservedHistory(Mandatory(base, contract, runtime))
    ensures TextOnly(recent) ==> Total(messages) <= Max(CONTEXT_BUDGET, Mandatory(base, contract, runtime))
    ensures TextOnly(recent) ==> Total(history) <= historyBudget
    ensures history != [] ==>
              forall p: nat :: IsNewest(norm, recent, p) ==> NewestText(norm, split, history[|history| - 1].content, recent[p], historyBudget)
    ensures historyBudget > 0 ==>
              var all := NonEmptyOnes(norm, recent);
              WholeFrom(norm, all, history, 0) <==> FitsWhole(norm, all, historyBudget, RECENT_HISTORY_MAX_MESSAGES)
    ensures messages != [] && messages[0] == SystemMessage(base)
  {
    hide Total, Turns, Estimate, IsSelection, IsNewest, SitsBeforeLatestUser, NewestText, FitsWhole, WholeFrom, NonEmptyOnes;
    hide ArePieces, StablePieces, DynamicPieces, ContractMessage, IsPlace;
    var opening, perTurn, remaining, parts := SystemContext(norm, base, contract, runtime, texts);
    pieces := parts;
    var selected, chosen := SelectRecent(norm, split, recent, remaining, RECENT_HISTORY_MAX_MESSAGES);
    history, picks, historyBudget := selected, chosen, remaining;
    messages := opening + selected;
    TotalAdds(opening, selected);
    TurnsAdd(opening, selected);
    SystemBlockHasNoTurns(opening);
    if HasUser(selected) {
      var j :| 0 <= j < |selected| && selected[j].role.UserRole?;
      assert messages[|opening| + j].role.UserRole?;
    }
    ghost var body := messages;
    messages, place := InsertAll(messages, perTurn);
    PlaceIsBehindOpening(opening, selected, place);
    ghost var inserted := messages;
    ghost var at;
    messages, at := InsertContext(messages, SystemMessage(runtime));
    PlaceMoves(inserted, SystemMessage(runtime), at);
    assert messages == body[..place] + (perTurn + [SystemMessage(runtime)]) + body[place..];
    assert TextOnly(recent) ==> Total(selected) <= remaining by {
      if TextOnly(recent) {
        SelectionFits(norm, recent, selected, chosen, remaining);
      }
    }
  }

  lemma PlaceIsBehindOpening(opening: seq<Message>, selected: seq<Message>, place: nat)
    requires AllSystem(opening) && IsPlace(opening + selected, place)
    ensures |opening| <= place
  {
    var body := opening + selected;
    assert forall j :: 0 <= j < |opening| ==> body[j] == opening[j] && opening[j] in opening;
  }

  lemma SingleCost(m: Message)
    ensures Total([m]) == Cost(m)
  {
    TotalPrepend(m, []);
    assert [m] + [] == [m];
  }
}
