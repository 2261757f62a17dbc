/** The budgets of one turn and the tools they still allow. */
module AgentTools {

  const READ_MESSAGE_MAX_CHARS: nat := 4000
  const READ_MESSAGE_MIN_CHARS: nat := 512

  /** Which runner and which budget a tool uses. */
  datatype Kind = WebSearch | Lookup | GetEvidence | ReadWebPage | WorkspaceRead(usesReads: bool) | WorkspaceWrite

  datatype Tool = Tool(name: string, kind: Kind)

  datatype Budget = Budget(
    maxLlmTurns: nat, llmTurns: nat,
    maxToolCalls: nat, toolCalls: nat,
    maxReadCalls: nat, readCalls: nat,
    maxReadChars: nat, readChars: nat,
    maxWrites: nat, writes: nat)

  predicate ToolCallsExhausted(b: Budget) { b.toolCalls >= b.maxToolCalls }

  function ReadMessageLimit(b: Budget): (n: nat)
    ensures n <= 4000 && (n > 0 ==> b.readChars + n <= b.maxReadChars)
    ensures n < 4000 ==> b.readChars + n >= b.maxReadChars
  {
    var left := if b.maxReadChars > b.readChars then b.maxReadChars - b.readChars else 0;
    if left < READ_MESSAGE_MAX_CHARS then left else READ_MESSAGE_MAX_CHARS
  }

  predicate ReadsExhausted(b: Budget) {
    b.readCalls >= b.maxReadCalls || ReadMessageLimit(b) < READ_MESSAGE_MIN_CHARS
  }

  predicate WritesExhausted(b: Budget) { b.writes >= b.maxWrites }

  /** No counter passes its limit. */
  predicate WithinLimits(b: Budget) {
    && b.llmTurns <= b.maxLlmTurns && b.toolCalls <= b.maxToolCalls
    && b.readCalls <= b.maxReadCalls && b.writes <= b.maxWrites
  }

  /** Everything the tool runners have charged so far. */
  function Spent(b: Budget): nat { b.toolCalls + b.readCalls + b.writes }

  /** The one-time recoveries of a turn. */
  datatype Recovery = MinimalContext | ToolSchema | EmptyAnswer | WorkspaceAction | DegradeToAnswer

  /** What a turn remembers between decisions. */
  datatype Turn = Turn(
    configured: seq<Tool>, hasWorkspace: bool, budget: Budget,
    evidence: nat, webRecords: bool,
    approvalCards: nat, awaitingCards: nat, approvalPending: bool,
    recovered: set<Recovery>)

  predicate IsReader(kind: Kind) { kind.GetEvidence? || kind.ReadWebPage? }

  predicate CanGainEvidence(configured: seq<Tool>) {
    exists i :: 0 <= i < |configured| && !IsReader(configured[i].kind)
  }

  /** Whether the budgets and the gathered evidence still allow a tool. */
  predicate Usable(t: Turn, kind: Kind) {
    match kind
    case GetEvidence => !ReadsExhausted(t.budget) && (CanGainEvidence(t.configured) || t.evidence > 0)
    case ReadWebPage => !ReadsExhausted(t.budget) && (CanGainEvidence(t.configured) || t.webRecords)
    case WorkspaceWrite => !WritesExhausted(t.budget) && !t.approvalPending
    case WorkspaceRead(usesReads) => if usesReads then !ReadsExhausted(t.budget) else !ToolCallsExhausted(t.budget)
    case _ => !ToolCallsExhausted(t.budget)
  }

  function UsableOf(t: Turn, tools: seq<Tool>): seq<Tool> {
    if |tools| == 0 then []
    else
      var rest, last := UsableOf(t, tools[..|tools| - 1]), tools[|tools| - 1];
      if Usable(t, last.kind) then rest + [last] else rest
  }

  /** The tools that may still be executed. */
  function Available(t: Turn): seq<Tool> { UsableOf(t, t.configured) }

  /** The tools offered to the next decision: none after a failure, while a card waits, or on the last turn. */
  function Offered(t: Turn): seq<Tool> {
    if DegradeToAnswer in t.recovered || t.approvalPending || t.budget.llmTurns + 1 >= t.budget.maxLlmTurns then []
    else Available(t)
  }

  lemma {:induction false} UsableMembers(t: Turn, tools: seq<Tool>)
    ensures forall tool :: tool in UsableOf(t, tools) <==> tool in tools && Usable(t, tool.kind)
  {
    if |tools| > 0 {
      UsableMembers(t, tools[..|tools| - 1]);
      assert tools == tools[..|tools| - 1] + [tools[|tools| - 1]];
    }
  }

  /** What each limit leaves for a tool: a search, a read of at least 512 characters, or a write. */
  predicate HasRoom(b: Budget, kind: Kind) {
    && (kind.WebSearch? || kind.Lookup? || kind == WorkspaceRead(false) ==> b.toolCalls < b.maxToolCalls)
    && (IsReader(kind) || kind == WorkspaceRead(true) ==> b.readCalls < b.maxReadCalls && b.readChars + 512 <= b.maxReadChars)
    && (kind.WorkspaceWrite? ==> b.writes < b.maxWrites)
  }

  /**
   A configured tool is offered exactly when a decision is left after the next one, nothing was degraded,
   no card waits, its budget has room, and, for a reader, there is or can still be something to read.
   */
  lemma OfferedIff(t: Turn, tool: Tool)
    ensures tool in Offered(t) <==>
            && tool in t.configured && HasRoom(t.budget, tool.kind)
            && t.budget.maxLlmTurns - t.budget.llmTurns >= 2 && DegradeToAnswer !in t.recovered && !t.approvalPending
            && (IsReader(tool.kind) ==>
                  || (exists other :: other in t.configured && !IsReader(other.kind))
                  || (if tool.kind.GetEvidence? then t.evidence > 0 else t.webRecords))
  {
    UsableMembers(t, t.configured);
    assert CanGainEvidence(t.configured) <==> exists other :: other in t.configured && !IsReader(other.kind);
  }

  method AvailableAgentTools(t: Turn) returns (tools: seq<Tool>)
    ensures tools == Available(t)
    ensures forall tool :: tool in tools <==> tool in t.configured && Usable(t, tool.kind)
  {
    tools := [];
    for i := 0 to |t.configured|
      invariant tools == UsableOf(t, t.configured[..i])
    {
      assert t.configured[..i + 1][..i] == t.configured[..i];
      if Usable(t, t.configured[i].kind) {
        tools := tools + [t.configured[i]];
      }
    }
    assert t.configured[..|t.configured|] == t.configured;
    UsableMembers(t, t.configured);
  }

  predicate BudgetGrows(a: Budget, b: Budget) {
    && a.maxLlmTurns == b.maxLlmTurns && a.llmTurns <= b.llmTurns
    && a.maxToolCalls == b.maxToolCalls && a.toolCalls <= b.toolCalls
    && a.maxReadCalls == b.maxReadCalls && a.readCalls <= b.readCalls
    && a.maxReadChars == b.maxReadChars && a.readChars <= b.readChars
    && a.maxWrites == b.maxWrites && a.writes <= b.writes
  }

  /** How a turn can develop: counters and flags only grow; evidence grows only if some tool can bring it. */
  predicate Advances(a: Turn, b: Turn) {
    && a.configured == b.configured && a.hasWorkspace == b.hasWorkspace
    && BudgetGrows(a.budget, b.budget)
    && (CanGainEvidence(a.configured) || (a.evidence == b.evidence && a.webRecords == b.webRecords))
    && a.approvalCards <= b.approvalCards && a.awaitingCards <= b.awaitingCards
    && (a.approvalPending ==> b.approvalPending)
    && a.recovered <= b.recovered
  }

  lemma UsableShrinks(a: Turn, b: Turn, kind: Kind)
    requires Advances(a, b) && Usable(b, kind)
    ensures Usable(a, kind)
  {
    hide CanGainEvidence;
  }

  /** The tools offered only ever shrink as a turn advances. */
  lemma OfferedShrinks(a: Turn, b: Turn)
    requires Advances(a, b)
    ensures forall tool :: tool in Offered(b) ==> tool in Offered(a)
  {
    hide Usable;
    UsableMembers(a, a.configured);
    UsableMembers(b, b.configured);
    forall tool | tool in Offered(b) ensures tool in Offered(a) {
      UsableShrinks(a, b, tool.kind);
    }
  }
}

/** Running the tool calls of one decision. */
module ToolDispatch {
  import opened AgentTools

  /** Where the execution of a web search can raise; its result is appended after all of these. */
  datatype Stage = Request | StoreEvidence | Announce | BuildPayload

  datatype LookupOutcome = SearchMissing | BadQuery | LookupRaises | LookupAnswers(failed: bool, evidence: nat)

  datatype SearchOutcome = EmptyQuery | Cached(evidence: nat) | RaisesAt(stage: Stage, quota: bool, evidence: nat) | Finds(evidence: nat)

  datatype ReadOutcome = ReadInvalid(chars: nat) | ReadCrashes | ReadAnswers(chars: nat, evidence: nat)

  datatype WriteOutcome = ReadRequired | ProposalFails | CardSaved(awaits: bool)

  /** An error outside the runner's own handlers, before or after its result was appended. */
  datatype Escape = Stays | BeforeResult | AfterResult

  /** What each kind of runner would meet in the stores, in the network and in the call's arguments. */
  datatype Outcomes = Outcomes(lookup: LookupOutcome, search: SearchOutcome, read: ReadOutcome, write: WriteOutcome, escape: Escape)

  /** A normalized tool call. */
  datatype Call = Call(id: string, name: string, outcomes: Outcomes)

  datatype Status = StepLimit | Unsupported | Invalid | Failed | QuotaExceeded | Found | NeedsRead | AwaitsOrDone

  datatype Message = AssistantCalls(calls: seq<Call>) | ToolResult(callId: string, name: string, status: Status)

  predicate Answers(m: Message, call: Call) { m.ToolResult? && m.callId == call.id && m.name == call.name }

  /** One assistant message, then one result for each of the first n calls, in order. */
  ghost predicate ExchangeOf(messages: seq<Message>, calls: seq<Call>, n: nat) {
    && n <= |calls| && |messages| == n + 1
    && messages[0] == AssistantCalls(calls)
    && forall i :: 0 <= i < n ==> Answers(messages[i + 1], calls[i])
  }

  /** The fragment for the next decision: every call answered once, in order. */
  ghost predicate WellFormedExchange(messages: seq<Message>, calls: seq<Call>) { ExchangeOf(messages, calls, |calls|) }

  function ChargeTool(b: Budget): Budget { b.(toolCalls := b.toolCalls + 1) }

  function ChargeRead(b: Budget): Budget { b.(readCalls := b.readCalls + 1) }

  function ChargeChars(b: Budget, chars: nat): Budget { b.(readChars := b.readChars + chars) }

  function Gain(t: Turn, evidence: nat, web: bool): Turn {
    t.(evidence := t.evidence + evidence, webRecords := t.webRecords || (web && evidence > 0))
  }

  function LookupEvidence(o: LookupOutcome): nat { if o.LookupAnswers? then o.evidence else 0 }

  /** Evidence is stored before the stages that can still raise. */
  function SearchEvidence(o: SearchOutcome): nat {
    match o
    case EmptyQuery => 0
    case Cached(evidence) => evidence
    case RaisesAt(stage, _, evidence) => if stage.Announce? || stage.BuildPayload? then evidence else 0
    case Finds(evidence) => evidence
  }

  function ReadChars(o: ReadOutcome): nat {
    match o
    case ReadInvalid(chars) => chars
    case ReadCrashes => 0
    case ReadAnswers(chars, _) => chars
  }

  function ReadEvidence(o: ReadOutcome): nat { if o.ReadAnswers? then o.evidence else 0 }

  function AfterProposal(t: Turn, o: WriteOutcome): Turn {
    if WritesExhausted(t.budget) || o.ReadRequired? then t
    else
      var charged := t.(budget := t.budget.(writes := t.budget.writes + 1));
      if !o.CardSaved? then charged
      else charged.(approvalCards := t.approvalCards + 1, awaitingCards := t.awaitingCards + if o.awaits then 1 else 0)
  }

  function AfterSearching(t: Turn, evidence: nat, web: bool): Turn {
    if ToolCallsExhausted(t.budget) then t else Gain(t.(budget := ChargeTool(t.budget)), evidence, web)
  }

  function AfterReading(t: Turn, o: ReadOutcome, gains: bool): Turn {
    if ReadsExhausted(t.budget) then t
    else Gain(t.(budget := ChargeChars(ChargeRead(t.budget), ReadChars(o))), if gains then ReadEvidence(o) else 0, false)
  }

  function AfterTool(t: Turn, kind: Kind, o: Outcomes): Turn {
    match kind
    case GetEvidence | ReadWebPage => AfterReading(t, o.read, false)
    case WorkspaceRead(true) => AfterReading(t, o.read, true)
    case WorkspaceRead(false) => AfterSearching(t, ReadEvidence(o.read), false)
    case WorkspaceWrite => AfterProposal(t, o.write)
    case Lookup => AfterSearching(t, LookupEvidence(o.lookup), false)
    case WebSearch => AfterSearching(t, SearchEvidence(o.search), true)
  }

  /** An unknown or withdrawn tool spends a search, else a read, so that repeating it cannot go on for ever. */
  function AfterUnsupported(t: Turn): Turn {
    if !ToolCallsExhausted(t.budget) then t.(budget := ChargeTool(t.budget))
    else if !ReadsExhausted(t.budget) then t.(budget := ChargeRead(t.budget))
    else t
  }

  function IndexOf(tools: seq<Tool>, name: string): (i: nat)
    ensures i <= |tools|
    ensures i < |tools| ==> tools[i].name == name
    ensures forall j :: 0 <= j < i ==> tools[j].name != name
  {
    if |tools| == 0 || tools[0].name == name then 0 else 1 + IndexOf(tools[1..], name)
  }

  function AfterCall(t: Turn, call: Call): Turn {
    var tools := Available(t);
    var i := IndexOf(tools, call.name);
    if i == |tools| then AfterUnsupported(t) else AfterTool(t, tools[i].kind, call.outcomes)
  }

  function AfterCalls(t: Turn, calls: seq<Call>): Turn {
    if |calls| == 0 then t else AfterCall(AfterCalls(t, calls[..|calls| - 1]), calls[|calls| - 1])
  }

  /** How many calls run: all of them, or those up to the first whose runner lets an error escape. */
  function Executed(calls: seq<Call>): (n: nat)
    ensures n <= |calls|
    ensures forall i :: 0 <= i < n - 1 ==> calls[i].outcomes.escape.Stays?
    ensures n < |calls| ==> n > 0 && !calls[n - 1].outcomes.escape.Stays?
  {
    if |calls| == 0 then 0
    else if !calls[0].outcomes.escape.Stays? then 1
    else 1 + Executed(calls[1..])
  }

  predicate AllStay(calls: seq<Call>) { forall i :: 0 <= i < |calls| ==> calls[i].outcomes.escape.Stays? }

  /** Proposals of one decision are all taken; if a card then waits, the rest of the turn is tool-free. */
  function AfterDispatch(t: Turn, calls: seq<Call>): Turn {
    var after := AfterCalls(t, calls[..Executed(calls)]);
    if AllStay(calls) && after.awaitingCards > 0 then after.(approvalPending := true) else after
  }

  lemma UnsupportedKeeps(t: Turn)
    requires WithinLimits(t.budget)
    ensures Advances(t, AfterUnsupported(t)) && WithinLimits(AfterUnsupported(t).budget)
    ensures AfterUnsupported(t).approvalPending == t.approvalPending && AfterUnsupported(t).recovered == t.recovered
    ensures AfterUnsupported(t).budget.llmTurns == t.budget.llmTurns
  {
    hide CanGainEvidence;
  }

  lemma ToolKeeps(t: Turn, kind: Kind, o: Outcomes)
    requires WithinLimits(t.budget) && (IsReader(kind) || CanGainEvidence(t.configured))
    ensures Advances(t, AfterTool(t, kind, o)) && WithinLimits(AfterTool(t, kind, o).budget)
    ensures AfterTool(t, kind, o).approvalPending == t.approvalPending && AfterTool(t, kind, o).recovered == t.recovered
    ensures AfterTool(t, kind, o).budget.llmTurns == t.budget.llmTurns
  {
    hide CanGainEvidence, ReadChars, ReadEvidence, SearchEvidence, LookupEvidence;
  }

  /** One call, whatever it asks for, stays within every limit. */
  lemma CallKeeps(t: Turn, call: Call)
    requires WithinLimits(t.budget)
    ensures Advances(t, AfterCall(t, call)) && WithinLimits(AfterCall(t, call).budget)
    ensures AfterCall(t, call).approvalPending == t.approvalPending && AfterCall(t, call).recovered == t.recovered
    ensures AfterCall(t, call).budget.llmTurns == t.budget.llmTurns
  {
    hide AfterTool, AfterUnsupported, WithinLimits, Advances;
    var tools := Available(t);
    var i := IndexOf(tools, call.name);
    if i == |tools| {
      UnsupportedKeeps(t);
    } else {
      UsableMembers(t, t.configured);
      assert tools[i] in t.configured;
      ToolKeeps(t, tools[i].kind, call.outcomes);
    }
  }

  /** A call is charged exactly once, to one budget, unless nothing is left to charge or nothing was proposed. */
  lemma CallChargesOnce(t: Turn, call: Call)
    ensures var tools, after := Available(t), AfterCall(t, call);
            var i := IndexOf(tools, call.name);
            var free := if i < |tools| then tools[i].kind.WorkspaceWrite? && call.outcomes.write.ReadRequired?
                        else ToolCallsExhausted(t.budget) && ReadsExhausted(t.budget);
            Spent(after.budget) == Spent(t.budget) + (if free then 0 else 1)
  {
    hide AfterTool, Usable;
    var tools := Available(t);
    var i := IndexOf(tools, call.name);
    UsableMembers(t, t.configured);
    if i < |tools| {
      assert tools[i] in tools;
      ToolCharges(t, tools[i].kind, call.outcomes);
    }
  }

  /** What a tool adds: what its search, lookup or workspace read stored, and web records only from the web. */
  predicate GainFits(kind: Kind, o: Outcomes, gained: int, webBefore: bool, webAfter: bool) {
    && (webAfter <==> webBefore || (kind.WebSearch? && gained > 0))
    && (IsReader(kind) || kind.WorkspaceWrite? ==> gained == 0)
    && (kind.Lookup? ==> gained == if o.lookup.LookupAnswers? then o.lookup.evidence else 0)
    && (kind.WorkspaceRead? ==> gained == if o.read.ReadAnswers? then o.read.evidence else 0)
    && (kind.WebSearch? ==>
          gained == if o.search.EmptyQuery? || (o.search.RaisesAt? && (o.search.stage.Request? || o.search.stage.StoreEvidence?))
                    then 0 else o.search.evidence)
  }

  lemma CallGains(t: Turn, call: Call)
    ensures var tools, after := Available(t), AfterCall(t, call);
            var i := IndexOf(tools, call.name);
            if i == |tools| then after.evidence == t.evidence && after.webRecords == t.webRecords
            else GainFits(tools[i].kind, call.outcomes, after.evidence - t.evidence, t.webRecords, after.webRecords)
  {
    hide Usable;
    var tools := Available(t);
    var i := IndexOf(tools, call.name);
    UsableMembers(t, t.configured);
    if i < |tools| {
      assert tools[i] in tools;
      assert Usable(t, tools[i].kind);
      UsableHasBudget(t, tools[i].kind);
    }
  }

  lemma UsableHasBudget(t: Turn, kind: Kind)
    requires Usable(t, kind)
    ensures IsReader(kind) || kind == WorkspaceRead(true) ==> !ReadsExhausted(t.budget)
    ensures kind.Lookup? || kind.WebSearch? || kind == WorkspaceRead(false) ==> !ToolCallsExhausted(t.budget)
  {
  }

  lemma ToolCharges(t: Turn, kind: Kind, o: Outcomes)
    requires Usable(t, kind)
    ensures Spent(AfterTool(t, kind, o).budget) == Spent(t.budget) + if kind.WorkspaceWrite? && o.write.ReadRequired? then 0 else 1
  {
    hide CanGainEvidence, ReadChars, ReadEvidence, SearchEvidence, LookupEvidence, ReadsExhausted;
  }

  lemma AdvancesTransitive(a: Turn, b: Turn, c: Turn)
    requires Advances(a, b) && Advances(b, c)
    ensures Advances(a, c)
  {
  }

  lemma {:induction false} CallsKeep(t: Turn, calls: seq<Call>)
    requires WithinLimits(t.budget)
    ensures Advances(t, AfterCalls(t, calls)) && WithinLimits(AfterCalls(t, calls).budget)
    ensures AfterCalls(t, calls).approvalPending == t.approvalPending && AfterCalls(t, calls).recovered == t.recovered
    ensures AfterCalls(t, calls).budget.llmTurns == t.budget.llmTurns
  {
    if |calls| > 0 {
      hide AfterCall, WithinLimits, Advances;
      var before := AfterCalls(t, calls[..|calls| - 1]);
      CallsKeep(t, calls[..|calls| - 1]);
      CallKeeps(before, calls[|calls| - 1]);
      AdvancesTransitive(t, before, AfterCalls(t, calls));
    }
  }

  /** However long the list and whatever it asks for, a dispatch stays within every limit and only advances the turn. */
  lemma DispatchKeeps(t: Turn, calls: seq<Call>)
    requires WithinLimits(t.budget)
    ensures var after := AfterDispatch(t, calls);
            && Advances(t, after) && WithinLimits(after.budget)
            && after.recovered == t.recovered && after.budget.llmTurns == t.budget.llmTurns
            && (AllStay(calls) ==> (after.approvalPending <==> t.approvalPending || after.awaitingCards > 0))
  {
    hide AfterCalls;
    CallsKeep(t, calls[..Executed(calls)]);
  }

  /** A decision that awaits an approval leaves the next one without tools. */
  lemma PendingApprovalEndsTools(t: Turn, calls: seq<Call>)
    requires AllStay(calls) && AfterDispatch(t, calls).awaitingCards > 0
    ensures Offered(AfterDispatch(t, calls)) == []
  {
    hide AfterCalls;
  }

  /** What a runner leaves behind: its one result, or none if an error escaped before it was appended. */
  ghost predicate OneResult(before: seq<Message>, after: seq<Message>, call: Call, status: Status) {
    after == if call.outcomes.escape.BeforeResult? then before else before + [ToolResult(call.id, call.name, status)]
  }

  function LookupStatus(t: Turn, o: LookupOutcome): Status {
    if ToolCallsExhausted(t.budget) then StepLimit
    else match o
         case SearchMissing => Unsupported
         case BadQuery => Invalid
         case LookupRaises => Failed
         case LookupAnswers(failed, _) => if failed then Failed else Found
  }

  function SearchStatus(t: Turn, o: SearchOutcome): Status {
    if ToolCallsExhausted(t.budget) then StepLimit
    else match o
         case EmptyQuery => Invalid
         case RaisesAt(_, quota, _) => if quota then QuotaExceeded else Failed
         case _ => Found
  }

  function ReadStatus(exhausted: bool, o: ReadOutcome): Status {
    if exhausted then StepLimit
    else match o
         case ReadInvalid(_) => Invalid
         case ReadCrashes => Failed
         case ReadAnswers(_, _) => Found
  }

  function WriteStatus(t: Turn, o: WriteOutcome): Status {
    if WritesExhausted(t.budget) then StepLimit
    else match o
         case ReadRequired => NeedsRead
         case ProposalFails => Failed
         case CardSaved(_) => AwaitsOrDone
  }

  function StatusOf(t: Turn, call: Call): Status {
    var tools, o := Available(t), call.outcomes;
    var i := IndexOf(tools, call.name);
    if i == |tools| then Unsupported
    else match tools[i].kind
         case GetEvidence | ReadWebPage | WorkspaceRead(true) => ReadStatus(ReadsExhausted(t.budget), o.read)
         case WorkspaceRead(false) => ReadStatus(ToolCallsExhausted(t.budget), o.read)
         case WorkspaceWrite => WriteStatus(t, o.write)
         case Lookup => LookupStatus(t, o.lookup)
         case WebSearch => SearchStatus(t, o.search)
  }

  /** The tool runners over the turn's state and the fragment for the next decision. */
  class Dispatcher {
    var turn: Turn
    var messages: seq<Message>

    constructor (turn: Turn)
      ensures this.turn == turn && messages == []
    {
      this.turn, this.messages := turn, [];
    }

    /** Append a result; an error may escape just before or just after. */
    method Reply(call: Call, status: Status)
      modifies this`messages
      ensures OneResult(old(messages), messages, call, status)
    {
      if call.outcomes.escape.BeforeResult? {
        return;
      }
      messages := messages + [ToolResult(call.id, call.name, status)];
    }

    method RecordUnsupported(call: Call)
      modifies this
      ensures turn == AfterUnsupported(old(turn))
      ensures OneResult(old(messages), messages, call, Unsupported)
    {
      if !ToolCallsExhausted(turn.budget) {
        turn := turn.(budget := ChargeTool(turn.budget));
      } else if !ReadsExhausted(turn.budget) {
        turn := turn.(budget := ChargeRead(turn.budget));
      }
      Reply(call, Unsupported);
    }

    /** Admission of a lookup: refused calls are answered here, admitted ones are not yet. */
    method BeginLookup(call: Call) returns (admitted: bool)
      modifies this
      ensures admitted <==> !ToolCallsExhausted(old(turn).budget) && (call.outcomes.lookup.LookupRaises? || call.outcomes.lookup.LookupAnswers?)
      ensures turn == AfterSearching(old(turn), 0, false)
      ensures admitted ==> messages == old(messages)
      ensures !admitted ==> OneResult(old(messages), messages, call, LookupStatus(old(turn), call.outcomes.lookup))
    {
      if ToolCallsExhausted(turn.budget) {
        Reply(call, StepLimit);
        return false;
      }
      turn := turn.(budget := ChargeTool(turn.budget));
      if call.outcomes.lookup.SearchMissing? {
        Reply(call, Unsupported);
        return false;
      }
      if call.outcomes.lookup.BadQuery? {
        Reply(call, Invalid);
        return false;
      }
      return true;
    }

    /** A memo or shared prompt lookup: raising, failing and answering searches each get their own result. */
    method RunLookup(call: Call)
      modifies this
      ensures turn == AfterTool(old(turn), Lookup, call.outcomes)
      ensures OneResult(old(messages), messages, call, LookupStatus(old(turn), call.outcomes.lookup))
    {
      var admitted := BeginLookup(call);
      if !admitted {
        return;
      }
      var outcome := call.outcomes.lookup;
      if outcome.LookupRaises? {
        Reply(call, Failed);
        return;
      }
      turn := Gain(turn, outcome.evidence, false);
      if outcome.failed {
        Reply(call, Failed);
        return;
      }
      Reply(call, Found);
    }

    /** A fresh search: it appends its result as its last act, or raises at some stage before. */
    method ExecuteWebSearch(call: Call) returns (raised: bool)
      requires call.outcomes.search.RaisesAt? || call.outcomes.search.Finds?
      modifies this
      ensures raised <==> call.outcomes.search.RaisesAt?
      ensures turn == Gain(old(turn), SearchEvidence(call.outcomes.search), true)
      ensures raised ==> messages == old(messages)
      ensures !raised ==> OneResult(old(messages), messages, call, Found)
    {
      var outcome := call.outcomes.search;
      if outcome.RaisesAt? && (outcome.stage.Request? || outcome.stage.StoreEvidence?) {
        return true;
      }
      turn := Gain(turn, outcome.evidence, true);
      if outcome.RaisesAt? {
        return true;
      }
      Reply(call, Found);
      return false;
    }

    /** A web search: refused, malformed, cached, executed, or caught by one of its two handlers. */
    method RunWebSearch(call: Call)
      modifies this
      ensures turn == AfterTool(old(turn), WebSearch, call.outcomes)
      ensures OneResult(old(messages), messages, call, SearchStatus(old(turn), call.outcomes.search))
    {
      var outcome := call.outcomes.search;
      if ToolCallsExhausted(turn.budget) {
        Reply(call, StepLimit);
        return;
      }
      turn := turn.(budget := ChargeTool(turn.budget));
      if outcome.EmptyQuery? {
        Reply(call, Invalid);
        return;
      }
      if outcome.Cached? {
        turn := Gain(turn, outcome.evidence, true);
        Reply(call, Found);
        return;
      }
      var raised := ExecuteWebSearch(call);
      if raised {
        if outcome.quota {
          Reply(call, QuotaExceeded);
        } else {
          Reply(call, Failed);
        }
      }
    }

    /** Stored evidence, a known page, or a workspace read on the reading budget. */
    method RunRead(call: Call, kind: Kind)
      requires IsReader(kind) || kind == WorkspaceRead(true)
      modifies this
      ensures turn == AfterTool(old(turn), kind, call.outcomes)
      ensures OneResult(old(messages), messages, call, ReadStatus(ReadsExhausted(old(turn).budget), call.outcomes.read))
    {
      if ReadsExhausted(turn.budget) {
        Reply(call, StepLimit);
        return;
      }
      turn := turn.(budget := ChargeRead(turn.budget));
      match call.outcomes.read {
        case ReadCrashes =>
          Reply(call, Failed);
        case ReadInvalid(chars) =>
          turn := turn.(budget := ChargeChars(turn.budget, chars));
          Reply(call, Invalid);
        case ReadAnswers(chars, evidence) =>
          if kind.WorkspaceRead? {
            turn := Gain(turn, evidence, false);
          }
          turn := turn.(budget := ChargeChars(turn.budget, chars));
          Reply(call, Found);
      }
    }

    method RunWorkspaceRead(call: Call)
      modifies this
      ensures turn == AfterTool(old(turn), WorkspaceRead(false), call.outcomes)
      ensures OneResult(old(messages), messages, call, ReadStatus(ToolCallsExhausted(old(turn).budget), call.outcomes.read))
    {
      if ToolCallsExhausted(turn.budget) {
        Reply(call, StepLimit);
        return;
      }
      turn := turn.(budget := ChargeTool(turn.budget));
      match call.outcomes.read {
        case ReadCrashes => Reply(call, Failed);
        case ReadInvalid(_) => Reply(call, Invalid);
        case ReadAnswers(_, evidence) =>
          turn := Gain(turn, evidence, false);
          Reply(call, Found);
      }
    }

    method RunWrite(call: Call)
      modifies this
      ensures turn == AfterProposal(old(turn), call.outcomes.write)
      ensures OneResult(old(messages), messages, call, WriteStatus(old(turn), call.outcomes.write))
    {
      var outcome := call.outcomes.write;
      if WritesExhausted(turn.budget) {
        Reply(call, StepLimit);
        return;
      }
      if outcome.ReadRequired? {
        Reply(call, NeedsRead);
        return;
      }
      turn := turn.(budget := turn.budget.(writes := turn.budget.writes + 1));
      if outcome.ProposalFails? {
        Reply(call, Failed);
        return;
      }
      turn := turn.(approvalCards := turn.approvalCards + 1);
      if outcome.awaits {
        turn := turn.(awaitingCards := turn.awaitingCards + 1);
      }
      Reply(call, AwaitsOrDone);
    }

    method RunCall(call: Call)
      modifies this
      ensures turn == AfterCall(old(turn), call)
      ensures OneResult(old(messages), messages, call, StatusOf(old(turn), call))
    {
      hide AfterUnsupported, AfterSearching, AfterReading, UsableOf, LookupStatus, SearchStatus, ReadStatus, OneResult;
      var tools := AvailableAgentTools(turn);
      var i := IndexOf(tools, call.name);
      if i == |tools| {
        RecordUnsupported(call);
      } else {
        match tools[i].kind {
          case GetEvidence | ReadWebPage => RunRead(call, tools[i].kind);
          case WorkspaceRead(true) => RunRead(call, tools[i].kind);
          case WorkspaceRead(false) => RunWorkspaceRead(call);
          case WorkspaceWrite => RunWrite(call);
          case Lookup => RunLookup(call);
          case WebSearch => RunWebSearch(call);
        }
      }
    }

    /**
     Every requested call is answered once and in order, whatever it meets. If an error escapes from
     a runner the dispatch ends there, with the calls before it answered.
     */
    method Dispatch(calls: seq<Call>) returns (escaped: bool)
      modifies this
      ensures escaped <==> !AllStay(calls)
      ensures turn == AfterDispatch(old(turn), calls)
      ensures !escaped ==> WellFormedExchange(messages, calls)
      ensures escaped ==>
                var n := Executed(calls);
                ExchangeOf(messages, calls, if calls[n - 1].outcomes.escape.BeforeResult? then n - 1 else n)
    {
      hide AfterCall, StatusOf;
      messages := [AssistantCalls(calls)];
      var i := 0;
      while i < |calls|
        invariant 0 <= i <= |calls|
        invariant forall j :: 0 <= j < i ==> calls[j].outcomes.escape.Stays?
        invariant turn == AfterCalls(old(turn), calls[..i])
        invariant ExchangeOf(messages, calls, i)
      {
        assert calls[..i + 1][..i] == calls[..i];
        RunCall(calls[i]);
        i := i + 1;
        if !calls[i - 1].outcomes.escape.Stays? {
          assert Executed(calls) == i;
          return true;
        }
      }
      assert Executed(calls) == |calls| && calls[..|calls|] == calls;
      if turn.awaitingCards > 0 && !turn.approvalPending {
        turn := turn.(approvalPending := true);
      }
      return false;
    }
  }
}

/** The loop of model decisions that answers one turn. */
module AgentLoop {
  import opened AgentTools
  import opened ToolDispatch

  /** How one model request can come back. */
  datatype Reply =
    | StopSeen
    | InputLimit
    | SchemaError
    | ServiceError(permanent: bool)
    | Crash
    | Decided(calls: seq<Call>, visible: bool, outputLimited: bool, claimsWrite: bool)

  /** Everything outside the loop that one iteration meets, chosen by the provider, the user and the context builder. */
  datatype Moment = Moment(
    stopRequested: bool, contextFits: bool, reply: Reply,
    hasText: bool, cancelled: bool, cancelledLater: bool)

  datatype End = Stopped | OutOfTurns | Answered(visible: bool) | Raised

  /** What one iteration led to. */
  datatype Outcome = Over(end: End) | Recovered(how: Recovery) | Dispatched(calls: seq<Call>) | Broken(calls: seq<Call>)

  /** The tools a decision is given; none means that it must answer. */
  function ActiveTools(t: Turn): seq<Tool> {
    if EmptyAnswer in t.recovered && (!t.hasWorkspace || t.approvalCards > 0) then [] else Offered(t)
  }

  /** An empty answer already retried leaves a decision its tools only where a workspace has proposed nothing yet. */
  lemma ActiveIff(t: Turn, tool: Tool)
    ensures tool in ActiveTools(t) <==> tool in Offered(t) && (EmptyAnswer in t.recovered ==> t.hasWorkspace && t.approvalCards == 0)
  {
  }

  /** The calls of a decision that count; a decision without tools has none. */
  function EffectiveCalls(active: seq<Tool>, reply: Reply): seq<Call>
    requires reply.Decided?
  {
    if active == [] then [] else reply.calls
  }

  /** When each recovery may replace the end of a decision. */
  predicate Applies(how: Recovery, t: Turn, active: seq<Tool>, m: Moment) {
    && how !in t.recovered
    && match how
       case MinimalContext => m.reply.InputLimit? && !m.hasText
       case ToolSchema => m.reply.SchemaError? && active == [] && !m.cancelled
       case DegradeToAnswer =>
         && active != [] && !m.cancelled
         && (|| (m.reply.InputLimit? && (MinimalContext in t.recovered || m.hasText))
             || m.reply.SchemaError?
             || (m.reply.ServiceError? && !m.reply.permanent))
       case WorkspaceAction =>
         && m.reply.Decided? && EffectiveCalls(active, m.reply) == []
         && m.reply.visible && t.hasWorkspace && active != [] && t.approvalCards == 0
         && !m.cancelled && !m.reply.outputLimited && m.reply.claimsWrite
       case EmptyAnswer =>
         && m.reply.Decided? && EffectiveCalls(active, m.reply) == []
         && !m.reply.visible && !m.hasText && !m.cancelledLater
  }

  /** A decision ends the turn, unless it asked for tools or a recovery applies; an error escaping from a tool breaks it off. */
  predicate OutcomeFits(t: Turn, active: seq<Tool>, m: Moment, outcome: Outcome) {
    match outcome
    case Recovered(how) => Applies(how, t, active, m)
    case Dispatched(calls) => m.reply.Decided? && active != [] && calls == m.reply.calls && calls != [] && AllStay(calls)
    case Broken(calls) => m.reply.Decided? && active != [] && calls == m.reply.calls && !AllStay(calls)
    case Over(end) =>
      && (forall how :: !Applies(how, t, active, m))
      && (end.Stopped? <==> m.reply.StopSeen?)
      && (end.Answered? <==> m.reply.Decided? && EffectiveCalls(active, m.reply) == [])
      && (end.Answered? ==> end.visible == m.reply.visible)
      && !end.OutOfTurns?
  }

  function StartLlmTurn(t: Turn): Turn {
    t.(budget := t.budget.(llmTurns := t.budget.llmTurns + 1))
  }

  /** The turn after a decision, by its outcome. */
  function AfterOutcome(t: Turn, outcome: Outcome): Turn {
    match outcome
    case Over(_) => t
    case Recovered(how) => t.(recovered := t.recovered + {how})
    case Dispatched(calls) => AfterDispatch(t, calls)
    case Broken(calls) => AfterDispatch(t, calls)
  }

  lemma StartAdvances(t: Turn)
    requires WithinLimits(t.budget) && t.budget.llmTurns < t.budget.maxLlmTurns
    ensures Advances(t, StartLlmTurn(t)) && WithinLimits(StartLlmTurn(t).budget)
  {
  }

  /** Whatever a decision led to, the turn only advances and stays within its limits. */
  lemma OutcomeKeeps(t: Turn, outcome: Outcome)
    requires WithinLimits(t.budget)
    ensures var after := AfterOutcome(t, outcome);
            Advances(t, after) && WithinLimits(after.budget) && after.budget.llmTurns == t.budget.llmTurns
  {
    hide AfterDispatch;
    if outcome.Dispatched? || outcome.Broken? {
      DispatchKeeps(t, outcome.calls);
    }
  }

  /** A tool set that shrank: nothing is offered again once it was withdrawn. */
  predicate Within(later: seq<Tool>, earlier: seq<Tool>) {
    forall tool :: tool in later ==> tool in earlier
  }

  lemma ActiveShrinks(a: Turn, b: Turn)
    requires Advances(a, b)
    ensures Within(ActiveTools(b), ActiveTools(a))
  {
    OfferedShrinks(a, b);
  }

  lemma LastTurnHasNoTools(t: Turn)
    requires t.budget.llmTurns + 1 >= t.budget.maxLlmTurns
    ensures ActiveTools(t) == []
  {
  }

  /** The recoveries among some outcomes, in order. */
  ghost function Recoveries(outcomes: seq<Outcome>): seq<Recovery> {
    if |outcomes| == 0 then []
    else
      var rest, last := Recoveries(outcomes[..|outcomes| - 1]), outcomes[|outcomes| - 1];
      if last.Recovered? then rest + [last.how] else rest
  }

  ghost predicate Distinct(s: seq<Recovery>) {
    forall i, j :: 0 <= i < j < |s| ==> s[i] != s[j]
  }

  /** Each decision was given no more than the one before, and the last permitted one was given nothing. */
  ghost predicate OffersShrink(offers: seq<seq<Tool>>, t: Turn) {
    && (forall i, j :: 0 <= i < j < |offers| ==> Within(offers[j], offers[i]))
    && (forall i :: 0 <= i < |offers| ==> Within(ActiveTools(t), offers[i]))
    && (forall i :: 0 <= i < |offers| && i + 1 >= t.budget.maxLlmTurns ==> offers[i] == [])
  }

  /** Each recovery happened at most once, and exactly those recorded as spent. */
  ghost predicate RecoveriesOnce(outcomes: seq<Outcome>, t: Turn) {
    && Distinct(Recoveries(outcomes))
    && forall how :: how in Recoveries(outcomes) <==> how in t.recovered
  }

  lemma OffersKeep(offers: seq<seq<Tool>>, before: Turn, after: Turn)
    requires OffersShrink(offers, before) && Advances(before, after) && |offers| == before.budget.llmTurns
    ensures OffersShrink(offers + [ActiveTools(before)], after)
  {
    hide ActiveTools, Within, Advances;
    var more := offers + [ActiveTools(before)];
    assert before.budget.maxLlmTurns == after.budget.maxLlmTurns by { AdvancesFixesLimits(before, after); }
    ActiveShrinks(before, after);
    forall i | 0 <= i < |offers| ensures Within(ActiveTools(after), offers[i]) {
      WithinTransitive(ActiveTools(after), ActiveTools(before), offers[i]);
    }
    if |offers| + 1 >= before.budget.maxLlmTurns {
      LastTurnHasNoTools(before);
    }
  }

  lemma AdvancesFixesLimits(a: Turn, b: Turn)
    requires Advances(a, b)
    ensures a.budget.maxLlmTurns == b.budget.maxLlmTurns
  {
  }

  lemma WithinTransitive(a: seq<Tool>, b: seq<Tool>, c: seq<Tool>)
    requires Within(a, b) && Within(b, c)
    ensures Within(a, c)
  {
  }

  lemma RecoveriesKeep(outcomes: seq<Outcome>, t: Turn, outcome: Outcome)
    requires RecoveriesOnce(outcomes, t) && WithinLimits(t.budget)
    requires outcome.Recovered? ==> outcome.how !in t.recovered
    ensures RecoveriesOnce(outcomes + [outcome], AfterOutcome(t, outcome))
  {
    hide AfterDispatch;
    assert (outcomes + [outcome])[..|outcomes|] == outcomes;
    if outcome.Dispatched? || outcome.Broken? {
      DispatchKeeps(t, outcome.calls);
    }
  }

  /** A turn in progress, with the history of what each decision was given and how it ended. */
  class TurnRun {
    const dispatcher: Dispatcher
    ghost var offers: seq<seq<Tool>>
    ghost var outcomes: seq<Outcome>

    ghost predicate Valid()
      reads this, dispatcher
    {
      && WithinLimits(dispatcher.turn.budget)
      && |offers| == |outcomes| == dispatcher.turn.budget.llmTurns
      && OffersShrink(offers, dispatcher.turn)
      && RecoveriesOnce(outcomes, dispatcher.turn)
    }

    constructor (turn: Turn)
      requires turn.budget.llmTurns == 0 && WithinLimits(turn.budget) && turn.recovered == {}
      ensures Valid() && fresh(dispatcher) && dispatcher.turn == turn && offers == [] && outcomes == []
    {
      dispatcher := new Dispatcher(turn);
      offers, outcomes := [], [];
    }

    /** Close a decision that asked for no tools. */
    static method FinishAnswer(t: Turn, active: seq<Tool>, m: Moment) returns (outcome: Outcome)
      requires m.reply.Decided? && EffectiveCalls(active, m.reply) == []
      ensures OutcomeFits(t, active, m, outcome)
    {
      var reply := m.reply;
      if reply.visible && t.hasWorkspace && active != [] && t.approvalCards == 0 && WorkspaceAction !in t.recovered
         && !m.cancelled && !reply.outputLimited && reply.claimsWrite {
        return Recovered(WorkspaceAction);
      }
      if !reply.visible && !m.hasText && EmptyAnswer !in t.recovered && !m.cancelledLater {
        return Recovered(EmptyAnswer);
      }
      return Over(Answered(reply.visible));
    }

    /** A failed request: replay it smaller, replay it without tool history, degrade, or give up. */
    static method HandleFailure(t: Turn, active: seq<Tool>, m: Moment) returns (outcome: Outcome)
      requires !m.reply.Decided? && !m.reply.StopSeen?
      ensures OutcomeFits(t, active, m, outcome)
    {
      if m.reply.InputLimit? && MinimalContext !in t.recovered && !m.hasText {
        return Recovered(MinimalContext);
      }
      if m.reply.SchemaError? && active == [] && ToolSchema !in t.recovered && !m.cancelled {
        return Recovered(ToolSchema);
      }
      if !m.reply.Crash? && !m.cancelled && DegradeToAnswer !in t.recovered && active != []
         && !(m.reply.ServiceError? && m.reply.permanent) {
        return Recovered(DegradeToAnswer);
      }
      return Over(Raised);
    }

    static method Judge(t: Turn, active: seq<Tool>, m: Moment) returns (outcome: Outcome)
      ensures OutcomeFits(t, active, m, outcome)
      ensures outcome.Broken? ==> !AllStay(outcome.calls)
    {
      if m.reply.StopSeen? {
        return Over(Stopped);
      }
      if !m.reply.Decided? {
        outcome := HandleFailure(t, active, m);
      } else if active == [] || m.reply.calls == [] {
        outcome := FinishAnswer(t, active, m);
      } else {
        outcome := if AllStay(m.reply.calls) then Dispatched(m.reply.calls) else Broken(m.reply.calls);
      }
    }

    /** One decision of the model: every permitted one is counted, judged and recorded. */
    method Decide(m: Moment) returns (outcome: Outcome)
      requires Valid() && dispatcher.turn.budget.llmTurns < dispatcher.turn.budget.maxLlmTurns
      modifies this, dispatcher
      ensures Valid()
      ensures var t := old(dispatcher.turn);
              && OutcomeFits(StartLlmTurn(t), ActiveTools(t), m, outcome)
              && dispatcher.turn == AfterOutcome(StartLlmTurn(t), outcome)
              && dispatcher.turn.budget.llmTurns == t.budget.llmTurns + 1
              && dispatcher.turn.budget.maxLlmTurns == t.budget.maxLlmTurns
              && offers == old(offers) + [ActiveTools(t)] && outcomes == old(outcomes) + [outcome]
      ensures outcome.Dispatched? ==> WellFormedExchange(dispatcher.messages, outcome.calls)
    {
      hide ActiveTools, OffersShrink, RecoveriesOnce, AfterDispatch, Advances, WithinLimits, Applies;
      var before := dispatcher.turn;
      var active := ActiveTools(before);
      var started := StartLlmTurn(before);
      StartAdvances(before);
      outcome := Judge(started, active, m);
      AppliesOnce(started, active, m, outcome);
      RecoveriesKeepStart(outcomes, before);
      RecoveriesKeep(outcomes, started, outcome);
      OutcomeKeeps(started, outcome);
      AdvancesTransitive(before, started, AfterOutcome(started, outcome));
      AdvancesFixesLimits(before, AfterOutcome(started, outcome));
      OffersKeep(offers, before, AfterOutcome(started, outcome));
      dispatcher.turn := started;
      match outcome {
        case Over(_) =>
        case Recovered(how) => dispatcher.turn := started.(recovered := started.recovered + {how});
        case Dispatched(calls) => var _ := dispatcher.Dispatch(calls);
        case Broken(calls) => var _ := dispatcher.Dispatch(calls);
      }
      offers, outcomes := offers + [active], outcomes + [outcome];
    }

    /** The whole turn, against any provider, user and context: `world(k)` is what iteration k meets. */
    method Run(world: nat -> Moment) returns (end: End)
      requires Valid() && dispatcher.turn.budget.llmTurns == 0
      modifies this, dispatcher
      ensures Valid()
      ensures end.OutOfTurns? ==>
                && |outcomes| == dispatcher.turn.budget.maxLlmTurns
                && (outcomes == [] || LostLastAnswer(outcomes[|outcomes| - 1]))
      ensures forall i :: 0 <= i < |outcomes| ==> !world(i).stopRequested && world(i).contextFits
      ensures forall i :: 0 <= i < |outcomes| - 1 ==> !outcomes[i].Over? && !outcomes[i].Broken?
      ensures if outcomes != [] && outcomes[|outcomes| - 1].Over? then end == outcomes[|outcomes| - 1].end
              else if outcomes != [] && outcomes[|outcomes| - 1].Broken? then end == Raised
              else end == EndBetween(world(|outcomes|), dispatcher.turn.budget) && (end.Raised? ==> !world(|outcomes|).contextFits)
      ensures end.Answered? && !end.visible ==>
                var last := world(|outcomes| - 1);
                EmptyAnswer in dispatcher.turn.recovered || last.hasText || last.cancelledLater
    {
      hide OffersShrink, RecoveriesOnce, AfterDispatch, Advances, WithinLimits, ActiveTools;
      while true
        invariant Valid()
        invariant forall i :: 0 <= i < |outcomes| ==> !world(i).stopRequested && world(i).contextFits
        invariant forall i :: 0 <= i < |outcomes| ==> !outcomes[i].Over? && !outcomes[i].Broken?
        invariant outcomes != [] && |outcomes| == dispatcher.turn.budget.maxLlmTurns ==> LostLastAnswer(outcomes[|outcomes| - 1])
        decreases dispatcher.turn.budget.maxLlmTurns - dispatcher.turn.budget.llmTurns
      {
        var m := world(dispatcher.turn.budget.llmTurns);
        if m.stopRequested {
          return Stopped;
        }
        if dispatcher.turn.budget.llmTurns >= dispatcher.turn.budget.maxLlmTurns {
          assert |outcomes| == dispatcher.turn.budget.maxLlmTurns by { LimitReached(dispatcher.turn.budget); }
          return OutOfTurns;
        }
        if !m.contextFits {
          return Raised;
        }
        ghost var before := dispatcher.turn;
        var outcome := Decide(m);
        if outcome.Broken? {
          return Raised;
        }
        if outcome.Over? {
          assert outcome.end.Answered? && !outcome.end.visible ==> !Applies(EmptyAnswer, StartLlmTurn(before), ActiveTools(before), m);
          return outcome.end;
        }
        if before.budget.llmTurns + 1 == before.budget.maxLlmTurns {
          LastTurnHasNoTools(before);
        }
      }
    }
  }

  /** How the loop ends between two decisions. */
  function EndBetween(m: Moment, b: Budget): End {
    if m.stopRequested then Stopped else if b.llmTurns >= b.maxLlmTurns then OutOfTurns else Raised
  }

  /** The reserved answer was lost to one of the replays that need no tools. */
  ghost predicate LostLastAnswer(outcome: Outcome) {
    outcome.Recovered? && outcome.how in {MinimalContext, ToolSchema, EmptyAnswer}
  }

  lemma LimitReached(b: Budget)
    requires WithinLimits(b) && b.llmTurns >= b.maxLlmTurns
    ensures b.llmTurns == b.maxLlmTurns
  {
  }

  lemma AppliesOnce(t: Turn, active: seq<Tool>, m: Moment, outcome: Outcome)
    requires OutcomeFits(t, active, m, outcome)
    ensures outcome.Recovered? ==> outcome.how !in t.recovered
  {
  }

  lemma RecoveriesKeepStart(outcomes: seq<Outcome>, t: Turn)
    requires RecoveriesOnce(outcomes, t)
    ensures RecoveriesOnce(outcomes, StartLlmTurn(t))
  {
  }
}
