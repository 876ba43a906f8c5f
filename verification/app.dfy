/** The chat front end: each user message is classified by the router, sent
    to one agent (or answered directly by the language model), and the
    exchange is appended to the session's global history. The router, the
    agents other than the planner and the direct answer are oracles; the
    planner is the modelled graph run, as written or with its retry label
    corrected. */
module App {

  import opened Wrappers
  import SmartPlanner

  datatype Message = Human(content: string) | Ai(content: string)

  /** The session's `GlobalState` dictionary. */
  datatype GlobalState = GlobalState(messages: seq<Message>, selectedAgent: Option<string>)

  /** `init_state`, and the default `get_state` falls back on. */
  function InitState(): (g: GlobalState)
    ensures g.messages == [] && g.selectedAgent.None?
  {
    GlobalState([], None)
  }

  /** `get_state`: the stored state, or a fresh one when none is stored. */
  function GetState(stored: Option<GlobalState>): (g: GlobalState)
    ensures stored.Some? ==> g == stored.value
    ensures stored.None? ==> g.messages == [] && g.selectedAgent.None?
  {
    if stored.Some? then stored.value else InitState()
  }

  /** `add_exchange`: the user's input and the answer are appended, in that
      order, and the answering agent is recorded. */
  function AddExchange(stored: Option<GlobalState>, userInput: string, output: string, agentName: string): (g: GlobalState)
    ensures |g.messages| == |GetState(stored).messages| + 2
    ensures g.messages[..|GetState(stored).messages|] == GetState(stored).messages
    ensures g.messages[|g.messages| - 2] == Human(userInput) && g.messages[|g.messages| - 1] == Ai(output)
    ensures g.selectedAgent == Some(agentName)
  {
    var state := GetState(stored);
    state.(messages := state.messages + [Human(userInput), Ai(output)], selectedAgent := Some(agentName))
  }

  /** `get_history` */
  function GetHistory(stored: Option<GlobalState>): seq<Message>
  {
    GetState(stored).messages
  }

  // ---------------------------------------------------------------------
  // Routing
  // ---------------------------------------------------------------------

  datatype Agent = AssistantTeacher | SmartPlannerAgent | InfoUvsq | NoAgent

  /** The intent string of the router, compared exactly: anything but the
      three category names, including "autre" and any variation in case or
      spacing, goes to the direct answer. */
  function Dispatch(intent: string): (a: Agent)
    ensures a == NoAgent <==> intent != "cours" && intent != "emploi_du_temps" && intent != "UVSQ"
  {
    if intent == "cours" then AssistantTeacher
    else if intent == "emploi_du_temps" then SmartPlannerAgent
    else if intent == "UVSQ" then InfoUvsq
    else NoAgent
  }

  /** The name recorded as `selected_agent`. */
  function AgentName(a: Agent): string
  {
    match a
    case AssistantTeacher => "AssistantTeacher"
    case SmartPlannerAgent => "SmartPlanner"
    case InfoUvsq => "info_UVSQ"
    case NoAgent => "none"
  }

  /** The intent that selects an agent, as the router is asked to produce it. */
  function IntentFor(a: Agent): string
  {
    match a
    case AssistantTeacher => "cours"
    case SmartPlannerAgent => "emploi_du_temps"
    case InfoUvsq => "UVSQ"
    case NoAgent => "autre"
  }

  /** Every category the router is told to answer reaches its own agent, and
      the recorded names tell the four apart. */
  lemma DispatchRoundTrip(a: Agent, b: Agent)
    ensures Dispatch(IntentFor(a)) == a
    ensures AgentName(a) == AgentName(b) ==> a == b
  {
  }

  /** Only the three exact category strings reach an agent. */
  lemma DispatchOnlyExact(intent: string)
    ensures Dispatch(intent) != NoAgent <==> intent in {"cours", "emploi_du_temps", "UVSQ"}
    ensures Dispatch(intent) != NoAgent ==> intent == IntentFor(Dispatch(intent))
  {
  }

  // ---------------------------------------------------------------------
  // Handling messages
  // ---------------------------------------------------------------------

  /** Which planner graph is deployed: the one in the code, whose give-up
      edge raises, or the one with the retry label it was evidently meant to
      have. */
  datatype PlannerBuild = AsWritten | CorrectedLabel

  /** The collaborators of `handle_message`. The teacher and the
      information agent return the contents of their final message lists;
      `chat` is the direct answer with the fixed persona prompt. */
  datatype Services = Services(
    router: string -> string,
    teacher: string -> seq<string>,
    planner: SmartPlanner.Oracle,
    build: PlannerBuild,
    info: string -> seq<string>,
    chat: string -> string)

  /** `result["messages"][-1].content`, raising (`None`) on an empty list. */
  function LastContent(contents: seq<string>): (r: Option<string>)
    ensures r.None? <==> |contents| == 0
    ensures r.Some? ==> r.value == contents[|contents| - 1]
  {
    if |contents| == 0 then None else Some(contents[|contents| - 1])
  }

  /** `ask_SmartPlanner(query)["query_result"]`: as written, the run raises
      (`None`) exactly where the corrected graph would give up; otherwise,
      and always with the corrected label, the answer is the result text of
      the corrected run's final state. */
  function PlannerReply(o: SmartPlanner.Oracle, build: PlannerBuild, query: string): (r: Option<string>)
    ensures build == CorrectedLabel ==> r == Some(SmartPlanner.AskSmartPlanner(o, query).final.queryResult)
    ensures build == AsWritten ==>
      && (r.None? <==> SmartPlanner.LastNode(SmartPlanner.AskSmartPlanner(o, query)) == SmartPlanner.EndMaxIterations)
      && (r.Some? ==> r.value == SmartPlanner.AskSmartPlanner(o, query).final.queryResult)
  {
    match build
    case CorrectedLabel => Some(SmartPlanner.AskSmartPlanner(o, query).final.queryResult)
    case AsWritten =>
      match SmartPlanner.AskSmartPlannerAsWritten(o, query)
      case None => None
      case Some(st) => Some(st.queryResult)
  }

  /** What the chosen agent answers, or `None` when it raises: the teacher
      and the information agent send the content of their last message, the
      planner the result text of its run. */
  function Reply(sv: Services, a: Agent, query: string): (r: Option<string>)
    ensures a == NoAgent ==> r == Some(sv.chat(query))
    ensures a == AssistantTeacher ==> (r.None? <==> |sv.teacher(query)| == 0)
    ensures a == AssistantTeacher && r.Some? ==> r.value == sv.teacher(query)[|sv.teacher(query)| - 1]
    ensures a == InfoUvsq ==> (r.None? <==> |sv.info(query)| == 0)
    ensures a == InfoUvsq && r.Some? ==> r.value == sv.info(query)[|sv.info(query)| - 1]
    ensures a == SmartPlannerAgent ==> r == PlannerReply(sv.planner, sv.build, query)
    ensures a == SmartPlannerAgent && sv.build == CorrectedLabel ==>
      r == Some(SmartPlanner.AskSmartPlanner(sv.planner, query).final.queryResult)
  {
    match a
    case AssistantTeacher => LastContent(sv.teacher(query))
    case SmartPlannerAgent => PlannerReply(sv.planner, sv.build, query)
    case InfoUvsq => LastContent(sv.info(query))
    case NoAgent => Some(sv.chat(query))
  }

  /** `handle_message`: the new stored state and the reply sent back, or the
      unchanged state and no reply when the agent raises before anything is
      recorded. */
  function HandleMessage(sv: Services, stored: Option<GlobalState>, query: string): (r: (Option<GlobalState>, Option<string>))
    ensures r.1.None? <==> r.0 == stored
  {
    var agent := Dispatch(sv.router(query));
    match Reply(sv, agent, query)
    case None => (stored, None)
    case Some(answer) =>
      var g := AddExchange(stored, query, answer, AgentName(agent));
      assert Some(g) != stored by {
        if stored.Some? {
          assert |g.messages| != |stored.value.messages|;
        }
      }
      (Some(g), Some(answer))
  }

  /** One handled message: the reply sent is the one recorded, the agent
      recorded is the one the router's intent selects, and the earlier
      history is kept as it was. */
  lemma HandleMessageRecordsReply(sv: Services, stored: Option<GlobalState>, query: string)
    ensures var (st, reply) := HandleMessage(sv, stored, query);
      && reply == Reply(sv, Dispatch(sv.router(query)), query)
      && (reply.None? ==> st == stored)
      && (reply.Some? ==>
        && GetHistory(st) == GetHistory(stored) + [Human(query), Ai(reply.value)]
        && GetState(st).selectedAgent == Some(AgentName(Dispatch(sv.router(query)))))
  {
  }

  /** With the corrected retry label, a schedule question whose three SQL
      attempts all raise is answered, and recorded, with the planner's
      give-up message. */
  lemma PlannerGiveUpReachesUser(sv: Services, stored: Option<GlobalState>, query: string)
    requires sv.build == CorrectedLabel
    requires sv.router(query) == "emploi_du_temps"
    requires SmartPlanner.IsRelevant(sv.planner.relevance(query))
    requires forall k: nat :: k < SmartPlanner.MaxAttempts ==> SmartPlanner.FailsAt(sv.planner, query, k)
    ensures var (st, reply) := HandleMessage(sv, stored, query);
      && reply == Some(SmartPlanner.GiveUpMessage)
      && GetHistory(st) == GetHistory(stored) + [Human(query), Ai(SmartPlanner.GiveUpMessage)]
  {
    SmartPlanner.AskSmartPlannerOutcome(sv.planner, query);
    assert SmartPlanner.FailsAt(sv.planner, query, 0);
    assert SmartPlanner.FailsAt(sv.planner, query, 1);
    assert SmartPlanner.FailsAt(sv.planner, query, 2);
  }

  /** As written, the same question makes `handle_message` raise before
      anything is recorded: no reply is sent and the history is unchanged. */
  lemma PlannerGiveUpRaises(sv: Services, stored: Option<GlobalState>, query: string)
    requires sv.build == AsWritten
    requires sv.router(query) == "emploi_du_temps"
    requires SmartPlanner.IsRelevant(sv.planner.relevance(query))
    requires forall k: nat :: k < SmartPlanner.MaxAttempts ==> SmartPlanner.FailsAt(sv.planner, query, k)
    ensures HandleMessage(sv, stored, query) == (stored, None)
  {
    SmartPlanner.GiveUpIffThreeFailures(sv.planner, query);
    assert SmartPlanner.FailsAt(sv.planner, query, 0);
    assert SmartPlanner.FailsAt(sv.planner, query, 1);
    assert SmartPlanner.FailsAt(sv.planner, query, 2);
  }

  /** A session: the messages handled one after another. */
  function HandleAll(sv: Services, stored: Option<GlobalState>, queries: seq<string>): (r: (Option<GlobalState>, seq<Option<string>>))
    ensures |r.1| == |queries|
    decreases |queries|
  {
    if |queries| == 0 then (stored, [])
    else
      var (st1, reply) := HandleMessage(sv, stored, queries[0]);
      var (st, replies) := HandleAll(sv, st1, queries[1..]);
      (st, [reply] + replies)
  }

  /** The history a session should leave: each answered query followed by
      its answer, in the order the queries came. */
  function Transcript(queries: seq<string>, replies: seq<Option<string>>): seq<Message>
    requires |replies| == |queries|
  {
    if |queries| == 0 then []
    else
      (if replies[0].Some? then [Human(queries[0]), Ai(replies[0].value)] else [])
      + Transcript(queries[1..], replies[1..])
  }

  function Answered(replies: seq<Option<string>>): nat
  {
    if |replies| == 0 then 0 else (if replies[0].Some? then 1 else 0) + Answered(replies[1..])
  }

  /** A transcript alternates user and assistant turns, two per answer. */
  lemma {:induction false} TranscriptAlternates(queries: seq<string>, replies: seq<Option<string>>)
    requires |replies| == |queries|
    ensures var t := Transcript(queries, replies);
      && |t| == 2 * Answered(replies)
      && forall k :: 0 <= k < |t| ==> (t[k].Human? <==> k % 2 == 0)
  {
    if |queries| > 0 {
      TranscriptAlternates(queries[1..], replies[1..]);
      var rest := Transcript(queries[1..], replies[1..]);
      if replies[0].Some? {
        var t := [Human(queries[0]), Ai(replies[0].value)] + rest;
        assert forall k :: 2 <= k < |t| ==> t[k] == rest[k - 2];
      }
    }
  }

  /** Over a session, every reply is what the routed agent answers to that
      query alone, whatever came before, and the history grows by exactly
      the transcript of the answered queries. */
  lemma {:induction false} SessionHistory(sv: Services, stored: Option<GlobalState>, queries: seq<string>)
    ensures var (st, replies) := HandleAll(sv, stored, queries);
      && (forall i :: 0 <= i < |queries| ==> replies[i] == Reply(sv, Dispatch(sv.router(queries[i])), queries[i]))
      && GetHistory(st) == GetHistory(stored) + Transcript(queries, replies)
    decreases |queries|
  {
    if |queries| > 0 {
      var (st1, reply) := HandleMessage(sv, stored, queries[0]);
      HandleMessageRecordsReply(sv, stored, queries[0]);
      SessionHistory(sv, st1, queries[1..]);
      var (st, replies) := HandleAll(sv, st1, queries[1..]);
      HandleAllCons(sv, stored, queries);
      TranscriptCons(GetHistory(stored), GetHistory(st1), GetHistory(st), queries, [reply] + replies);
      assert forall i :: 1 <= i < |queries| ==> queries[i] == queries[1..][i - 1];
    }
  }

  lemma HandleAllCons(sv: Services, stored: Option<GlobalState>, queries: seq<string>)
    requires |queries| > 0
    ensures var (st1, reply) := HandleMessage(sv, stored, queries[0]);
      var (st, replies) := HandleAll(sv, st1, queries[1..]);
      HandleAll(sv, stored, queries) == (st, [reply] + replies)
  {
  }

  /** A history that grows by the first exchange and then by the rest of
      the transcript grows by the whole transcript. */
  lemma TranscriptCons(h0: seq<Message>, h1: seq<Message>, h2: seq<Message>, queries: seq<string>, replies: seq<Option<string>>)
    requires |queries| == |replies| > 0
    requires h1 == h0 + (if replies[0].Some? then [Human(queries[0]), Ai(replies[0].value)] else [])
    requires h2 == h1 + Transcript(queries[1..], replies[1..])
    ensures h2 == h0 + Transcript(queries, replies)
  {
    var first := if replies[0].Some? then [Human(queries[0]), Ai(replies[0].value)] else [];
    var rest := Transcript(queries[1..], replies[1..]);
    assert Transcript(queries, replies) == first + rest;
    AppendAssoc(h0, first, rest);
  }

  lemma AppendAssoc<X>(a: seq<X>, b: seq<X>, c: seq<X>)
    ensures (a + b) + c == a + (b + c)
  {
  }
}
