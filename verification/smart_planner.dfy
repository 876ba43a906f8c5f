/** The SmartPlanner workflow: a seven-node graph that checks whether a
    question is about the timetable, turns it into SQL, runs it, and either
    answers, rewrites the question and retries (at most three executions),
    or gives up. Every call to the language model and to the database is an
    oracle supplied in an `Oracle` record; the routers and the state updates
    are modelled exactly. */
module SmartPlanner {

  import opened Wrappers
  import opened Text

  // ---------------------------------------------------------------------
  // Data model
  // ---------------------------------------------------------------------

  /** The graph's nodes; `Finished` stands for the graph's END. */
  datatype Node =
    | CheckRelevance
    | ConvertToSql
    | ExecuteSql
    | GenerateAnswer
    | RegenerateQuery
    | GenerateFunnyResponse
    | EndMaxIterations
    | Finished

  /** One result row as a column -> value dictionary, each value being its
      `str()` rendering. */
  type Row = map<string, string>

  /** The state threaded through the graph. */
  datatype StatePlanner = StatePlanner(
    question: string,
    sqlQuery: string,
    queryResult: string,
    queryRows: seq<Row>,
    attempts: int,
    relevance: string,
    sqlError: bool)

  /** A result set as the database hands it back: the column names, and rows
      with one cell per column. */
  datatype Table = Table(columns: seq<string>, rows: seq<seq<string>>)

  type ResultSet = t: Table | forall i :: 0 <= i < |t.rows| ==> |t.rows[i]| == |t.columns|
    witness Table([], [])

  /** What executing one statement does: it runs (for a SELECT the rows are
      fetched, for any other statement the session commits and the rows are
      ignored), or it raises, with the exception's text. */
  datatype ExecOutcome = Returned(table: ResultSet) | Raised(message: string)

  /** The four prompt variants of the answer node. */
  datatype Variant = ErrorVariant | NoRowsVariant | RowsVariant | ConfirmVariant

  datatype AnswerPrompt = AnswerPrompt(variant: Variant, sql: string, result: string)

  /** The external services. A call's position in the run is the attempt
      counter: the k-th SQL synthesis, execution and rewrite all happen while
      `attempts == k`, so the counter tells the oracles which call is meant. */
  datatype Oracle = Oracle(
    relevance: string -> string,
    synthesize: (int, string) -> string,
    execute: (int, string) -> ExecOutcome,
    rewrite: (int, string) -> string,
    answer: AnswerPrompt -> string,
    funny: string -> string)

  const MaxAttempts: int := 3
  const GiveUpMessage: string := "Veuillez réessayer"
  const NoResultsMessage: string := "No results found."
  const ActionDoneMessage: string := "The action has been successfully completed."
  const ErrorPrefix: string := "Error executing SQL query: "

  /** The state a run starts from. */
  function Initial(question: string): StatePlanner
  {
    StatePlanner(question, "", "", [], 0, "", false)
  }

  // ---------------------------------------------------------------------
  // Routers
  // ---------------------------------------------------------------------

  predicate IsRelevant(relevance: string)
  {
    Lower(relevance) == "relevant"
  }

  function RelevanceRouter(s: StatePlanner): (n: Node)
    ensures n == ConvertToSql || n == GenerateFunnyResponse
    ensures n == ConvertToSql <==> IsRelevant(s.relevance)
  {
    if IsRelevant(s.relevance) then ConvertToSql else GenerateFunnyResponse
  }

  /** The path map of the conditional edge that leaves `regenerate_query`:
      the router's label is looked up in it, and a label it lacks makes the
      graph raise. */
  function RetryPathMap(key: string): Option<Node>
  {
    if key == "convert_to_sql" then Some(ConvertToSql)
    else if key == "max_iterations" then Some(EndMaxIterations)
    else None
  }

  /** The label `check_attempts_router` returns as the code is written: on
      the give-up side it names the node, not the path-map key. */
  function CheckAttemptsLabelAsWritten(s: StatePlanner): string
  {
    if s.attempts < MaxAttempts then "convert_to_sql" else "end_max_iterations"
  }

  /** The label with the key the path map was evidently meant to match. */
  function CheckAttemptsLabel(s: StatePlanner): string
  {
    if s.attempts < MaxAttempts then "convert_to_sql" else "max_iterations"
  }

  /** As written, the retry edge works while attempts remain and raises once
      they are used up, so `end_max_iterations` is never reached; with the
      corrected label the edge always leads where `CheckAttemptsRouter`
      says. */
  lemma CheckAttemptsEdgeRaises(s: StatePlanner)
    ensures RetryPathMap(CheckAttemptsLabelAsWritten(s)).None? <==> s.attempts >= MaxAttempts
    ensures s.attempts < MaxAttempts ==>
      RetryPathMap(CheckAttemptsLabelAsWritten(s)) == Some(CheckAttemptsRouter(s))
    ensures RetryPathMap(CheckAttemptsLabel(s)) == Some(CheckAttemptsRouter(s))
  {
  }

  /** The retry edge with the corrected label, which the graph below uses:
      another conversion while fewer than three attempts have been made,
      the give-up node otherwise. */
  function CheckAttemptsRouter(s: StatePlanner): (n: Node)
    ensures n == ConvertToSql || n == EndMaxIterations
    ensures n == ConvertToSql <==> s.attempts < MaxAttempts
  {
    if s.attempts < MaxAttempts then ConvertToSql else EndMaxIterations
  }

  function ExecuteSqlRouter(s: StatePlanner): (n: Node)
    ensures n == GenerateAnswer || n == RegenerateQuery
    ensures n == GenerateAnswer <==> !s.sqlError
  {
    if !s.sqlError then GenerateAnswer else RegenerateQuery
  }

  // ---------------------------------------------------------------------
  // execute_sql
  // ---------------------------------------------------------------------

  predicate IsSelect(sql: string)
  {
    StartsWith(Lower(sql), "select")
  }

  /** `dict(zip(columns, row))`: a later column of the same name overrides an
      earlier one. */
  function RowDict(columns: seq<string>, row: seq<string>): (d: Row)
    requires |row| == |columns|
    ensures d.Keys == set c | c in columns
  {
    if |columns| == 0 then map[]
    else
      var n := |columns| - 1;
      assert columns == columns[..n] + [columns[n]];
      RowDict(columns[..n], row[..n])[columns[n] := row[n]]
  }

  /** The value a column name maps to comes from its last occurrence. */
  lemma {:induction false} RowDictLastWins(columns: seq<string>, row: seq<string>, j: nat)
    requires |row| == |columns| && j < |columns|
    requires forall k :: j < k < |columns| ==> columns[k] != columns[j]
    ensures RowDict(columns, row)[columns[j]] == row[j]
  {
    var n := |columns| - 1;
    if j < n {
      RowDictLastWins(columns[..n], row[..n], j);
    }
  }

  function RowDicts(t: ResultSet): (ds: seq<Row>)
    ensures |ds| == |t.rows|
    ensures forall i :: 0 <= i < |ds| ==> ds[i] == RowDict(t.columns, t.rows[i])
  {
    seq(|t.rows|, i requires 0 <= i < |t.rows| => RowDict(t.columns, t.rows[i]))
  }

  /** `", ".join([f"{col}: {row[col]}" for col in columns])` */
  function RowLine(columns: seq<string>, d: Row): string
    requires forall j :: 0 <= j < |columns| ==> columns[j] in d
  {
    Join(", ", seq(|columns|, j requires 0 <= j < |columns| => columns[j] + ": " + d[columns[j]]))
  }

  /** The position of the last column that has the same name as column
      `j`. */
  function LastOccurrence(columns: seq<string>, j: nat): (k: nat)
    requires j < |columns|
    ensures j <= k < |columns| && columns[k] == columns[j]
    ensures forall m :: k < m < |columns| ==> columns[m] != columns[j]
    decreases |columns|
  {
    var n := |columns| - 1;
    if columns[n] == columns[j] then n else LastOccurrence(columns[..n], j)
  }

  predicate Distinct(columns: seq<string>)
  {
    forall i, j :: 0 <= i < j < |columns| ==> columns[i] != columns[j]
  }

  /** A data line read straight off the database row: each column name
      with the cell at its own position. */
  function PlainRow(columns: seq<string>, row: seq<string>): string
    requires |row| == |columns|
  {
    Join(", ", seq(|columns|, j requires 0 <= j < |columns| => columns[j] + ": " + row[j]))
  }

  /** A data line where each column name shows the cell of the last column
      of that name. */
  function ShownRow(columns: seq<string>, row: seq<string>): string
    requires |row| == |columns|
  {
    Join(", ", seq(|columns|, j requires 0 <= j < |columns| => columns[j] + ": " + row[LastOccurrence(columns, j)]))
  }

  /** With a repeated column name, every occurrence shows the value at the
      last position of that name, since the dictionary keeps one entry per
      name; the data line is therefore `ShownRow`. */
  lemma DuplicateColumnShowsLastValue(columns: seq<string>, row: seq<string>)
    requires |row| == |columns|
    ensures forall j :: 0 <= j < |columns| ==> RowDict(columns, row)[columns[j]] == row[LastOccurrence(columns, j)]
    ensures RowLine(columns, RowDict(columns, row)) == ShownRow(columns, row)
  {
    var d := RowDict(columns, row);
    forall j | 0 <= j < |columns| ensures d[columns[j]] == row[LastOccurrence(columns, j)] {
      RowDictLastWins(columns, row, LastOccurrence(columns, j));
    }
    assert seq(|columns|, j requires 0 <= j < |columns| => columns[j] + ": " + d[columns[j]])
        == seq(|columns|, j requires 0 <= j < |columns| => columns[j] + ": " + row[LastOccurrence(columns, j)]);
  }

  /** With distinct names, the last occurrence of a column is itself. */
  lemma ShownRowDistinct(columns: seq<string>, row: seq<string>)
    requires |row| == |columns| && Distinct(columns)
    ensures ShownRow(columns, row) == PlainRow(columns, row)
  {
    assert forall j :: 0 <= j < |columns| ==> LastOccurrence(columns, j) == j;
    assert seq(|columns|, j requires 0 <= j < |columns| => columns[j] + ": " + row[LastOccurrence(columns, j)])
        == seq(|columns|, j requires 0 <= j < |columns| => columns[j] + ": " + row[j]);
  }

  /** The text of a non-empty result: the header line, a newline, and one
      line per row, in row order, each naming every column with the cell
      the row dictionary keeps for it; with distinct column names that is
      the row's own cell. */
  function FormatRows(t: ResultSet): (text: string)
    ensures text == Join(", ", t.columns) + "\n"
      + Join("\n", seq(|t.rows|, i requires 0 <= i < |t.rows| => ShownRow(t.columns, t.rows[i])))
    ensures Distinct(t.columns) ==>
      (text == Join(", ", t.columns) + "\n"
               + Join("\n", seq(|t.rows|, i requires 0 <= i < |t.rows| => PlainRow(t.columns, t.rows[i]))))
  {
    var ds := RowDicts(t);
    var lines := seq(|ds|, i requires 0 <= i < |ds| => RowLine(t.columns, ds[i]));
    assert lines == seq(|t.rows|, i requires 0 <= i < |t.rows| => ShownRow(t.columns, t.rows[i])) by {
      forall i | 0 <= i < |t.rows| ensures lines[i] == ShownRow(t.columns, t.rows[i]) {
        DuplicateColumnShowsLastValue(t.columns, t.rows[i]);
      }
    }
    assert Distinct(t.columns) ==>
      seq(|t.rows|, i requires 0 <= i < |t.rows| => ShownRow(t.columns, t.rows[i]))
      == seq(|t.rows|, i requires 0 <= i < |t.rows| => PlainRow(t.columns, t.rows[i])) by {
      if Distinct(t.columns) {
        forall i | 0 <= i < |t.rows| ensures ShownRow(t.columns, t.rows[i]) == PlainRow(t.columns, t.rows[i]) {
          ShownRowDistinct(t.columns, t.rows[i]);
        }
      }
    }
    Join(", ", t.columns) + "\n" + Join("\n", lines)
  }

  /** The `execute_sql` node, given what the database did with the stripped
      statement: the error text and flag when the database raises; the
      confirmation text when a statement other than SELECT succeeds; the
      no-rows text and an empty row list for an empty SELECT; otherwise one
      dictionary per row keyed by the column names and a text made of the
      header line and one `col: value` line per row. The question, statement, counter and verdict are
      never touched, and the rows survive a failure or a non-SELECT
      statement. */
  function ExecuteSqlNode(s: StatePlanner, outcome: ExecOutcome): (r: StatePlanner)
    ensures r.question == s.question && r.sqlQuery == s.sqlQuery
    ensures r.attempts == s.attempts && r.relevance == s.relevance
    ensures r.sqlError <==> outcome.Raised?
    ensures outcome.Raised? ==>
      r.queryResult == ErrorPrefix + outcome.message && r.queryRows == s.queryRows
    ensures outcome.Returned? && !IsSelect(Strip(s.sqlQuery)) ==>
      r.queryResult == ActionDoneMessage && r.queryRows == s.queryRows
    ensures outcome.Returned? && IsSelect(Strip(s.sqlQuery)) && |outcome.table.rows| == 0 ==>
      r.queryResult == NoResultsMessage && r.queryRows == []
    ensures outcome.Returned? && IsSelect(Strip(s.sqlQuery)) && |outcome.table.rows| > 0 ==>
      && |r.queryRows| == |outcome.table.rows|
      && (forall i :: 0 <= i < |r.queryRows| ==> r.queryRows[i] == RowDict(outcome.table.columns, outcome.table.rows[i]))
      && (forall i :: 0 <= i < |r.queryRows| ==> r.queryRows[i].Keys == set c | c in outcome.table.columns)
      && StartsWith(r.queryResult, Join(", ", outcome.table.columns) + "\n")
      && r.queryResult == Join(", ", outcome.table.columns) + "\n"
         + Join("\n", seq(|outcome.table.rows|, i requires 0 <= i < |outcome.table.rows| =>
                            ShownRow(outcome.table.columns, outcome.table.rows[i])))
      && (Distinct(outcome.table.columns) ==>
           r.queryResult == Join(", ", outcome.table.columns) + "\n"
           + Join("\n", seq(|outcome.table.rows|, i requires 0 <= i < |outcome.table.rows| =>
                              PlainRow(outcome.table.columns, outcome.table.rows[i]))))
  {
    match outcome
    case Raised(m) => s.(queryResult := ErrorPrefix + m, sqlError := true)
    case Returned(t) =>
      if IsSelect(Strip(s.sqlQuery)) then
        if |t.rows| > 0 then
          var text := FormatRows(t);
          assert StartsWith(text, Join(", ", t.columns) + "\n") by {
            var h := Join(", ", t.columns) + "\n";
            assert text[..|h|] == h;
          }
          s.(queryRows := RowDicts(t), queryResult := text, sqlError := false)
        else
          s.(queryRows := [], queryResult := NoResultsMessage, sqlError := false)
      else
        s.(queryResult := ActionDoneMessage, sqlError := false)
  }

  /** With distinct column names each data line reads `col: value` for the
      row's cells in column order. */
  lemma RowLineDistinctColumns(columns: seq<string>, row: seq<string>)
    requires |row| == |columns|
    requires forall i, j :: 0 <= i < j < |columns| ==> columns[i] != columns[j]
    ensures RowLine(columns, RowDict(columns, row))
         == Join(", ", seq(|columns|, j requires 0 <= j < |columns| => columns[j] + ": " + row[j]))
  {
    var d := RowDict(columns, row);
    forall j | 0 <= j < |columns| ensures d[columns[j]] == row[j] {
      RowDictLastWins(columns, row, j);
    }
    assert seq(|columns|, j requires 0 <= j < |columns| => columns[j] + ": " + d[columns[j]])
        == seq(|columns|, j requires 0 <= j < |columns| => columns[j] + ": " + row[j]);
  }

  // ---------------------------------------------------------------------
  // The other nodes
  // ---------------------------------------------------------------------

  /** The prompt variant `generate_human_readable_answer` picks, in priority
      order. It tests the statement as stored, without stripping it. */
  function SelectVariant(s: StatePlanner): (v: Variant)
    ensures v == ErrorVariant <==> s.sqlError
    ensures v == NoRowsVariant <==> !s.sqlError && IsSelect(s.sqlQuery) && |s.queryRows| == 0
    ensures v == RowsVariant <==> !s.sqlError && IsSelect(s.sqlQuery) && |s.queryRows| > 0
    ensures v == ConfirmVariant <==> !s.sqlError && !IsSelect(s.sqlQuery)
  {
    if s.sqlError then ErrorVariant
    else if IsSelect(s.sqlQuery) then (if |s.queryRows| == 0 then NoRowsVariant else RowsVariant)
    else ConfirmVariant
  }

  /** The effective `regenerate_query`: a new question and one more attempt. */
  function RegenerateQueryNode(s: StatePlanner, rewritten: string): (r: StatePlanner)
    ensures r.question == rewritten && r.attempts == s.attempts + 1
    ensures r.sqlQuery == s.sqlQuery && r.queryRows == s.queryRows && r.sqlError == s.sqlError
    ensures r.queryResult == s.queryResult && r.relevance == s.relevance
  {
    s.(question := rewritten, attempts := s.attempts + 1)
  }

  /** `end_max_iterations`: only the result text changes. */
  function EndMaxIterationsNode(s: StatePlanner): (r: StatePlanner)
    ensures r.queryResult == GiveUpMessage
    ensures r.(queryResult := s.queryResult) == s
  {
    s.(queryResult := GiveUpMessage)
  }

  /** The edges the graph declares: where each node may lead next. */
  function Successors(n: Node): set<Node>
  {
    match n
    case CheckRelevance => {ConvertToSql, GenerateFunnyResponse}
    case ConvertToSql => {ExecuteSql}
    case ExecuteSql => {GenerateAnswer, RegenerateQuery}
    case RegenerateQuery => {ConvertToSql, EndMaxIterations}
    case GenerateAnswer => {Finished}
    case GenerateFunnyResponse => {Finished}
    case EndMaxIterations => {Finished}
    case Finished => {}
  }

  /** Runs `node` on `s` and follows its outgoing edge: the next node is one
      the graph declares, and only the rewrite node changes the question. */
  function Step(o: Oracle, node: Node, s: StatePlanner): (r: (Node, StatePlanner))
    requires node != Finished
    ensures r.0 in Successors(node)
    ensures node != RegenerateQuery ==> r.1.question == s.question
  {
    match node
    case CheckRelevance =>
      var s' := s.(relevance := o.relevance(s.question));
      (RelevanceRouter(s'), s')
    case ConvertToSql =>
      (ExecuteSql, s.(sqlQuery := o.synthesize(s.attempts, s.question)))
    case ExecuteSql =>
      var s' := ExecuteSqlNode(s, o.execute(s.attempts, Strip(s.sqlQuery)));
      (ExecuteSqlRouter(s'), s')
    case GenerateAnswer =>
      var prompt := AnswerPrompt(SelectVariant(s), s.sqlQuery, s.queryResult);
      (Finished, s.(queryResult := o.answer(prompt)))
    case RegenerateQuery =>
      var s' := RegenerateQueryNode(s, o.rewrite(s.attempts, s.question));
      (CheckAttemptsRouter(s'), s')
    case GenerateFunnyResponse =>
      (Finished, s.(queryResult := o.funny(s.question)))
    case EndMaxIterations =>
      (Finished, EndMaxIterationsNode(s))
  }

  // ---------------------------------------------------------------------
  // Runs
  // ---------------------------------------------------------------------

  predicate IsTerminal(n: Node)
  {
    n == GenerateAnswer || n == GenerateFunnyResponse || n == EndMaxIterations
  }

  /** One executed node together with the state it was entered with. */
  datatype Visit = Visit(node: Node, before: StatePlanner)

  datatype RunResult = RunResult(final: StatePlanner, visits: seq<Visit>)

  function Count(vs: seq<Visit>, n: Node): nat
  {
    if |vs| == 0 then 0 else (if vs[0].node == n then 1 else 0) + Count(vs[1..], n)
  }

  /** Executions left before the retry bound: the first half of the
      termination measure. */
  function Budget(attempts: int): nat
  {
    if attempts < MaxAttempts then MaxAttempts - attempts else 0
  }

  /** How far a node is from END along edges that keep `attempts`. */
  function Rank(n: Node): nat
  {
    match n
    case CheckRelevance => 5
    case ConvertToSql => 4
    case ExecuteSql => 3
    case RegenerateQuery => 2
    case GenerateAnswer => 1
    case GenerateFunnyResponse => 1
    case EndMaxIterations => 1
    case Finished => 0
  }

  /** The graph run from `node`: every run reaches END, and the last node
      executed is one of the three terminal nodes, which occur nowhere else.
      The attempt counter grows by one per rewrite and by nothing else. */
  function Run(o: Oracle, node: Node, s: StatePlanner): (r: RunResult)
    decreases Budget(s.attempts), Rank(node)
  {
    if node == Finished then RunResult(s, [])
    else
      var next, s' := Step(o, node, s).0, Step(o, node, s).1;
      var rest := Run(o, next, s');
      RunResult(rest.final, [Visit(node, s)] + rest.visits)
  }

  /** `ask_SmartPlanner`: a run of the compiled graph, entered at the
      relevance check with a fresh state. */
  function AskSmartPlanner(o: Oracle, question: string): (r: RunResult)
    ensures r.visits != [] && r.visits[0] == Visit(CheckRelevance, Initial(question))
  {
    Run(o, CheckRelevance, Initial(question))
  }

  function Nodes(vs: seq<Visit>): seq<Node>
  {
    seq(|vs|, i requires 0 <= i < |vs| => vs[i].node)
  }

  lemma CountCons(v: Visit, vs: seq<Visit>, n: Node)
    ensures Count([v] + vs, n) == (if v.node == n then 1 else 0) + Count(vs, n)
  {
    assert ([v] + vs)[1..] == vs;
  }

  /** One step of the graph: exactly the terminal nodes lead to END, only a
      rewrite moves the attempt counter, and it moves it by one. */
  lemma StepFacts(o: Oracle, node: Node, s: StatePlanner)
    requires node != Finished
    ensures Step(o, node, s).0 == Finished <==> IsTerminal(node)
    ensures Step(o, node, s).1.attempts == s.attempts + (if node == RegenerateQuery then 1 else 0)
  {
  }

  /** A terminal node runs once and the run is over. */
  lemma RunTerminal(o: Oracle, node: Node, s: StatePlanner)
    requires IsTerminal(node)
    ensures Run(o, node, s) == RunResult(Step(o, node, s).1, [Visit(node, s)])
  {
    var (next, s') := Step(o, node, s);
    assert next == Finished;
    assert Run(o, next, s') == RunResult(s', []);
  }

  /** The visits of a run that ends in exactly one terminal node, last. */
  predicate TerminalOnlyAtEnd(vs: seq<Visit>)
  {
    && |vs| > 0
    && IsTerminal(vs[|vs| - 1].node)
    && forall i :: 0 <= i < |vs| - 1 ==> !IsTerminal(vs[i].node)
  }

  lemma TerminalOnlyAtEndCons(v: Visit, vs: seq<Visit>)
    requires !IsTerminal(v.node) && TerminalOnlyAtEnd(vs)
    ensures TerminalOnlyAtEnd([v] + vs)
  {
    var ws := [v] + vs;
    assert forall i :: 1 <= i < |ws| ==> ws[i] == vs[i - 1];
  }

  /** Every run from a real node reaches END, and the last node it executes
      is one of the three terminal nodes; no terminal node is executed
      before that. */
  lemma {:induction false} RunEndsInTerminal(o: Oracle, node: Node, s: StatePlanner)
    requires node != Finished
    ensures Run(o, node, s).visits[0] == Visit(node, s)
    ensures TerminalOnlyAtEnd(Run(o, node, s).visits)
    decreases Budget(s.attempts), Rank(node)
  {
    RunUnfold(o, node, s);
    StepFacts(o, node, s);
    var next, s' := Step(o, node, s).0, Step(o, node, s).1;
    if next == Finished {
      RunTerminal(o, node, s);
    } else {
      RunEndsInTerminal(o, next, s');
      TerminalOnlyAtEndCons(Visit(node, s), Run(o, next, s').visits);
    }
  }

  /** The visits' entry counters lie between `lo` and `hi` and never go
      down. */
  predicate AttemptsBetween(vs: seq<Visit>, lo: int, hi: int)
  {
    && (forall i :: 0 <= i < |vs| ==> lo <= vs[i].before.attempts <= hi)
    && (forall i, j :: 0 <= i <= j < |vs| ==> vs[i].before.attempts <= vs[j].before.attempts)
  }

  lemma AttemptsBetweenCons(v: Visit, vs: seq<Visit>, lo: int, hi: int)
    requires v.before.attempts <= lo && v.before.attempts <= hi
    requires AttemptsBetween(vs, lo, hi)
    ensures AttemptsBetween([v] + vs, v.before.attempts, hi)
  {
    var ws := [v] + vs;
    assert forall i :: 1 <= i < |ws| ==> ws[i] == vs[i - 1];
  }

  /** The attempt counter only grows along a run: the final count is the
      starting count plus the number of rewrites, and the states the nodes
      are entered with carry non-decreasing counts. */
  lemma {:induction false} RunAttempts(o: Oracle, node: Node, s: StatePlanner)
    ensures var r := Run(o, node, s);
      && r.final.attempts == s.attempts + Count(r.visits, RegenerateQuery)
      && AttemptsBetween(r.visits, s.attempts, r.final.attempts)
    decreases Budget(s.attempts), Rank(node)
  {
    if node != Finished {
      RunUnfold(o, node, s);
      StepFacts(o, node, s);
      var next, s' := Step(o, node, s).0, Step(o, node, s).1;
      RunAttempts(o, next, s');
      var rest := Run(o, next, s');
      CountCons(Visit(node, s), rest.visits, RegenerateQuery);
      AttemptsBetweenCons(Visit(node, s), rest.visits, s'.attempts, rest.final.attempts);
    }
  }

  /** How many more executions a run from `node` can make with the counter
      at `attempts`. */
  function ExecBudget(node: Node, attempts: int): nat
  {
    match node
    case CheckRelevance => if attempts < MaxAttempts then MaxAttempts - attempts else 1
    case ConvertToSql => if attempts < MaxAttempts then MaxAttempts - attempts else 1
    case ExecuteSql => if attempts < MaxAttempts then MaxAttempts - attempts else 1
    case RegenerateQuery => Budget(attempts + 1)
    case _ => 0
  }

  lemma {:induction false} RunExecutionBound(o: Oracle, node: Node, s: StatePlanner)
    ensures Count(Run(o, node, s).visits, ExecuteSql) <= ExecBudget(node, s.attempts)
    decreases Budget(s.attempts), Rank(node)
  {
    if node != Finished {
      var next, s' := Step(o, node, s).0, Step(o, node, s).1;
      RunUnfold(o, node, s);
      RunExecutionBound(o, next, s');
      CountCons(Visit(node, s), Run(o, next, s').visits, ExecuteSql);
      ExecBudgetStep(o, node, s);
    }
  }

  /** One step spends at most one execution of the budget, and only when
      it executes SQL. */
  lemma ExecBudgetStep(o: Oracle, node: Node, s: StatePlanner)
    requires node != Finished
    ensures var (next, s') := Step(o, node, s);
      (if node == ExecuteSql then 1 else 0) + ExecBudget(next, s'.attempts) <= ExecBudget(node, s.attempts)
  {
  }

  /** A run started from a fresh state executes SQL at most three times. */
  lemma AtMostThreeExecutions(o: Oracle, question: string)
    ensures Count(AskSmartPlanner(o, question).visits, ExecuteSql) <= MaxAttempts
  {
    RunExecutionBound(o, CheckRelevance, Initial(question));
  }

  /** The relevance verdict alone decides whether SQL is touched: an
      off-topic question goes to the funny reply and stops, with only the
      relevance and the result text changed; a relevant one goes on to SQL
      synthesis. */
  lemma RelevanceGate(o: Oracle, s: StatePlanner)
    ensures var r := Run(o, CheckRelevance, s);
      var verdict := o.relevance(s.question);
      && (!IsRelevant(verdict) ==>
            && Nodes(r.visits) == [CheckRelevance, GenerateFunnyResponse]
            && Count(r.visits, ConvertToSql) == 0
            && Count(r.visits, ExecuteSql) == 0
            && r.final == s.(relevance := verdict, queryResult := o.funny(s.question)))
      && (IsRelevant(verdict) ==>
            |r.visits| > 1 && r.visits[1].node == ConvertToSql && Count(r.visits, ConvertToSql) > 0)
  {
    var verdict := o.relevance(s.question);
    var s' := s.(relevance := verdict);
    var r := Run(o, CheckRelevance, s);
    if !IsRelevant(verdict) {
      var r2 := Run(o, GenerateFunnyResponse, s');
      RunTerminal(o, GenerateFunnyResponse, s');
      assert r.visits == [Visit(CheckRelevance, s), Visit(GenerateFunnyResponse, s')];
      CountCons(Visit(CheckRelevance, s), r2.visits, ConvertToSql);
      CountCons(Visit(CheckRelevance, s), r2.visits, ExecuteSql);
    } else {
      var r2 := Run(o, ConvertToSql, s');
      RunEndsInTerminal(o, ConvertToSql, s');
      CountCons(Visit(CheckRelevance, s), r2.visits, ConvertToSql);
      CountCons(r2.visits[0], r2.visits[1..], ConvertToSql);
      assert r2.visits == [r2.visits[0]] + r2.visits[1..];
    }
  }

  /** Every visit of the answer node in `vs` starts from a state without the
      error flag, so the error prompt variant is not the one chosen. */
  predicate AnswerEntriesClean(vs: seq<Visit>)
  {
    forall i :: 0 <= i < |vs| && vs[i].node == GenerateAnswer ==>
      !vs[i].before.sqlError && SelectVariant(vs[i].before) != ErrorVariant
  }

  lemma AnswerEntriesCleanCons(v: Visit, vs: seq<Visit>)
    requires v.node == GenerateAnswer ==> !v.before.sqlError
    requires AnswerEntriesClean(vs)
    ensures AnswerEntriesClean([v] + vs)
  {
    var ws := [v] + vs;
    assert forall i :: 1 <= i < |ws| ==> ws[i] == vs[i - 1];
  }

  /** Only the execution node leads to the answer node, and only once the
      error flag is clear. */
  lemma StepIntoAnswer(o: Oracle, node: Node, s: StatePlanner)
    requires node != Finished && Step(o, node, s).0 == GenerateAnswer
    ensures node == ExecuteSql && !Step(o, node, s).1.sqlError
  {
  }

  /** The answer node is only ever entered with `sqlError` false, so within a
      run its error prompt variant is never chosen. */
  lemma {:induction false} AnswerNeverSeesError(o: Oracle, node: Node, s: StatePlanner)
    requires node != GenerateAnswer
    ensures AnswerEntriesClean(Run(o, node, s).visits)
    decreases Budget(s.attempts), Rank(node)
  {
    if node != Finished {
      RunUnfold(o, node, s);
      StepFacts(o, node, s);
      var next, s' := Step(o, node, s).0, Step(o, node, s).1;
      if next == GenerateAnswer {
        StepIntoAnswer(o, node, s);
        RunTerminal(o, GenerateAnswer, s');
        AnswerEntriesCleanCons(Visit(GenerateAnswer, s'), []);
      } else {
        AnswerNeverSeesError(o, next, s');
      }
      AnswerEntriesCleanCons(Visit(node, s), Run(o, next, s').visits);
    }
  }

  // ---------------------------------------------------------------------
  // The graph as written: the give-up edge raises
  // ---------------------------------------------------------------------

  /** One step of the graph as the code is written: the retry edge looks
      the label `check_attempts_router` returns up in its path map, and a
      label the map lacks raises (`None`). Every other edge is as in
      `Step`. */
  function StepAsWritten(o: Oracle, node: Node, s: StatePlanner): (r: Option<(Node, StatePlanner)>)
    requires node != Finished
    ensures node != RegenerateQuery ==> r == Some(Step(o, node, s))
    ensures node == RegenerateQuery ==>
      (r.None? <==> Step(o, node, s).0 == EndMaxIterations)
      && (r.Some? ==> r.value == Step(o, node, s))
  {
    if node == RegenerateQuery then
      var s' := RegenerateQueryNode(s, o.rewrite(s.attempts, s.question));
      CheckAttemptsEdgeRaises(s');
      match RetryPathMap(CheckAttemptsLabelAsWritten(s'))
      case None => None
      case Some(next) => Some((next, s'))
    else Some(Step(o, node, s))
  }

  /** The final state of a run of the graph as written, or `None` when it
      raises. */
  function RunAsWritten(o: Oracle, node: Node, s: StatePlanner): Option<StatePlanner>
    decreases Budget(s.attempts), Rank(node)
  {
    if node == Finished then Some(s)
    else
      match StepAsWritten(o, node, s)
      case None => None
      case Some(step) => RunAsWritten(o, step.0, step.1)
  }

  /** `ask_SmartPlanner` as written: it raises exactly where the corrected
      run ends at the give-up node, and otherwise ends in the corrected
      run's final state. */
  function AskSmartPlannerAsWritten(o: Oracle, question: string): (r: Option<StatePlanner>)
    ensures r.None? <==> LastNode(AskSmartPlanner(o, question)) == EndMaxIterations
    ensures r.Some? ==> r.value == AskSmartPlanner(o, question).final
  {
    RunAsWrittenRaisesOnGiveUp(o, CheckRelevance, Initial(question));
    RunAsWritten(o, CheckRelevance, Initial(question))
  }

  /** A step of the graph as written either raises, on the retry edge
      towards the give-up node, or goes where the corrected step goes. */
  lemma RunAsWrittenUnfold(o: Oracle, node: Node, s: StatePlanner)
    requires node != Finished
    ensures var (next, s') := Step(o, node, s);
      RunAsWritten(o, node, s) == if next == EndMaxIterations && node == RegenerateQuery then None else RunAsWritten(o, next, s')
  {
  }

  /** The last node of a run is that of the run its first step leads to,
      unless that step ends it. */
  lemma LastNodeUnfold(o: Oracle, node: Node, s: StatePlanner)
    requires node != Finished
    ensures var (next, s') := Step(o, node, s);
      LastNode(Run(o, node, s)) == if next == Finished then node else LastNode(Run(o, next, s'))
  {
    RunUnfold(o, node, s);
    var (next, s') := Step(o, node, s);
    var rest := Run(o, next, s');
    if next == Finished {
      assert Run(o, node, s).visits == [Visit(node, s)];
    } else {
      RunUnfold(o, next, s');
      Prepend(Visit(node, s), rest, node);
    }
  }

  /** The graph as written raises exactly on the runs that the corrected
      graph ends at the give-up node, and otherwise ends in the same state. */
  lemma {:induction false} RunAsWrittenRaisesOnGiveUp(o: Oracle, node: Node, s: StatePlanner)
    requires node != EndMaxIterations
    ensures RunAsWritten(o, node, s).None? <==> LastNode(Run(o, node, s)) == EndMaxIterations
    ensures RunAsWritten(o, node, s).Some? ==> RunAsWritten(o, node, s).value == Run(o, node, s).final
    decreases Budget(s.attempts), Rank(node)
  {
    if node != Finished {
      var (next, s') := Step(o, node, s);
      RunAsWrittenUnfold(o, node, s);
      LastNodeUnfold(o, node, s);
      RunUnfold(o, node, s);
      if next == EndMaxIterations {
        assert node == RegenerateQuery;
        RunTerminal(o, EndMaxIterations, s');
      } else if next != Finished {
        RunAsWrittenRaisesOnGiveUp(o, next, s');
      }
    }
  }

  /** As written, `ask_SmartPlanner` raises exactly when the question is
      relevant and all three executions raise; otherwise it returns the
      state the corrected graph ends in. */
  lemma AskAsWrittenRaisesIffThreeFailures(o: Oracle, question: string)
    ensures AskSmartPlannerAsWritten(o, question).None? <==>
      && IsRelevant(o.relevance(question))
      && FailsAt(o, question, 0) && FailsAt(o, question, 1) && FailsAt(o, question, 2)
    ensures AskSmartPlannerAsWritten(o, question).Some? ==>
      AskSmartPlannerAsWritten(o, question).value == AskSmartPlanner(o, question).final
  {
    RunAsWrittenRaisesOnGiveUp(o, CheckRelevance, Initial(question));
    GiveUpIffThreeFailures(o, question);
  }

  // ---------------------------------------------------------------------
  // Which terminal a run from a fresh state reaches
  // ---------------------------------------------------------------------

  /** The question the k-th SQL synthesis sees: the original one, rewritten
      once per earlier failure. */
  function QuestionAt(o: Oracle, question: string, k: nat): string
  {
    if k == 0 then question else o.rewrite(k - 1, QuestionAt(o, question, k - 1))
  }

  /** What the database does with the k-th synthesized statement. */
  function OutcomeAt(o: Oracle, question: string, k: nat): ExecOutcome
  {
    o.execute(k, Strip(o.synthesize(k, QuestionAt(o, question, k))))
  }

  predicate FailsAt(o: Oracle, question: string, k: nat)
  {
    OutcomeAt(o, question, k).Raised?
  }

  /** The ending predicted from the oracles alone, without running the graph. */
  datatype Ending = OffTopic | Answered(attempt: nat) | GaveUp

  function FirstSuccessFrom(o: Oracle, question: string, k: nat): (e: Ending)
    ensures e.Answered? ==> k <= e.attempt < MaxAttempts
    ensures !e.OffTopic?
    decreases MaxAttempts - k
  {
    if k >= MaxAttempts then GaveUp
    else if !FailsAt(o, question, k) then Answered(k)
    else FirstSuccessFrom(o, question, k + 1)
  }

  function ExpectedEnding(o: Oracle, question: string): Ending
  {
    if !IsRelevant(o.relevance(question)) then OffTopic else FirstSuccessFrom(o, question, 0)
  }

  function LastNode(r: RunResult): Node
  {
    if |r.visits| == 0 then Finished else r.visits[|r.visits| - 1].node
  }

  /** A run from a real node is that node's visit followed by the run from
      where its edge leads. */
  lemma RunUnfold(o: Oracle, node: Node, s: StatePlanner)
    requires node != Finished
    ensures var rest := Run(o, Step(o, node, s).0, Step(o, node, s).1);
      Run(o, node, s) == RunResult(rest.final, [Visit(node, s)] + rest.visits)
  {
  }

  /** Putting a visit in front of a non-empty run keeps its last node and
      adds the visit to the counts. */
  lemma Prepend(v: Visit, r: RunResult, n: Node)
    requires |r.visits| > 0
    ensures LastNode(RunResult(r.final, [v] + r.visits)) == LastNode(r)
    ensures Count([v] + r.visits, n) == (if v.node == n then 1 else 0) + Count(r.visits, n)
  {
    CountCons(v, r.visits, n);
  }

  /** A run `r` entered with `k` failed attempts behind it ends as `e` says. */
  predicate EndsAs(r: RunResult, e: Ending, k: int)
  {
    match e
    case Answered(j) =>
      && LastNode(r) == GenerateAnswer
      && r.final.attempts == j && !r.final.sqlError
      && Count(r.visits, ExecuteSql) == j - k + 1
    case GaveUp =>
      && LastNode(r) == EndMaxIterations
      && r.final.attempts == MaxAttempts && r.final.sqlError
      && r.final.queryResult == GiveUpMessage
      && Count(r.visits, ExecuteSql) == MaxAttempts - k
    case OffTopic =>
      && LastNode(r) == GenerateFunnyResponse
      && Count(r.visits, ConvertToSql) == 0 && Count(r.visits, ExecuteSql) == 0
  }

  /** The state after synthesis and execution, entered with `s`. */
  function AfterExecution(o: Oracle, s: StatePlanner): StatePlanner
  {
    Step(o, ExecuteSql, Step(o, ConvertToSql, s).1).1
  }

  /** One pass through synthesis and execution whose execution does not
      raise ends the run at the answer node. */
  lemma {:induction false} SucceedingAttempt(o: Oracle, s: StatePlanner)
    requires s.attempts >= 0 && !AfterExecution(o, s).sqlError
    ensures EndsAs(Run(o, ConvertToSql, s), Answered(s.attempts), s.attempts)
  {
    var s1 := Step(o, ConvertToSql, s).1;
    var s2 := AfterExecution(o, s);
    RunUnfold(o, ConvertToSql, s);
    RunUnfold(o, ExecuteSql, s1);
    RunTerminal(o, GenerateAnswer, s2);
    var r2 := Run(o, GenerateAnswer, s2);
    var r1 := Run(o, ExecuteSql, s1);
    CountCons(Visit(GenerateAnswer, s2), [], ExecuteSql);
    Prepend(Visit(ExecuteSql, s1), r2, ExecuteSql);
    Prepend(Visit(ConvertToSql, s), r1, ExecuteSql);
  }

  /** One pass whose execution raises: three visits, then the attempts
      router applied to the rewritten state. */
  lemma {:induction false} FailingAttempt(o: Oracle, s: StatePlanner)
    requires AfterExecution(o, s).sqlError
    ensures var s2 := AfterExecution(o, s);
      var s3 := RegenerateQueryNode(s2, o.rewrite(s.attempts, s.question));
      var rest := Run(o, CheckAttemptsRouter(s3), s3);
      && s3.attempts == s.attempts + 1
      && s3.question == o.rewrite(s.attempts, s.question)
      && Run(o, ConvertToSql, s).final == rest.final
      && LastNode(Run(o, ConvertToSql, s)) == LastNode(rest)
      && Count(Run(o, ConvertToSql, s).visits, ExecuteSql) == 1 + Count(rest.visits, ExecuteSql)
  {
    var s1 := Step(o, ConvertToSql, s).1;
    var s2 := AfterExecution(o, s);
    var s3 := RegenerateQueryNode(s2, o.rewrite(s.attempts, s.question));
    FailingSteps(o, s);
    RunUnfold(o, ConvertToSql, s);
    RunUnfold(o, ExecuteSql, s1);
    RunUnfold(o, RegenerateQuery, s2);
    var rest := Run(o, CheckAttemptsRouter(s3), s3);
    RunEndsInTerminal(o, CheckAttemptsRouter(s3), s3);
    var r2 := Run(o, RegenerateQuery, s2);
    var r1 := Run(o, ExecuteSql, s1);
    Prepend(Visit(RegenerateQuery, s2), rest, ExecuteSql);
    Prepend(Visit(ExecuteSql, s1), r2, ExecuteSql);
    Prepend(Visit(ConvertToSql, s), r1, ExecuteSql);
  }

  /** The three edges a raising execution takes: synthesis to execution,
      execution to rewrite, rewrite to the attempts router's choice. */
  lemma FailingSteps(o: Oracle, s: StatePlanner)
    requires AfterExecution(o, s).sqlError
    ensures var s1 := Step(o, ConvertToSql, s).1;
      var s2 := AfterExecution(o, s);
      var s3 := RegenerateQueryNode(s2, o.rewrite(s.attempts, s.question));
      && Step(o, ConvertToSql, s).0 == ExecuteSql
      && Step(o, ExecuteSql, s1) == (RegenerateQuery, s2)
      && Step(o, RegenerateQuery, s2) == (CheckAttemptsRouter(s3), s3)
      && s3.attempts == s.attempts + 1
      && s3.question == o.rewrite(s.attempts, s.question)
  {
  }

  /** The flag left by the k-th execution is the predicted failure. */
  lemma ErrorFlagIsFailure(o: Oracle, question: string, s: StatePlanner, k: nat)
    requires s.attempts == k && s.question == QuestionAt(o, question, k)
    ensures AfterExecution(o, s).sqlError <==> FailsAt(o, question, k)
  {
  }

  /** The retry loop entered at SQL synthesis with `k` attempts behind it
      ends as the first successful execution from `k` on says. */
  lemma {:induction false} RetryLoop(o: Oracle, question: string, s: StatePlanner, k: nat)
    requires k < MaxAttempts && s.attempts == k && s.question == QuestionAt(o, question, k)
    ensures EndsAs(Run(o, ConvertToSql, s), FirstSuccessFrom(o, question, k), k)
    decreases MaxAttempts - k, 1
  {
    ErrorFlagIsFailure(o, question, s, k);
    if !FailsAt(o, question, k) {
      assert FirstSuccessFrom(o, question, k) == Answered(k);
      SucceedingAttempt(o, s);
    } else {
      RetryAfterFailure(o, question, s, k);
    }
  }

  /** The failing case of the retry loop: the rewrite leads back to
      synthesis while attempts remain, and to the give-up node after the
      third. */
  lemma {:induction false} RetryAfterFailure(o: Oracle, question: string, s: StatePlanner, k: nat)
    requires k < MaxAttempts && s.attempts == k && s.question == QuestionAt(o, question, k)
    requires FailsAt(o, question, k)
    ensures EndsAs(Run(o, ConvertToSql, s), FirstSuccessFrom(o, question, k), k)
    decreases MaxAttempts - k, 0
  {
    var e := FirstSuccessFrom(o, question, k);
    ErrorFlagIsFailure(o, question, s, k);
    FailingAttempt(o, s);
    var s3 := RegenerateQueryNode(AfterExecution(o, s), o.rewrite(k, s.question));
    var rest := Run(o, CheckAttemptsRouter(s3), s3);
    if k + 1 < MaxAttempts {
      assert e == FirstSuccessFrom(o, question, k + 1);
      RetryLoop(o, question, s3, k + 1);
    } else {
      assert e == GaveUp;
      RunTerminal(o, EndMaxIterations, s3);
      CountCons(Visit(EndMaxIterations, s3), [], ExecuteSql);
      assert EndsAs(rest, e, k + 1);
    }
    EndsAsAfterFailure(Run(o, ConvertToSql, s), rest, e, k);
  }

  /** A failed pass in front of a run that ends as `e` with one more
      attempt behind it ends as `e` too. */
  lemma EndsAsAfterFailure(r: RunResult, rest: RunResult, e: Ending, k: int)
    requires e != OffTopic && EndsAs(rest, e, k + 1)
    requires r.final == rest.final && LastNode(r) == LastNode(rest)
    requires Count(r.visits, ExecuteSql) == 1 + Count(rest.visits, ExecuteSql)
    ensures EndsAs(r, e, k)
  {
  }

  /** Which of the three terminals a fresh run reaches, and with what state,
      is exactly what the oracles predict: off-topic questions get the funny
      reply; otherwise the first of three executions that does not raise
      leads to the answer node with that many rewrites behind it, and three
      raising executions in a row lead to the give-up message with the
      counter at three. */
  lemma AskSmartPlannerOutcome(o: Oracle, question: string)
    ensures var r := AskSmartPlanner(o, question);
      match ExpectedEnding(o, question)
      case OffTopic =>
        && LastNode(r) == GenerateFunnyResponse
        && Count(r.visits, ConvertToSql) == 0 && Count(r.visits, ExecuteSql) == 0
        && r.final.queryResult == o.funny(question)
      case Answered(j) =>
        && LastNode(r) == GenerateAnswer
        && r.final.attempts == j && !r.final.sqlError
        && Count(r.visits, ExecuteSql) == j + 1
      case GaveUp =>
        && LastNode(r) == EndMaxIterations
        && r.final.attempts == MaxAttempts && r.final.sqlError
        && r.final.queryResult == GiveUpMessage
        && Count(r.visits, ExecuteSql) == MaxAttempts
  {
    var s := Initial(question);
    RelevanceGate(o, s);
    var verdict := o.relevance(question);
    if IsRelevant(verdict) {
      var s' := s.(relevance := verdict);
      RetryLoop(o, question, s', 0);
      var r := AskSmartPlanner(o, question);
      var r1 := Run(o, ConvertToSql, s');
      assert r.visits == [Visit(CheckRelevance, s)] + r1.visits && r.final == r1.final;
      CountCons(Visit(CheckRelevance, s), r1.visits, ExecuteSql);
      RunEndsInTerminal(o, ConvertToSql, s');
    }
  }

  /** The run gives up exactly when the question is relevant and the first
      three executions all raise. */
  lemma GiveUpIffThreeFailures(o: Oracle, question: string)
    ensures LastNode(AskSmartPlanner(o, question)) == EndMaxIterations <==>
      && IsRelevant(o.relevance(question))
      && FailsAt(o, question, 0) && FailsAt(o, question, 1) && FailsAt(o, question, 2)
  {
    AskSmartPlannerOutcome(o, question);
  }

  /** As written, every run that should give up raises instead: the retry
      edge is taken with the counter at three, and its label is missing from
      the path map. */
  lemma GiveUpRaisesAsWritten(o: Oracle, question: string)
    requires IsRelevant(o.relevance(question))
    requires FailsAt(o, question, 0) && FailsAt(o, question, 1) && FailsAt(o, question, 2)
    ensures var r := AskSmartPlanner(o, question);
      LastNode(r) == EndMaxIterations && RetryPathMap(CheckAttemptsLabelAsWritten(r.final)).None?
  {
    AskSmartPlannerOutcome(o, question);
  }

  /** Two failed executions followed by a successful one: the answer node is
      reached with two rewrites behind it and no error flag. */
  lemma TwoFailuresThenSuccess(o: Oracle, question: string)
    requires IsRelevant(o.relevance(question))
    requires FailsAt(o, question, 0) && FailsAt(o, question, 1) && !FailsAt(o, question, 2)
    ensures var r := AskSmartPlanner(o, question);
      LastNode(r) == GenerateAnswer && r.final.attempts == 2 && !r.final.sqlError
  {
    AskSmartPlannerOutcome(o, question);
  }

  /** `execute_sql` strips the statement before testing for SELECT, the
      answer node does not: a SELECT with leading whitespace that finds no
      rows is answered with the success-confirmation prompt, not the no-data
      one. */
  lemma LeadingSpaceSelectIsConfirmed(s: StatePlanner, t: ResultSet)
    requires |s.sqlQuery| > 0 && IsSpace(s.sqlQuery[0]) && IsSelect(Strip(s.sqlQuery))
    requires |t.rows| == 0
    ensures var r := ExecuteSqlNode(s, Returned(t));
      && r.queryResult == NoResultsMessage && r.queryRows == [] && !r.sqlError
      && SelectVariant(r) == ConfirmVariant
  {
    NotSelectAfterSpace(s.sqlQuery);
    var r := ExecuteSqlNode(s, Returned(t));
    assert r.sqlQuery == s.sqlQuery && !r.sqlError && r.queryRows == [];
  }

  lemma NotSelectAfterSpace(q: string)
    requires |q| > 0 && IsSpace(q[0])
    ensures !IsSelect(q)
  {
    var l := Lower(q);
    assert l[0] == q[0];
    assert |l| < 6 || l[..6][0] == l[0];
  }

  /** Such statements exist: " select x" is one. */
  lemma LeadingSpaceSelectExists()
    ensures IsSelect(Strip(" select x")) && IsSpace(" select x"[0])
  {
    StripLeadingSpace();
    SelectIsSelect();
  }

  lemma StripLeadingSpace()
    ensures Strip(" select x") == "select x"
  {
    var q := " select x";
    assert q[1..] == "select x";
    assert SpaceRun(q[1..]) == 0;
    assert SpaceRun(q) == 1;
    assert TrimStart(q) == "select x";
    assert TrimEnd("select x") == "select x";
  }

  lemma SelectIsSelect()
    ensures IsSelect("select x")
  {
    var l := Lower("select x");
    assert l[0] == 's' && l[1] == 'e' && l[2] == 'l' && l[3] == 'e' && l[4] == 'c' && l[5] == 't';
    assert l[..6] == "select";
  }
}
