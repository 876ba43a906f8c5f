# Campus chatbot core, modelled in Dafny

The chatbot answers students of a French university through a chat front end.
A router classifies each message and dispatches it to one of three agents, or
answers it directly; every exchange is appended to the session's history.
This project models the deterministic parts of that system and proves
properties of them:

- **SmartPlanner** (`smart_planner.dfy`): the timetable agent. It is a
  seven-node graph that checks whether a question is about the timetable,
  turns it into SQL, executes it, and then either answers, rewrites the
  question and retries, or gives up after three executions. Every call to
  the language model and to the database is an oracle held in an `Oracle`
  record. SQL synthesis, execution and the rewrite are indexed by the
  attempt counter, because they run once per attempt. The relevance check,
  the answer and the funny reply run at most once per run, so they are
  functions of their input alone. The routers, the node state updates, the
  text built from result rows and the answer-prompt selection are modelled
  as the code has them.
  The retry edge is modelled twice. `Step` and `Run` use the corrected
  label: the attempts router's give-up label is looked up as
  "max_iterations", so the give-up node runs. `StepAsWritten` and
  `RunAsWritten` keep the code's label "end_max_iterations", which the path
  map lacks, so the run raises there (see "## Findings"). The run lemmas
  below are about `Run` unless their row says "as written". `Run` follows
  the graph from a node to END; it terminates on the measure (executions
  left, distance to END).
- **EdtParser** (`edt_parser.dfy`): the timetable normaliser `clean_event`.
  It splits an event description into lines on `<br>`-style tags and line
  breaks and drops blank lines. It then extracts the course name, the room
  and the programme labels, and joins the sites and modules. Finally the
  rows are sorted, stably, by start time (`sorting.dfy`).
- **App** (`app.py`): the session's `GlobalState`, `add_exchange`, the
  exact-match intent dispatch of `handle_message`, and a whole session of
  messages. `Services.build` says which planner graph answers: `AsWritten`
  raises on the give-up path, so `handle_message` records and sends nothing;
  `CorrectedLabel` sends the give-up message.
- **IngestionUVSQ** (`ingestion_uvsq.dfy`): `load_chunks_from_json`. It
  parses one JSON object per line, skips records without text, and builds
  two aligned lists. The ids `doc_0`, `doc_1`, … are given to the stored
  chunks.
- **ChunkFiles** (`chunk_files.dfy`): `chunk_folder`. It keeps the `.md`
  files of a directory listing and collects every splitter chunk with
  metadata naming its file and its index in that file.
- Shared helpers: `wrappers.dfy` (`Option`, and `Field` for a JSON key that
  is missing, `null` or present) and `text.dfy` (Python's `strip`, `lower`,
  `join`, `in`, `str(n)` and `int(s)` on strings).

Oracles and library calls become parameters:

- the language model (router, relevance, SQL synthesis, rewrite, answer,
  funny reply, the two other agents);
- the database;
- `json.loads`;
- the Markdown splitter;
- `html.unescape`;
- `datetime.fromisoformat`, as an integer-valued `instant` function.

## Model

| member | source | states |
|---|---|---|
| SmartPlanner.RelevanceRouter | Agent/SmartPlanner/SmartPlanner.py:303-307 | SQL synthesis comes next exactly when the lower-cased verdict is "relevant"; every other verdict leads to the funny reply |
| SmartPlanner.CheckAttemptsRouter | Agent/SmartPlanner/SmartPlanner.py:309-313 | with the corrected label, another synthesis follows while fewer than three attempts were made, the give-up node otherwise |
| SmartPlanner.CheckAttemptsEdgeRaises | Agent/SmartPlanner/SmartPlanner.py:76-83 | the label as written is missing from the path map exactly when attempts reach three; below three it leads where the router says; the corrected label always does |
| SmartPlanner.ExecuteSqlRouter | Agent/SmartPlanner/SmartPlanner.py:316-320 | the answer node follows exactly when the error flag is clear, the rewrite otherwise |
| SmartPlanner.RowDict | Agent/SmartPlanner/SmartPlanner.py:138 | the dictionary of a row has exactly the column names as keys |
| SmartPlanner.RowDictLastWins | Agent/SmartPlanner/SmartPlanner.py:138 | a column name maps to the cell of its last occurrence |
| SmartPlanner.RowLineDistinctColumns | Agent/SmartPlanner/SmartPlanner.py:139-142 | with distinct column names, a data line reads `col: value` for every cell, in column order |
| SmartPlanner.RowDicts | Agent/SmartPlanner/SmartPlanner.py:138 | one dictionary per result row, in row order, each built from that row |
| SmartPlanner.LastOccurrence | Agent/SmartPlanner/SmartPlanner.py:138 | the position of the last column carrying the same name, at or after the given one |
| SmartPlanner.DuplicateColumnShowsLastValue | Agent/SmartPlanner/SmartPlanner.py:138-142 | for any columns, each name's dictionary entry is the cell of that name's last occurrence, and the data line shows, at every position, the cell of the last column with the same name |
| SmartPlanner.ShownRowDistinct | Agent/SmartPlanner/SmartPlanner.py:138-142 | with distinct column names, the line shown is each cell under its own column |
| SmartPlanner.FormatRows | Agent/SmartPlanner/SmartPlanner.py:137-143 | the header of joined column names, a line feed, then one data line per row (as `DuplicateColumnShowsLastValue` describes it) joined by line feeds; with distinct names, every cell under its own column |
| SmartPlanner.ExecuteSqlNode | Agent/SmartPlanner/SmartPlanner.py:127-161 | an exception gives the prefixed error text and the flag; a non-SELECT gives the confirmation text; an empty SELECT gives the no-rows text and no rows; otherwise there is one dictionary per row and the whole text is the header line then the data lines, with each cell under its own column when names are distinct. The question, statement, counter and verdict are untouched, and rows survive a failure or a non-SELECT |
| SmartPlanner.SelectVariant | Agent/SmartPlanner/SmartPlanner.py:164-224 | exactly one of the four prompt variants is chosen, each exactly under its own condition, testing the unstripped statement |
| SmartPlanner.RegenerateQueryNode | Agent/SmartPlanner/SmartPlanner.py:257-277 | the question is replaced and the counter grows by one; statement, rows, flag, text and verdict are unchanged |
| SmartPlanner.EndMaxIterationsNode | Agent/SmartPlanner/SmartPlanner.py:297-300 | the result text becomes the give-up message and nothing else changes |
| SmartPlanner.Step | Agent/SmartPlanner/SmartPlanner.py:58-87 | (corrected retry label) the next node is always one the graph declares an edge to, and only the rewrite node changes the question; `StepFacts` states the rest |
| SmartPlanner.AskSmartPlanner | Agent/SmartPlanner/SmartPlanner.py:322-332 | the run starts at the relevance check with the fresh state; `AskSmartPlannerOutcome` states how it ends |
| SmartPlanner.StepFacts | Agent/SmartPlanner/SmartPlanner.py:46-89 | exactly the three terminal nodes lead to END, and only the rewrite node moves the counter, by one |
| SmartPlanner.RunEndsInTerminal | Agent/SmartPlanner/SmartPlanner.py:84-87 | (corrected retry label) every run reaches END, and the last node executed is a terminal node that occurs nowhere earlier in the run |
| SmartPlanner.RunAttempts | Agent/SmartPlanner/SmartPlanner.py:274-275 | the final counter is the initial one plus the number of rewrites, and the counters seen along the run never decrease |
| SmartPlanner.RunExecutionBound | Agent/SmartPlanner/SmartPlanner.py:309-313 | a run makes no more executions than the counter leaves room for |
| SmartPlanner.AtMostThreeExecutions | Agent/SmartPlanner/SmartPlanner.py:322-332 | a run from the initial state executes SQL at most three times |
| SmartPlanner.RelevanceGate | Agent/SmartPlanner/SmartPlanner.py:59-66 | an off-topic verdict visits exactly the relevance and funny-reply nodes, with no synthesis and no execution; a relevant one goes on to synthesis |
| SmartPlanner.AnswerNeverSeesError | Agent/SmartPlanner/SmartPlanner.py:173-185 | the answer node is only entered with the error flag clear, so its error variant is never chosen within a run |
| SmartPlanner.SucceedingAttempt | Agent/SmartPlanner/SmartPlanner.py:67-75 | a synthesis whose execution does not raise ends the run at the answer node, with no rewrite |
| SmartPlanner.FailingAttempt | Agent/SmartPlanner/SmartPlanner.py:68-83 | a raising execution is followed by one rewrite with the counter up by one, then the retry edge |
| SmartPlanner.ErrorFlagIsFailure | Agent/SmartPlanner/SmartPlanner.py:155-157 | the flag the k-th execution leaves is set exactly when the database raises on the k-th statement |
| SmartPlanner.RetryLoop | Agent/SmartPlanner/SmartPlanner.py:67-83 | the retry loop ends as the first non-raising execution predicts, or gives up after the third failure |
| SmartPlanner.RetryAfterFailure | Agent/SmartPlanner/SmartPlanner.py:68-83 | the same, for a pass whose execution raises: the rewrite leads back to synthesis, or to the give-up node after the third attempt |
| SmartPlanner.AskSmartPlannerOutcome | Agent/SmartPlanner/SmartPlanner.py:322-332 | (corrected retry label) from the initial state the run ends in one of three ways, as the oracles predict: funny reply (no SQL), answer after j rewrites, or give-up message with the counter at three |
| SmartPlanner.GiveUpIffThreeFailures | Agent/SmartPlanner/SmartPlanner.py:297-300 | the give-up node is reached exactly when the question is relevant and all three executions raise |
| SmartPlanner.GiveUpRaisesAsWritten | Agent/SmartPlanner/SmartPlanner.py:309-313 | whenever the run should give up, the label the code returns at that point is missing from the path map |
| SmartPlanner.StepAsWritten | Agent/SmartPlanner/SmartPlanner.py:76-83 | (as written) every node but the rewrite steps as `Step` does; the rewrite raises exactly when the corrected edge would lead to the give-up node, and otherwise steps as `Step` does |
| SmartPlanner.RunAsWrittenRaisesOnGiveUp | Agent/SmartPlanner/SmartPlanner.py:76-83 | (as written) a run from any node but the give-up node raises exactly when the corrected run ends at the give-up node, and otherwise ends in the same state |
| SmartPlanner.AskSmartPlannerAsWritten | Agent/SmartPlanner/SmartPlanner.py:322-332 | (as written) the call raises exactly when the corrected run ends at the give-up node, and otherwise returns that run's final state |
| SmartPlanner.AskAsWrittenRaisesIffThreeFailures | Agent/SmartPlanner/SmartPlanner.py:309-313 | (as written) `ask_SmartPlanner` raises exactly when the question is relevant and all three executions raise; otherwise its state is the corrected run's |
| SmartPlanner.TwoFailuresThenSuccess | Agent/SmartPlanner/SmartPlanner.py:316-320 | two raising executions then a good one reach the answer node with the counter at two and no flag |
| SmartPlanner.NotSelectAfterSpace | Agent/SmartPlanner/SmartPlanner.py:186 | a statement starting with whitespace never passes the answer node's SELECT test |
| SmartPlanner.LeadingSpaceSelectIsConfirmed | Agent/SmartPlanner/SmartPlanner.py:186-224 | an empty SELECT with leading whitespace gets the no-rows text from execution but the confirmation prompt from the answer node |
| SmartPlanner.LeadingSpaceSelectExists | Agent/SmartPlanner/SmartPlanner.py:128-133 | such statements exist: " select x" strips to a SELECT |
| EdtParser.SeparatorAt | Agent/SmartPlanner/edt_parser.py:18 | a match found at the front is a whole separator and is the only prefix that is one; in front of a line feed or carriage return a match is always found |
| EdtParser.SplitLines | Agent/SmartPlanner/edt_parser.py:18 | the split has at least one piece; the lemmas below state what the pieces are |
| EdtParser.SplitLinesNoBreaks | Agent/SmartPlanner/edt_parser.py:18 | no piece of the split contains a line feed or carriage return |
| EdtParser.SeparatorsAreSeparators | Agent/SmartPlanner/edt_parser.py:18 | everything the split consumed is a whole separator |
| EdtParser.SplitLinesReassembles | Agent/SmartPlanner/edt_parser.py:18 | the pieces and separators, interleaved, spell out the description again |
| EdtParser.PiecesHaveNoSeparator | Agent/SmartPlanner/edt_parser.py:18 | no piece contains a separator anywhere, so the split is maximal |
| EdtParser.SplitLinesLeftmost | Agent/SmartPlanner/edt_parser.py:18 | the split matches leftmost: the first piece is a prefix of the text with no separator starting inside it, and the rest of the pieces is the split of what follows the first separator |
| EdtParser.SplitJoined | Agent/SmartPlanner/edt_parser.py:18 | splitting pieces free of `<` and line breaks, joined by any one separator, gives those pieces back |
| EdtParser.NonBlank | Agent/SmartPlanner/edt_parser.py:18 | the kept pieces are non-blank pieces of the input, and every non-blank piece is kept; `NonBlankAppend` pins the order |
| EdtParser.NonBlankAppend | Agent/SmartPlanner/edt_parser.py:18 | the filter distributes over concatenation, and keeps a single piece exactly when it is not blank: the non-blank pieces, in order, untrimmed |
| EdtParser.Lines | Agent/SmartPlanner/edt_parser.py:17-18 | every line is non-blank and free of line breaks; `LinesOfJoined` gives the lines exactly |
| EdtParser.LinesOfJoined | Agent/SmartPlanner/edt_parser.py:17-18 | the lines of plain pieces joined by a separator are exactly the non-blank pieces, in order |
| EdtParser.CourseName | Agent/SmartPlanner/edt_parser.py:19-22 | empty without a dash or without a bracket; never contains a bracket; trimmed at both ends |
| EdtParser.CourseNameIsTrimmedMiddle | Agent/SmartPlanner/edt_parser.py:19-22 | on a line made of a dash-free prefix, a dash, a bracket-free middle and a bracket, the course name is the middle, stripped |
| EdtParser.CourseNameWithoutBracket | Agent/SmartPlanner/edt_parser.py:19-22 | a line with a dash but no bracket after it has an empty course name |
| EdtParser.DropSpaceBeforeClosing | Agent/SmartPlanner/edt_parser.py:38 | the result has no whitespace directly before `.`, `?` or `!`; `DropBlockThen` states what is kept |
| EdtParser.DropBlock | Agent/SmartPlanner/edt_parser.py:38 | a whitespace run followed by one visible character loses the run exactly when that character is `.`, `?` or `!`, and is kept whole otherwise |
| EdtParser.DropAppend | Agent/SmartPlanner/edt_parser.py:38 | text that is empty or ends in a visible character is cleaned independently of what follows it |
| EdtParser.DropAllSpace | Agent/SmartPlanner/edt_parser.py:38 | whitespace with nothing visible after it, such as trailing whitespace, is kept |
| EdtParser.DropBlockThen | Agent/SmartPlanner/edt_parser.py:38 | scanning left to right, each whitespace run and the visible character after it become that character alone when it is `.`, `?` or `!`, and are kept as they are otherwise |
| EdtParser.DropKeepsVisible | Agent/SmartPlanner/edt_parser.py:38 | only whitespace is removed: the visible characters are unchanged |
| EdtParser.DropKeepsClean | Agent/SmartPlanner/edt_parser.py:38 | text already free of such whitespace is left as it is |
| EdtParser.DropIsIdempotent | Agent/SmartPlanner/edt_parser.py:38 | removing the whitespace twice is the same as once |
| EdtParser.BeforeDash | Agent/SmartPlanner/edt_parser.py:38 | the result is a dash-free prefix of the line, the whole line exactly when it has no dash, and otherwise followed by the first dash |
| EdtParser.Salle | Agent/SmartPlanner/edt_parser.py:38 | the room has no dash, uses only characters of its line, and shows the same visible characters as the text before the line's first dash; on a line without `.`, `?` or `!` it is exactly that text, whitespace included |
| EdtParser.Formations | Agent/SmartPlanner/edt_parser.py:24-30 | only the two programme labels appear, and the list is empty exactly when no unescaped line names a programme |
| EdtParser.FormationsAppend | Agent/SmartPlanner/edt_parser.py:24-30 | the labels of a list of lines are those of each line in turn; one line gives the ISADS label if it names ISADS, then the Math&AS label if it names that programme |
| EdtParser.FormationEmptyIff | Agent/SmartPlanner/edt_parser.py:40 | the `formation` column is empty exactly when no line names a programme |
| EdtParser.CleanEvent | Agent/SmartPlanner/edt_parser.py:15-42 | an event fails exactly when its description has fewer than three non-blank lines; `CleanEventShape` gives every column |
| EdtParser.CleanEventShape | Agent/SmartPlanner/edt_parser.py:15-42 | an event fails exactly when it has fewer than three non-blank lines; otherwise the row keeps its times and category, is numbered by position, takes its course from the third line and its room from the second, joins the programme labels with "; ", joins the sites with "" and the modules with ", " when present, and has empty site and module columns when those keys are missing or null |
| EdtParser.EnumerateAll | Agent/SmartPlanner/edt_parser.py:44 | the comprehension fails exactly when one call does; otherwise it holds each call's result at its position |
| EdtParser.CleanEvents | Agent/SmartPlanner/edt_parser.py:44 | the cleaned rows are the per-position results of `clean_event`, or a failure when one raises |
| EdtParser.CleanedEvents | Agent/SmartPlanner/edt_parser.py:44-45 | the result is sorted by start time and is a permutation of the per-position cleaned rows |
| EdtParser.IdsDistinct | Agent/SmartPlanner/edt_parser.py:33 | rows from different positions carry different ids |
| EdtParser.SortKeepsOrderOfEqualStarts | Agent/SmartPlanner/edt_parser.py:45 | rows with equal start times keep their cleaning order |
| Sorting.SortBySorted | Agent/SmartPlanner/edt_parser.py:45 | the sort's result is ordered by the key and is a permutation of its input |
| Sorting.SortByIsStable | Agent/SmartPlanner/edt_parser.py:45 | for each key value, the elements carrying it keep their input order |
| App.InitState | app.py:21-25 | a fresh state has no messages and no selected agent |
| App.GetState | app.py:28-32 | the stored state when there is one; otherwise a state with no messages and no selected agent |
| App.AddExchange | app.py:35-45 | the history grows by the user's input then the answer, earlier messages are kept, and the agent name is recorded |
| App.Dispatch | app.py:64-100 | no agent is chosen exactly when the intent is none of "cours", "emploi_du_temps" and "UVSQ"; `DispatchRoundTrip` and `DispatchOnlyExact` state the rest |
| App.DispatchRoundTrip | app.py:68-100 | each category the router names reaches its own agent, and the recorded names tell the four apart |
| App.DispatchOnlyExact | app.py:68-100 | only the three exact category strings reach an agent; anything else gets the direct answer |
| App.LastContent | app.py:72 | the last message's content, or a failure on an empty message list |
| App.PlannerReply | app.py:78-86 | with the corrected graph, the planner's final result text; as written, nothing exactly when the run would end at the give-up node, and otherwise that same text |
| App.Reply | app.py:67-118 | without an agent, the direct answer; the teacher and information agents fail exactly when their message list is empty, and otherwise send the last message's content; the planner sends `PlannerReply`, which with the corrected graph is the run's final result text |
| App.HandleMessage | app.py:60-118 | the stored state is unchanged exactly when no reply is sent; `HandleMessageRecordsReply` states the rest |
| App.HandleMessageRecordsReply | app.py:60-118 | the reply sent is the one recorded after the earlier history, under the routed agent's name; a raising agent records nothing |
| App.PlannerGiveUpReachesUser | app.py:79-86 | with the corrected graph, a schedule question whose three executions raise is answered and recorded with the give-up message |
| App.PlannerGiveUpRaises | app.py:79-86 | as written, the same question makes the handler raise: no reply is sent and the stored state is unchanged |
| App.HandleAll | app.py:60-61 | a session gives one reply slot per message; `SessionHistory` states what they hold |
| App.TranscriptAlternates | app.py:39-40 | the history a session adds alternates user and assistant messages, two per answered message |
| App.SessionHistory | app.py:60-118 | over a session, each reply depends only on its own query, and the history grows by exactly the answered exchanges in order |
| IngestionUVSQ.KeptIndices | Agent/info_UVSQ/ingestion_UVSQ.py:28-31 | exactly the records with non-empty text are kept, in increasing position |
| IngestionUVSQ.Select | Agent/info_UVSQ/ingestion_UVSQ.py:26-33 | two lists of equal length; the i-th chunk and the i-th metadata come from the same kept record; a missing or null metadata gives `None` |
| IngestionUVSQ.ParseAll | Agent/info_UVSQ/ingestion_UVSQ.py:26-27 | parsing succeeds exactly when every line parses, and keeps the line order |
| IngestionUVSQ.LoadChunksFromJson | Agent/info_UVSQ/ingestion_UVSQ.py:18-34 | the loop builds exactly the selected lists of the parsed file, or fails when a line does not parse |
| IngestionUVSQ.DocIds | Agent/info_UVSQ/ingestion_UVSQ.py:14 | one id per chunk; `DocIdNumber` and `DocIdsDistinct` state their form |
| IngestionUVSQ.DocIdNumber | Agent/info_UVSQ/ingestion_UVSQ.py:14 | every id is `doc_` followed by the decimal digits of its position |
| IngestionUVSQ.DocIdsDistinct | Agent/info_UVSQ/ingestion_UVSQ.py:14 | no two chunks share an id |
| IngestionUVSQ.Entries | Agent/info_UVSQ/ingestion_UVSQ.py:11-15 | one entry per chunk, carrying that chunk and its own metadata |
| IngestionUVSQ.IngestedEntries | Agent/info_UVSQ/ingestion_UVSQ.py:36-44 | every stored document is non-empty and its id is unique |
| ChunkFiles.ChunkMetadata | utils/chunk_files.py:34-38 | the keys are the splitter's plus `source` and `chunk_id`; the splitter's values win, and otherwise the file name and index are used |
| ChunkFiles.FileChunks | utils/chunk_files.py:31-38 | one chunk per splitter document, in order, carrying its text and its metadata for that file and index |
| ChunkFiles.Collected | utils/chunk_files.py:25-38 | a listing without `.md` names collects nothing; `CollectedAppend` states the rest |
| ChunkFiles.AppendFileChunks | utils/chunk_files.py:31-38 | the lists grow by exactly one file's chunks, in splitter order |
| ChunkFiles.ChunkFolder | utils/chunk_files.py:21-40 | two lists of equal length holding, position by position, the collected chunks of the `.md` files in listing order |
| ChunkFiles.MarkdownFiles | utils/chunk_files.py:25-26 | only `.md` names from the listing are kept, and every one of them is |
| ChunkFiles.MarkdownFilesAppend | utils/chunk_files.py:25-26 | the filter distributes over concatenation and keeps a single name exactly when it ends in `.md`: the `.md` names, in listing order |
| ChunkFiles.OnlyMarkdownCounts | utils/chunk_files.py:25-26 | dropping every other name from the listing changes nothing in the result |
| ChunkFiles.CollectedAppend | utils/chunk_files.py:25-38 | collecting a listing in two parts gives the first part's chunks then the second's |
| ChunkFiles.ChunkIdsRestart | utils/chunk_files.py:31-38 | the chunk ids of each file start again at 0 and name that file, unless the splitter's metadata sets those keys |

## Left out

- The language model calls (router, relevance, SQL synthesis, rewrite, answer and funny-reply text, the teacher and information agents): oracle functions, because they are external services.
- SQL execution, sessions, commit and close, and `init_db`: the database is an oracle from the counter and statement to rows or an exception. The claim that re-running a read-only SELECT gives the same rows is a property of the database, not of this code.
- Chainlit's session storage and `async`/`await`: the session is an explicit `Option<GlobalState>` passed in and out, and handling is sequential.
- Chroma collections, embeddings and `utils/ingestion_bdd.py`: `Entries` lists what `collection.add` receives. Chroma's own length checks are replaced by the requirement that the two lists have equal length, which `Select` guarantees.
- The module-level code of `edt_parser.py` (JSON load, database creation, pandas preview) and of `ingestion_UVSQ.py` (the ingestion call): I/O.
- The first `regenerate_query` (Agent/SmartPlanner/SmartPlanner.py:233-254) is dead code. The class redefines the method, so the later one is the one used.
- The `current_user` key of the initial state is never read, so `StatePlanner` has no such field.
- `get_history` has no caller in the modelled code; `GetHistory` is only used to state the session lemmas.
- SmartPlanner.Step: the relevance check (Agent/SmartPlanner/SmartPlanner.py:95-104), the answer node (175-226), the rewrite (262-273) and the funny reply (284-291) build their prompts with f-strings, and the prompt template then re-reads the result as a template. A `{` or `}` in the question, statement or result makes the template raise. The model treats those texts as plain data, so this failure is not modelled.
- SmartPlanner.AskSmartPlannerOutcome: for the same reason, a question containing a brace ends the real run with an exception that this lemma does not predict.
- App.Reply: the direct answer (app.py:109-116) builds its prompt the same way, so a message containing a brace raises there too; the model does not capture this.
- SmartPlanner.IsSelect: `str.lower` is modelled on ASCII letters only. This is exact for the two comparisons made ("relevant" and a "select" prefix), since no other character lowers to those letters.
- EdtParser.CleanedEvents: `datetime.fromisoformat` is an integer-valued `instant` function. Its errors on malformed dates, and its refusal to compare naive with aware datetimes, are not modelled.
- EdtParser.CleanEvent: `event['description']`, `event['start']` and `event['end']` are required fields of `Event`, so their `KeyError` is not modelled. The `IndexError` of a description with fewer than three non-blank lines is modelled, as `None`.
- EdtParser.Salle: the whitespace before the first dash is kept, as the code does (for example "B101 " keeps its trailing space).
- `html.unescape` is a parameter. It is applied to the description and again to each line, as in the code.
- IngestionUVSQ.Record: a `content` that is present but not a string is not modelled. JSON parsing is an oracle that returns the two keys.
- ChunkFiles: the directory listing is a sequence of names, and the splitter is a function of the file name. `os.path.join` and file reading are left out, so two folders with the same file names are not told apart.
- The `dict` insertion order of the metadata is not modelled, since maps are unordered.
- App.Services: one planner oracle serves every message of a session, so a session cannot give different answers to the same question at different times.

## Findings

| source | as written | input that shows it | evidently intended | confidence | as-written member | corrected member |
|---|---|---|---|---|---|---|
| Agent/SmartPlanner/SmartPlanner.py:309-313 | `check_attempts_router` returns "end_max_iterations" once three attempts are made. The path map of that edge (lines 76-83) only has the keys "convert_to_sql" and "max_iterations", so the lookup fails and the graph run raises instead of giving up | a relevant question whose three generated statements all raise: after the third rewrite the counter is 3 and the label "end_max_iterations" is not in the path map | the router returns "max_iterations", so that `end_max_iterations` runs and the user gets "Veuillez réessayer" with the counter at 3 | high, not executed | SmartPlanner.GiveUpRaisesAsWritten | SmartPlanner.GiveUpIffThreeFailures |
| Agent/SmartPlanner/SmartPlanner.py:309-313 | the same missing key, seen from `handle_message` (app.py:82): the planner raises, so nothing is recorded and no message is sent | a schedule question, routed to the planner, whose three generated statements all raise | the give-up message is sent and recorded as the exchange | high, not executed | App.PlannerGiveUpRaises | App.PlannerGiveUpReachesUser |
