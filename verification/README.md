# yt-answer-comments, modelled in Dafny

`yt-answer-comments` helps a Christian YouTube channel answer the comments on
its videos. It has two versions, and both are modelled here.

**The current program (`cmd/answer-comments` and `internal/`).** It pages
through the comment threads of the channel and passes over every thread the
channel has already replied to. For each remaining comment it:

- asks a language model to classify the comment: a sentiment, a score from
  1 to 5, and a topic;
- asks a second model to draft a reply when the verdict allows it;
- lets the operator publish the draft, edit it, skip the comment or quit;
- optionally publishes unasked;
- stores every published reply in a local SQLite table. That table feeds the
  author's history back into later prompts.

**The first version (`main.go` and `llm.go` at the top of the repository).**
It does the same loop, with three differences:

- it has no mode flags;
- its drafter returns a JSON object;
- it appends a semicolon-separated log line for every handled comment instead
  of storing anything.

**How it is modelled.** Everything is pure functions over immutable data.

- The SQLite table is a sequence of rows with a unique-key invariant, and it
  is threaded through the saves and the queries.
- The language model, the JSON decoder, the YouTube calls, the clock and the
  time parsers are function-valued parameters (oracles). They are collected in
  a `World` record.
- The operator is the sequence of lines typed at the terminal.
- The Go library functions the decisions depend on are written out: white
  space trimming, prefix and suffix removal, upper-casing, replacement, `%d`
  formatting, and splitting on a separator.

Modules:

- `Wrappers`: `Option` and `Result`.
- `Models`: the records.
- `GoStrings` and `Decimal`: the library functions.
- `Store`: `internal/database/db.go`.
- `Prompts` and `Llm`: `internal/llm/llm.go`.
- `Roster`: `loadMembersFromCSV`, the same in both versions.
- `Triage`: the loop of `cmd/answer-comments/main.go`.
- `LegacyLlm`: `llm.go`.
- `LegacyTriage`: the loop of `main.go`.

## Model

| member | source | states |
|---|---|---|
| Store.SaveComment | internal/database/db.go:59-82 | A publication time that is not RFC 3339 fails and inserts nothing. An id already stored fails as a duplicate primary key and leaves the table as it was. Otherwise exactly one row is appended. The row holds the author name, the original text, the sentiment, the score, the response, the `userAnswered` flag, the parsed time, the response time and the video id, all as passed. The unique-key invariant is kept. |
| Store.AuthorRows | internal/database/db.go:86-89 | `WHERE author = ?`: every row of the author comes back exactly as many times as it is stored, and no row of another author comes back. |
| Store.AuthorRowsGrow | internal/database/db.go:59-89 | Storing one more row of the author adds exactly that row to the author's rows. |
| Store.SortNewestFirst | internal/database/db.go:90 | `ORDER BY created_at DESC`: the result is ordered newest first and is a permutation of its input. |
| Store.Take | internal/database/db.go:91 | SQLite `LIMIT`: a prefix of the input. It holds `limit` rows, or every row when the limit is negative or at least the row count. |
| Store.SelectLast | internal/database/db.go:86-92 | The query's rows all have the given author and come newest first. They are a sub-multiset of that author's rows, and there are `limit` of them, or all of them when the limit is negative or at least the author's row count. No row of the author that was left out is newer than a row that was kept. |
| Store.SelectLastAll | internal/database/db.go:86-92 | When the limit leaves room, the query returns every row of the author. |
| Store.ReadBack | internal/database/db.go:103-114 | A stored time is read with RFC 3339 first and the "2006-01-02 15:04:05" layout second. The read succeeds exactly when one of them parses, and the instant comes from the first parser that succeeds. The comment text and the response are copied. |
| Store.ReadAll | internal/database/db.go:98-117 | The scan succeeds exactly when every selected row reads back, so one failure fails the whole call. On success there is one entry per row, in the rows' order, and entry i is what reading back row i gives: its time from the first parser that accepts it, and its texts. |
| Store.GetLastComments | internal/database/db.go:85-118 | The call succeeds exactly when every selected row reads back. It returns no more than `limit` entries. Entry i is the read-back of the i-th of the author's newest rows, in newest-first order: its time and its texts. |
| Store.SavedCommentInHistory | internal/database/db.go:59-118 | Round trip: after a successful save, the author's history holds an entry with the saved comment text and the saved response. This needs a limit that leaves room and times that read back. |
| Llm.CleanJsonReply | internal/llm/llm.go:38-42 | The classifier's cleaning gives a trimmed text no longer than the raw reply. |
| Llm.JsonFenceRemoved | internal/llm/llm.go:38-42 | Take a reply made of "```json", white space, a trimmed body that does not start with a backtick, white space, and "```". It cleans to exactly the body. |
| Llm.LeadingSpaceKeepsJsonFence | internal/llm/llm.go:38-42 | The fences are removed before trimming, so white space before "```json" leaves the fence at the front of the cleaned text. |
| Llm.CleanSuggestion | internal/llm/llm.go:76-80 | The drafter's cleaning gives a trimmed text no longer than the raw reply. |
| Llm.SuggestionFenceRemoved | internal/llm/llm.go:76-80 | The drafter trims first, so a fenced draft surrounded by white space cleans to the trimmed body. |
| Llm.SuggestionKeepsJsonTag | internal/llm/llm.go:77-80 | The drafter removes only "```", so a "```json" fence leaves the text starting with "json". |
| Llm.PlainTextUnchanged | internal/llm/llm.go:38-80 | Trimmed text without fences passes through both cleanings unchanged. |
| Llm.AnalyzeComment | internal/llm/llm.go:22-49 | A failed model call returns its error behind the fixed message. A cleaned reply that decodes gives the verdict. A decoding failure returns an error that starts with "parsing JSON analysis LLM: " and ends with "; raw: " followed by the untouched raw reply. |
| Llm.SuggestAnswer | internal/llm/llm.go:52-83 | The call succeeds exactly when the model answers. The draft is the drafter's cleaning of the raw reply, and it is trimmed. A failure carries the model's error behind the fixed message. |
| Prompts.AnalysisPromptQuotesComment | internal/llm/llm.go:190-250 | `AnalysisPrompt`, the classifier prompt, is the fixed instructions, then the comment verbatim, then the closing quote. The comment sits at a known position. |
| Prompts.HistoryContext | internal/llm/llm.go:87-94 | The history block is empty exactly when there is no history. |
| Prompts.HistoryNumberedInOrder | internal/llm/llm.go:88-94 | The history lists every entry in the given order. The k-th entry is numbered from 1 and gives the comment text and then the response. |
| Prompts.ConsistencyContext | internal/llm/llm.go:118-127 | The consistency block is empty exactly when there are no earlier replies. |
| Prompts.ConsistencyOnePerLine | internal/llm/llm.go:119-124 | The earlier replies appear in order, each on its own line. |
| Prompts.Plan | internal/llm/llm.go:86-187 | Each prompt opens with the template's header: comment, title and description for the positive template, comment and title for the negative one. |
| Prompts.InPlan | internal/llm/llm.go:86-187 | Every block of a plan is its header or an optional block whose input is present, and every such block is in the plan. |
| Prompts.PlanContents | internal/llm/llm.go:86-187 | A block is included exactly when its input is present: the transcript when it is non-empty, the history when it has entries, the consistency block when there are earlier replies, and the member note when the author is a member. A separate description block appears only in the negative template, and only for a non-empty description. |
| Prompts.HeaderQuotesFields | internal/llm/llm.go:96-103 | The positive header holds the comment, the title and the description verbatim, in that order, each right after its label. |
| Prompts.PlanOrdered | internal/llm/llm.go:86-187 | Each block kind appears at most once, always in the same order. |
| Prompts.PromptMatchesPlan | internal/llm/llm.go:86-187 | `AnswerPrompt`, the prompt grown step by step as `getPositiveAnswerPrompt` and `getNegativeAnswerPrompt` build it, equals the rendering of the block plan. |
| Prompts.SuggestPromptFollowsTemplate | internal/llm/llm.go:54-59 | `SuggestPrompt`, the drafter's prompt, is the negative template's `AnswerPrompt` for a comment flagged negative and the positive one's otherwise. |
| Prompts.PromptOpensWithIntro | internal/llm/llm.go:96-154 | Every reply prompt starts with its template's introduction. |
| Prompts.PositiveIntroStop | internal/llm/llm.go:96 | The positive introduction goes on with a full stop after the opening sentence both templates share. |
| Prompts.NegativeIntroSpace | internal/llm/llm.go:147 | The negative introduction goes on with a space after that shared opening, and its first sentence continues. |
| Prompts.SuggestPromptOpening | internal/llm/llm.go:54-59 | The drafter prompt opens with the introduction of the template chosen for it: the negative one for a comment flagged negative, the positive one otherwise. |
| Prompts.TemplateChoiceVisible | internal/llm/llm.go:54-59 | A reader of a drafter prompt can tell which template was used. Right after the shared opening comes a space exactly when the comment was flagged negative, and a full stop exactly when it was not. |
| Roster.ProjectAsWritten | cmd/answer-comments/main.go:580-590 | The projection as written fails with Go's index panic exactly when some row has a single field. Otherwise the roster holds exactly the second fields of the rows that have one. |
| Roster.Project | cmd/answer-comments/main.go:580-590 | The corrected projection holds exactly the second fields of the rows that have one, and never fails. |
| Roster.LoadMembersAsWritten | cmd/answer-comments/main.go:551-593 | A missing file gives an empty roster, and so does a file with only a header. |
| Roster.LoadMembers | cmd/answer-comments/main.go:551-593 | With the corrected guard, loading never panics. Parsed records give exactly the second fields of the rows after the header. A missing file gives an empty roster. An error comes exactly from a failed open, stat or read. |
| Roster.AsWrittenPanicsOnlyOnOneFieldRows | main.go:270-312 | The code as written panics exactly when a row after the header has one field. Otherwise it loads the same roster as the corrected code. |
| Roster.TwoColumnExportLoads | main.go:299-309 | A well-formed export with at least two columns loads the member URLs without a panic. |
| Roster.OneColumnExportPanics | cmd/answer-comments/main.go:584-588 | A one-column export, a header plus one member, passes the reader's field-count check and then panics. |
| Roster.MemberIffListed | cmd/answer-comments/main.go:127 | An author is a member exactly when a row after the header lists the channel URL built from their id. |
| Triage.ReadLine | cmd/answer-comments/main.go:250 | Reading a line consumes the first typed line. Once input runs out, every read gives "". |
| Triage.Normalize | cmd/answer-comments/main.go:251 | The typed line, upper-cased and trimmed, is no longer than the line and has no white space at either end. |
| Triage.NormalizePadded | cmd/answer-comments/main.go:250-251 | A letter surrounded by any white space reads as that letter upper-cased, so "q" with its line break reads "Q". |
| Triage.AnsweredByMe | cmd/answer-comments/main.go:114-122 | A thread counts as answered exactly when some reply's author channel id is the channel's own. The legacy loop (main.go:101-109) runs the same scan, so `LegacyTriage` uses this function too. |
| Triage.Decide | cmd/answer-comments/main.go:172-259 | Manual mode always edits without asking. When no draft is requested, the action is edit. A requested draft that is empty or failed abandons the comment. The auto condition publishes the trimmed draft unasked. The operator is asked exactly when a non-empty draft is not auto-approved, and their letter then picks the action. Anything published unedited is the trimmed draft. |
| Triage.Choose | cmd/answer-comments/main.go:261-303 | The `switch input`: "S" publishes the answer, "E" edits, "Q" quits, and every other input skips. A choice never abandons the comment. |
| Triage.DecisionIgnoresDraftWhenNotRequested | cmd/answer-comments/main.go:194-259 | When no draft is requested, the decision is the same unprompted edit whatever the draft and the typed line. |
| Triage.Dispatch | cmd/answer-comments/main.go:261-303 | "S" publishes the draft, with `userAnswered` false. "E" reads an edit and publishes it trimmed, with `userAnswered` true, unless it trims to empty. "Q" quits and anything else skips. A reply counts as published only when the publish call succeeds. Only an edit consumes a line. |
| Triage.HistoryOrNone | cmd/answer-comments/main.go:187-192 | The author's history holds at most 10 entries. It is empty exactly when the query fails or the author has no stored row. Otherwise entry i is the read-back of the author's i-th newest row. |
| Triage.Request | cmd/answer-comments/main.go:127-209 | The drafter gets a request flagged negative exactly for a negative verdict. It gets the comment's original text and the video's title and description, or the two placeholders when the lookup fails. It gets the transcript only in transcription mode and for a topic other than greetings. It gets the author's history and the member flag from the roster. The earlier replies on the same topic and sentiment come from a successful query, otherwise there are none. |
| Triage.Settle | cmd/answer-comments/main.go:262-297 | A row is saved only after a successful publish, with the published text and its `userAnswered` flag. A failed save leaves the store unchanged. |
| Triage.Handle | cmd/answer-comments/main.go:172-303 | For a classified comment, the store only grows and keeps its keys unique. A save happens only for a published reply, and exactly when `SaveComment` succeeds. The comment is abandoned exactly when a requested draft is empty or failed. An unedited publish is the trimmed non-empty draft. Manual mode publishes only edits. How the typed lines drive it is stated by `PromptLineDecides`, `UnpromptedEditReadsNextLine` and `UnpromptedDraftReadsNothing`, which together cover every case of the decision. |
| Triage.PromptLineDecides | cmd/answer-comments/main.go:247-303 | When the operator is asked, the typed line picks the outcome: "Q" quits, "S" publishes the trimmed draft or fails, "E" publishes the trimmed next line unless it is empty, and anything else skips. The prompt line is consumed, and after "E" the edit line too. |
| Triage.UnpromptedEditReadsNextLine | cmd/answer-comments/main.go:255-297 | With no draft requested nobody is asked: the next line is the edit, an empty edit exactly when it trims to "", otherwise published trimmed as the operator's own reply. That line is the only one consumed. |
| Triage.UnpromptedDraftReadsNothing | cmd/answer-comments/main.go:225-275 | An abandoned comment and an auto-approved draft consume no input line; the auto-approved draft is published trimmed, or the publish fails. |
| Triage.ProcessComment | cmd/answer-comments/main.go:159-305 | A classifier failure ends the program at that comment with nothing changed. Otherwise the comment is handled with the verdict. |
| Triage.ExitIffClassifierFails | cmd/answer-comments/main.go:161-167 | With the real classifier wired in, the program exits exactly when the model call fails or its cleaned reply does not decode. |
| Triage.OnlyPositiveTemplateUsed | cmd/answer-comments/main.go:194-225 | Drafts are requested only for comments that are not negative. So the loop always drafts with the positive template: the prompt opens with the positive introduction, with its full stop after the shared opening, and the negative template is never reached. |
| Triage.TranscriptInPromptIff | cmd/answer-comments/main.go:197-209 | The transcript reaches the prompt exactly in transcription mode, for a topic other than greetings, when the transcript is non-empty. |
| Triage.HistoryInPromptIff | cmd/answer-comments/main.go:187-192 | The history block reaches the prompt exactly when the author query succeeds with at least one entry. |
| Triage.DraftIsCleanedReply | cmd/answer-comments/main.go:225-235 | With the real drafter wired in, a draft exists exactly when the model answers. It is the cleaned reply, and trimming it again changes nothing. |
| Triage.PublishedDraftIsCleanedReply | cmd/answer-comments/main.go:225-263 | A reply published without editing is exactly the model's cleaned reply to the draft prompt. |
| Triage.ProcessPage | cmd/answer-comments/main.go:108-307 | The comments handled are the page's unanswered comments, in page order, each from the session the one before it left. Handling goes up to and including the first comment whose outcome stops the loop, a "Q" or a classifier failure. The page stops exactly when its last handled comment stopped it, and with that outcome. Without a stop every unanswered comment is handled. A page counts as having work exactly when it holds an unanswered thread, and a page without one changes nothing. The store only grows and keeps its keys unique. |
| Triage.UnansweredComments | cmd/answer-comments/main.go:110-125 | The comments to handle are the top-level comments of the threads with no reply from the channel. There are no more of them than threads, and there is one exactly when some thread is unanswered. The legacy loop runs the same scan (main.go:97-112). |
| Triage.PageStep | cmd/answer-comments/main.go:110-305 | The k-th step of a page handles the page's k-th unanswered comment, from the session the step before it left. |
| Triage.PageEnd | cmd/answer-comments/main.go:309-324 | After a page with nothing unanswered, the loop ends when there is no next token. Otherwise the operator is asked and "Q" ends it. A page with work never stops here, and a line is consumed only when the operator is asked. |
| Triage.Run | cmd/answer-comments/main.go:88-325 | Each threads call after the first asks for the token the previous page returned. Each page starts from the session the page before it left, after the page end. The ending names its cause. A failed threads call ends with its error and the session it was made from. A stop on a page ends with that outcome. "All answered" means the last page had no unanswered thread and no next token. The operator's quit means it had neither a stop nor an unanswered thread, it had a next token, and a "Q" was typed. The store only grows and keeps its keys unique. |
| Triage.ExplainedAt | cmd/answer-comments/main.go:88-325 | Every page of a run but the last leads from its start to the next page's start, and the last page explains how the run ended. |
| Triage.OperatorQuitMeansQ | cmd/answer-comments/main.go:309-324 | A run that ends by the operator's quit fetched a last page with no unanswered thread and a next token, and the line typed there reads "Q" once upper-cased and trimmed. |
| Triage.Start | cmd/answer-comments/main.go:80-106 | The first threads call carries no page token, and the store keeps its keys unique. |
| Triage.StartIgnoresFirstLine | cmd/answer-comments/main.go:84-85 | The line typed at the start prompt is read and never interpreted. |
| LegacyLlm.AnswerPromptQuotesFields | llm.go:50-66 | The legacy `AnswerPrompt` holds the comment, the title and the description verbatim, in that order, after the fixed instructions, each between its fixed labels. |
| LegacyLlm.SuggestAnswerLegacy | llm.go:20-47 | Every error comes with the zero suggestion. A failed call carries the model's error. The cleaned reply decodes to the two-field suggestion exactly when there is no error. A decoding error starts with "parsing JSON LLM: " and ends with the raw reply. |
| LegacyLlm.FencedReplyDecoded | llm.go:36-46 | A JSON object wrapped in a "```json" fence, with white space inside, is decoded from the object alone. |
| LegacyTriage.Request | main.go:120-128 | The drafter gets the negative flag exactly when the sentiment is "negativo", and the comment's original text. When the video lookup succeeds it gets that video's title and description; when it fails it gets the two placeholder texts. These are the arguments the call at main.go:159 passes. |
| LegacyTriage.Decide | main.go:150-190 | With no mode flags: no draft requested means edit. An empty or failed draft abandons the comment. A positive draft scored 4 or more is published trimmed without asking. The operator is asked exactly when a non-empty draft is not auto-approved. The decision's answer is the trimmed draft shown to the operator; it is the logged answer unless the action is an edit, which logs the trimmed edit line. |
| LegacyTriage.LegacyIsCanonicalAuto | main.go:150-190 | The legacy decision matches the current program's decision with manual mode off and auto mode on, both in the action and in whether the operator is asked. |
| LegacyTriage.LegacyPublishesUnasked | main.go:174-176 | Where the current program without auto mode asks the operator, the legacy loop publishes the draft unasked. |
| LegacyTriage.Sanitize | main.go:259 | The author's name keeps every character except semicolons, which become commas. |
| LegacyTriage.Flatten | main.go:261-263 | Semicolons become commas and line breaks become spaces. Every other character is kept, so the result holds neither separator nor line break. |
| LegacyTriage.LogRecordFields | main.go:250-266 | Whatever the author, text and answer hold, a log record has exactly four semicolons. Splitting it at them returns the five fields, and the score field reads back as the logged number. |
| LegacyTriage.LogRecord | main.go:258-264 | The comment text and the answer lose their line breaks, so a record holds no line break unless the author's name or the date does. |
| LegacyTriage.LogLine | main.go:257-264 | The logged line opens with the logger's stamp and ends with a line break. With no line break in the stamp, the name or the date, that final break is the only one: one comment gives one log line. |
| LegacyTriage.ProcessComment | main.go:140-225 | A classifier failure exits. An abandoned draft and a "Q" write no log line. Every other handled comment appends one line when the log opens. The line carries the published text, an empty answer after an empty edit, or the trimmed draft when skipped. An unedited publish is the trimmed draft. After a failed publish the line carries the text whose publication failed. |
| LegacyTriage.PromptLineDecides | main.go:178-225 | When the operator is asked, the typed line picks the outcome as in the current program, and consumes the same lines. "Q" writes no log line; after "E" the log carries the trimmed edit line, and otherwise the trimmed draft. |
| LegacyTriage.UnpromptedEditReadsNextLine | main.go:186-216 | With no draft requested the next line is the edit: empty exactly when it trims to "", otherwise published trimmed; it is logged trimmed and is the only line consumed. |
| LegacyTriage.UnpromptedDraftReadsNothing | main.go:161-200 | An abandoned comment and an auto-approved draft consume no input line; the auto-approved draft is published and logged trimmed. |
| LegacyTriage.BlankDraftLogsEmptyAnswer | main.go:161-198 | A draft of white space alone passes the emptiness check, so it is offered; "S" then tries to publish the empty trimmed text, and when that fails the log line carries "". |
| LegacyTriage.ProcessPage | main.go:95-229 | The comments handled are the page's unanswered comments, in page order, each from the session the one before it left, up to and including the first that stops the loop, a "Q" or a classifier failure. The page stops exactly when its last handled comment stopped it, and with that outcome. Without a stop every unanswered comment is handled. A page counts as having work exactly when it holds an unanswered thread, and a page without one changes nothing. The log only grows. |
| LegacyTriage.PageStep | main.go:97-227 | The k-th step of a page handles the page's k-th unanswered comment, from the session the step before it left. |
| LegacyTriage.Run | main.go:76-247 | Each threads call after the first asks for the previous page's token. Each page starts from the session the page before it left, after the page end. The ending names its cause: a failed call ends with its error and the session it was made from; a stop on a page ends with that outcome; "all answered" means the last page had no unanswered thread and no next token; the operator's quit means it had a next token and a "Q" was typed. The log only grows. |
| LegacyTriage.ExplainedAt | main.go:76-247 | Every page of a run but the last leads from its start to the next page's start, and the last page explains how the run ended. |
| LegacyTriage.OperatorQuitMeansQ | main.go:229-246 | A run that ends by the operator's quit fetched a last page with no unanswered thread and a next token, and the line typed there reads "Q" once upper-cased and trimmed. |
| GoStrings.TrimSpace | internal/llm/llm.go:42 | `strings.TrimSpace` returns a text with no leading or trailing Unicode white space. |
| GoStrings.TrimSpaceIdempotent | internal/llm/llm.go:77-80 | Trimming a trimmed text changes nothing. |
| GoStrings.TrimPrefix | internal/llm/llm.go:39-40 | `strings.TrimPrefix` removes one occurrence of the prefix when present and otherwise returns the text unchanged. |
| GoStrings.TrimSuffix | internal/llm/llm.go:41 | `strings.TrimSuffix` removes one occurrence of the suffix when present and otherwise returns the text unchanged. |
| GoStrings.ReplaceChar | main.go:259-263 | `strings.ReplaceAll` with one-character arguments keeps the length, replaces every occurrence and keeps every other character. |
| GoStrings.ToUpper | cmd/answer-comments/main.go:251 | The operator's letters are upper-cased character by character. |
| Decimal.IntToStringRoundTrip | main.go:258 | The `%d` rendering of the score reads back as the same number. |

## Left out

- The YouTube client is left out: OAuth, the token files and the HTTP calls. Publishing is the `publish` oracle, which says whether the call succeeded. The video lookup and the threads list are oracles too: `video`, and the sequence of `fetches`.
- The setup screen (`runPreparationScreen` and `performSetup`) is left out. It is a terminal UI with a goroutine, plus environment and credential loading. The flags and the roster reach the loop as values in the `World`.
- The language models themselves are the `ask` oracle, from prompt to reply text or error. The 60-second timeouts and the temperature are not modelled. JSON decoding is the `decode` oracle. Decoding the object `{nota, resposta}` or `{nota, sentimento, tema}` is not written out.
- `GetVideoTranscription` and `GetPreviousAnswersByContext` are oracles (`transcript`, `pastAnswers`). The second has no body in the repository. A transcript that fails to load is given as "", which is how the prompt code treats it.
- Printing is not modelled, including the screen clearing, the `time.Sleep` pauses and the BRT formatting of times. The formatted publication time in the legacy log is the `shownTime` oracle, and the logger's date-time stamp is `stamp`. The roster's ten-day age warning only prints and is left out.
- SQL, `InitDB` and `CloseDB` are not modelled. The table is a sequence of rows, and stored times are abstract instants. RFC 3339 parsing, the "2006-01-02 15:04:05" layout and SQLite's `datetime()` rendering are uninterpreted functions. `ORDER BY created_at` sorts by the selected alias `datetime(created_at)` (internal/database/db.go:87-90), which is text to the second, so SQL may return rows whose times are equal to the second in any order. The model sorts by the full instant and breaks exact ties in one fixed order.
- The current program calls `SaveComment` with six arguments, including the topic, while `internal/database/db.go` takes five. The model follows `db.go`, so the topic is not stored.
- `models.SentimentAnalysis` has no `Tema` field, although the loop reads one. The verdict carries a topic as the loop expects.
- The legacy `main.go` calls `suggestAnswer` with six arguments and uses the result as text. The `llm.go` next to it takes five arguments and returns a `{nota, resposta}` suggestion. Each is modelled as written: `LegacyTriage` takes a drafter of text, and `LegacyLlm` models `llm.go`. They are not joined.
- The legacy `analyzeComment` is not part of this model. The legacy loop takes its classifier as the `classify` oracle.
- In the legacy loop the member flag only changes what is printed, so `LegacyTriage` has no roster.
- GoStrings.ToUpper: upper-cases only `a`..`z` and U+017F (long s). These are the only characters whose upper case is S, E or Q, so only they can change a decision. Other letters are left as they are.
- The fetch script: a run is driven by a finite sequence of threads responses. Running out of responses is a separate ending, `OutOfResponses`. The real loop would keep fetching; it has no natural bound.
- Llm.CleanJsonReply: its contract says only that the result is trimmed and no longer than the reply. What the cleaning does to fenced replies is stated by the lemmas about it.
- Llm.CleanSuggestion: its contract says only that the result is trimmed and no longer than the reply. What the cleaning does to fenced replies is stated by the lemmas about it.

## Findings

| source | as written | input that shows it | evidently intended | confidence | as-written member | corrected member |
|---|---|---|---|---|---|---|
| cmd/answer-comments/main.go:584-588 | `if len(record) > 0` guards `record[1]`; the copy in main.go:303-307 is the same | a members export with one column, such as the two records `Channel` and `abc`; the CSV reader accepts it, then `record[1]` panics with "index out of range [1] with length 1" | rows without a second field are skipped (`len(record) > 1`) | not executed | Roster.LoadMembersAsWritten | Roster.LoadMembers |
