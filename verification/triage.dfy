/**
 * The reply loop of `cmd/answer-comments`: pages of comment threads are
 * fetched, threads the channel already answered are passed over, and each
 * remaining comment is classified, possibly drafted, decided on (by the mode
 * flags, the verdict, the draft and the operator's keystrokes), published and
 * saved. The YouTube and model services are oracles in a `World`; the
 * operator is the stream of lines typed at the terminal.
 */
module Triage {
  import opened Wrappers
  import opened GoStrings
  import opened Models
  import Store
  import Llm
  import Prompts
  import Roster

  /** The three command-line flags. */
  datatype Modes = Modes(manual: bool, auto: bool, transcription: bool)

  /** Title and description of a video, when the videos call finds it. */
  datatype VideoInfo = VideoInfo(title: string, description: string)

  const NoTitle: string := "[Não foi possível obter o título]"
  const NoDescription: string := "[Não foi possível obter a descrição]"

  /** Verdict topic for which the transcript is never fetched. */
  const GreetingTopic: string := "Saudação/Agradecimento"

  /** How many earlier comments of the author are read for the drafter. */
  const HistoryLimit: int := 10

  /**
   * Everything outside the loop: the authenticated channel, the flags, the
   * member roster, the store's time formats, and the services as functions
   * of what is asked of them. `classify` and `draft` stand for the two
   * language-model calls; `ClassifierWired` and `DrafterWired` say they are `Llm.AnalyzeComment` and
   * `Llm.SuggestAnswer` over the model `ask` and the JSON decoder `decode`.
   */
  datatype World = World(
    me: string,
    modes: Modes,
    members: set<string>,
    formats: Store.TimeFormats,
    classify: string -> Result<Verdict, string>,
    draft: DraftRequest -> Result<string, string>,
    decode: string -> Result<Verdict, string>,
    ask: string -> Llm.LlmReply,
    video: string -> Option<VideoInfo>,
    pastAnswers: (string, string) -> Result<seq<string>, string>,
    transcript: string -> string,
    publish: (string, string) -> bool,
    savedAt: string -> Instant)

  /** The store and the operator's remaining input lines. */
  datatype Session = Session(db: Store.Db, lines: seq<string>)

  /** `reader.ReadString('\n')` with its error ignored: once input runs out, every read gives "". */
  function ReadLine(lines: seq<string>): (r: (string, seq<string>))
    ensures |lines| > 0 ==> r == (lines[0], lines[1..])
    ensures |lines| == 0 ==> r == ("", lines)
  {
    if |lines| == 0 then ("", lines) else (lines[0], lines[1..])
  }

  /** `strings.TrimSpace(strings.ToUpper(input))`: no longer than the line and free of white space at either end. */
  function Normalize(line: string): (r: string)
    ensures |r| <= |line| && Trimmed(r)
  {
    TrimSpace(ToUpper(line))
  }

  /**
   * The operator's letter is read whatever white space surrounds it and in
   * either case: a line that is `m` padded with white space normalizes to
   * `m` upper-cased, so "q\n" and " Q " both read "Q".
   */
  lemma NormalizePadded(a: string, m: string, b: string)
    requires AllSpace(a) && AllSpace(b) && Trimmed(m)
    ensures Normalize(a + m + b) == ToUpper(m)
  {
    UpperConcat(a + m, b);
    UpperConcat(a, m);
    UpperOfSpace(a);
    UpperOfSpace(b);
    UpperOfTrimmed(m);
    TrimSpaceOfPadded(a, ToUpper(m), b);
  }

  /** The reply scan with early `break`: some reply was written by `me`. */
  function AnsweredByMe(replies: seq<Reply>, me: string): (r: bool)
    ensures r <==> exists i :: 0 <= i < |replies| && replies[i].authorChannelId == me
  {
    if |replies| == 0 then false
    else if replies[0].authorChannelId == me then true
    else
      var rest := AnsweredByMe(replies[1..], me);
      assert forall i :: 1 <= i < |replies| ==> replies[i] == replies[1..][i - 1];
      rest
  }

  /** A draft is requested only outside manual mode, for a comment that is not negative and scored at least 3. */
  predicate ShouldSuggest(modes: Modes, v: Verdict) {
    !modes.manual && v.sentimento != "negativo" && v.nota >= 3
  }

  /** The auto-reply condition: a non-empty draft, a positive comment scored at least 4, and auto mode on. */
  predicate AutoApproves(modes: Modes, v: Verdict, draft: string) {
    draft != "" && v.sentimento == "positivo" && v.nota >= 4 && modes.auto
  }

  datatype Action = Publish(text: string) | Edit | Skip | Quit | Abandon

  /** What to do with a comment, and whether the operator was asked to choose. */
  datatype Decision = Decision(action: Action, prompted: bool)

  /**
   * The `switch input` on the chosen letter: "S" publishes the answer, "E"
   * edits, "Q" quits, and anything else skips; a choice never abandons.
   */
  function Choose(input: string, answer: string): (a: Action)
    ensures a.Publish? <==> input == "S"
    ensures a.Publish? ==> a.text == answer
    ensures a.Edit? <==> input == "E"
    ensures a.Quit? <==> input == "Q"
    ensures a.Skip? <==> input != "S" && input != "E" && input != "Q"
    ensures !a.Abandon?
  {
    if input == "S" then Publish(answer)
    else if input == "E" then Edit
    else if input == "Q" then Quit
    else Skip
  }

  /**
   * The decision part of the loop, kept in the shape of the Go code: `input`
   * is preset to "E" in manual mode, a requested draft that is empty or failed
   * abandons the comment, the auto condition presets "S", an operator line is
   * read only when `input` is still empty, and an empty `input` with no draft
   * falls back to "E". `draft` is consulted only when a draft is requested.
   */
  function Decide(modes: Modes, v: Verdict, draft: Result<string, string>, choiceLine: string): (d: Decision)
    ensures modes.manual ==> d == Decision(Edit, false)
    ensures !ShouldSuggest(modes, v) ==> d == Decision(Edit, false)
    ensures d.action == Abandon <==> ShouldSuggest(modes, v) && (draft.Failure? || draft.value == "")
    ensures ShouldSuggest(modes, v) && draft.Success? && AutoApproves(modes, v, draft.value) ==>
              d == Decision(Publish(TrimSpace(draft.value)), false)
    ensures d.prompted <==>
              ShouldSuggest(modes, v) && draft.Success? && draft.value != "" && !AutoApproves(modes, v, draft.value)
    ensures d.prompted ==> d.action == Choose(Normalize(choiceLine), TrimSpace(draft.value))
    ensures d.action.Publish? ==>
              ShouldSuggest(modes, v) && draft.Success? && draft.value != "" && d.action.text == TrimSpace(draft.value)
  {
    var input0 := if modes.manual then "E" else "";
    if ShouldSuggest(modes, v) then
      var suggested := if draft.Success? then draft.value else "";
      if suggested == "" || draft.Failure? then Decision(Abandon, false)
      else
        var answer := TrimSpace(suggested);
        var input1 := if AutoApproves(modes, v, suggested) then "S" else input0;
        var prompted := input1 == "";
        var input2 := if prompted then Normalize(choiceLine) else input1;
        Decision(Choose(input2, answer), prompted)
    else
      var input := if input0 == "" then "E" else input0;
      Decision(Choose(input, ""), false)
  }

  /** The operator need not be asked, and no draft is looked at, when none is requested. */
  lemma DecisionIgnoresDraftWhenNotRequested(modes: Modes, v: Verdict, d1: Result<string, string>, d2: Result<string, string>,
                                             line1: string, line2: string)
    requires !ShouldSuggest(modes, v)
    ensures Decide(modes, v, d1, line1) == Decide(modes, v, d2, line2) == Decision(Edit, false)
  {
  }

  /** How one comment ended. */
  datatype Outcome =
    | Published(text: string, userAnswered: bool)
    | PublishFailed
    | EmptyEdit
    | Skipped
    | Abandoned
    | QuitRequested
    | Exited(message: string)  // the classifier failed and the program exits

  /**
   * Carrying out the action: "S" publishes the draft, "E" reads the edited
   * reply and publishes it unless it trims to empty. `publish` is the call
   * that posts a reply under comment `commentId`.
   */
  function Dispatch(action: Action, commentId: string, lines: seq<string>, publish: (string, string) -> bool)
    : (r: (Outcome, seq<string>))
    ensures r.0.Published? <==>
              || (action.Publish? && publish(commentId, action.text))
              || (action.Edit? && TrimSpace(ReadLine(lines).0) != "" && publish(commentId, TrimSpace(ReadLine(lines).0)))
    ensures r.0.Published? ==> publish(commentId, r.0.text) && (r.0.userAnswered <==> action.Edit?)
    ensures r.0.Published? && action.Edit? ==> r.0.text == TrimSpace(ReadLine(lines).0) && r.0.text != ""
    ensures r.0.EmptyEdit? <==> action.Edit? && TrimSpace(ReadLine(lines).0) == ""
    ensures r.0.Skipped? <==> action.Skip?
    ensures r.0.Abandoned? <==> action.Abandon?
    ensures r.0.QuitRequested? <==> action.Quit?
    ensures !r.0.Exited?
    ensures r.1 == if action.Edit? then ReadLine(lines).1 else lines
  {
    match action
    case Publish(text) => (if publish(commentId, text) then Published(text, false) else PublishFailed, lines)
    case Edit =>
      var (line, rest) := ReadLine(lines);
      var edited := TrimSpace(line);
      if edited == "" then (EmptyEdit, rest)
      else (if publish(commentId, edited) then Published(edited, true) else PublishFailed, rest)
    case Skip => (Skipped, lines)
    case Quit => (QuitRequested, lines)
    case Abandon => (Abandoned, lines)
  }

  /** The arguments `SuggestAnswer` is called with. */
  datatype DraftRequest = DraftRequest(
    isNegative: bool,
    comment: string,
    title: string,
    description: string,
    transcript: string,
    history: seq<HistoryEntry>,
    isMember: bool,
    answers: seq<string>)

  /** The author's history as the loop reads it: a failed query counts as no history. */
  function HistoryOrNone(db: Store.Db, formats: Store.TimeFormats, author: string): (r: seq<HistoryEntry>)
    ensures |r| <= HistoryLimit
    ensures var rows := Store.SelectLast(db, author, HistoryLimit);
            && (|r| == 0 <==> Store.GetLastComments(db, formats, author, HistoryLimit).Failure? || |rows| == 0)
            && (|r| > 0 ==> |r| == |rows| && forall i :: 0 <= i < |rows| ==> Store.ReadBack(formats, rows[i]) == Success(r[i]))
  {
    match Store.GetLastComments(db, formats, author, HistoryLimit)
    case Success(h) => h
    case Failure(_) => []
  }

  /**
   * Gathering the drafter's inputs: the video's title and description (or
   * the placeholders), the transcript only in transcription mode and not for
   * greetings, the author's history, the earlier replies on the same topic
   * and sentiment (none when that query fails), and the member flag.
   */
  function Request(w: World, db: Store.Db, c: Comment, v: Verdict): (q: DraftRequest)
    ensures q.isNegative <==> v.sentimento == "negativo"
    ensures q.comment == c.textOriginal
    ensures w.video(c.videoId).Some? ==>
              q.title == w.video(c.videoId).value.title && q.description == w.video(c.videoId).value.description
    ensures w.video(c.videoId).None? ==> q.title == NoTitle && q.description == NoDescription
    ensures w.modes.transcription && v.tema != GreetingTopic ==> q.transcript == w.transcript(c.videoId)
    ensures !(w.modes.transcription && v.tema != GreetingTopic) ==> q.transcript == ""
    ensures q.history == HistoryOrNone(db, w.formats, c.authorDisplayName)
    ensures q.isMember <==> Roster.IsMember(w.members, c.authorChannelId)
    ensures q.answers == if w.pastAnswers(v.tema, v.sentimento).Success? then w.pastAnswers(v.tema, v.sentimento).value else []
  {
    var info := w.video(c.videoId);
    var title := if info.Some? then info.value.title else NoTitle;
    var description := if info.Some? then info.value.description else NoDescription;
    var transcript := if w.modes.transcription && v.tema != GreetingTopic then w.transcript(c.videoId) else "";
    var answers := match w.pastAnswers(v.tema, v.sentimento) case Success(a) => a case Failure(_) => [];
    DraftRequest(v.sentimento == "negativo", c.textOriginal, title, description, transcript,
                 HistoryOrNone(db, w.formats, c.authorDisplayName), Roster.IsMember(w.members, c.authorChannelId), answers)
  }

  function DraftPrompt(q: DraftRequest): string {
    Prompts.SuggestPrompt(q.isNegative, q.comment, q.title, q.description, q.transcript, q.history, q.isMember, q.answers)
  }

  /** The world's classifier is `Llm.AnalyzeComment` over the model `ask` and the decoder `decode`. */
  ghost predicate ClassifierWired(w: World) {
    forall text :: w.classify(text) == Llm.AnalyzeComment(text, w.ask, w.decode)
  }

  /** The world's drafter is `Llm.SuggestAnswer` over the model `ask`. */
  ghost predicate DrafterWired(w: World) {
    forall q: DraftRequest :: w.draft(q) ==
      Llm.SuggestAnswer(q.isNegative, q.comment, q.title, q.description, q.transcript, q.history, q.isMember, q.answers, w.ask)
  }

  function Draft(w: World, q: DraftRequest): Result<string, string> {
    w.draft(q)
  }

  /**
   * A draft is only requested for comments not flagged negative, so the
   * loop always drafts with the positive template: the prompt opens with the
   * positive introduction, whose full stop after the shared opening sets it
   * apart from the negative one.
   */
  lemma OnlyPositiveTemplateUsed(w: World, db: Store.Db, c: Comment, v: Verdict)
    requires ShouldSuggest(w.modes, v)
    ensures !Request(w, db, c, v).isNegative
    ensures var r := DraftPrompt(Request(w, db, c, v));
            && HasPrefix(r, Prompts.PositiveIntro)
            && |Prompts.ChannelIntro| < |r| && r[|Prompts.ChannelIntro|] == '.'
  {
    PositiveDraftPrompt(Request(w, db, c, v));
  }

  /** A request not flagged negative is drafted from the positive template. */
  lemma PositiveDraftPrompt(q: DraftRequest)
    requires !q.isNegative
    ensures var r := DraftPrompt(q);
            && HasPrefix(r, Prompts.PositiveIntro)
            && |Prompts.ChannelIntro| < |r| && r[|Prompts.ChannelIntro|] == '.'
  {
    Prompts.SuggestPromptOpening(false, q.comment, q.title, q.description, q.transcript, q.history, q.isMember, q.answers);
    Prompts.PositivePromptStop(q.comment, q.title, q.description, q.transcript, q.history, q.isMember, q.answers);
  }

  /**
   * The transcript block is in the draft prompt exactly in transcription
   * mode, for a topic other than greetings, when the fetched transcript is
   * non-empty; it then holds that transcript.
   */
  lemma TranscriptInPromptIff(w: World, db: Store.Db, c: Comment, v: Verdict)
    ensures var q := Request(w, db, c, v);
            var blocks := Prompts.Plan(Prompts.Positive, q.comment, q.title, q.description, q.transcript, q.history, q.isMember, q.answers);
            && (Prompts.Transcript(q.transcript) in blocks <==>
                  w.modes.transcription && v.tema != GreetingTopic && w.transcript(c.videoId) != "")
            && (Prompts.Transcript(q.transcript) in blocks ==> q.transcript == w.transcript(c.videoId))
  {
    var q := Request(w, db, c, v);
    Prompts.PlanContents(Prompts.Positive, q.comment, q.title, q.description, q.transcript, q.history, q.isMember, q.answers);
  }

  /** The history block is in the draft prompt exactly when the store returned earlier comments of the author. */
  lemma HistoryInPromptIff(w: World, db: Store.Db, c: Comment, v: Verdict)
    ensures var q := Request(w, db, c, v);
            var blocks := Prompts.Plan(Prompts.Positive, q.comment, q.title, q.description, q.transcript, q.history, q.isMember, q.answers);
            (Prompts.History(q.history) in blocks <==>
               Store.GetLastComments(db, w.formats, c.authorDisplayName, HistoryLimit).Success? &&
               |Store.GetLastComments(db, w.formats, c.authorDisplayName, HistoryLimit).value| > 0)
  {
    var q := Request(w, db, c, v);
    Prompts.PlanContents(Prompts.Positive, q.comment, q.title, q.description, q.transcript, q.history, q.isMember, q.answers);
  }

  /** The session after one comment, how the comment ended, and whether a row was saved. */
  datatype Step = Step(session: Session, outcome: Outcome, saved: bool)

  /** The verdict, when the classifier returned one. */
  function Classify(w: World, c: Comment): Result<Verdict, string> {
    w.classify(c.textOriginal)
  }

  /** The save after a publish: a row is added only for a published reply, and a failed save leaves the store as it was. */
  function Settle(w: World, db: Store.Db, c: Comment, v: Verdict, outcome: Outcome, rest: seq<string>): (r: Step)
    ensures r.outcome == outcome && r.session.lines == rest
    ensures db.rows <= r.session.db.rows
    ensures Store.KeysUnique(db) ==> Store.KeysUnique(r.session.db)
    ensures r.saved ==> outcome.Published?
    ensures !r.saved ==> r.session.db == db
    ensures outcome.Published? ==>
              var saving := Store.SaveComment(db, w.formats, c, v.sentimento, v.nota, outcome.text, outcome.userAnswered, w.savedAt(c.id));
              (r.saved <==> saving.Success?) && (r.saved ==> saving == Success(r.session.db))
  {
    if outcome.Published? then
      match Store.SaveComment(db, w.formats, c, v.sentimento, v.nota, outcome.text, outcome.userAnswered, w.savedAt(c.id))
      case Success(db') => Step(Session(db', rest), outcome, true)
      case Failure(_) => Step(Session(db, rest), outcome, false)
    else Step(Session(db, rest), outcome, false)
  }

  /** A classified comment: draft when the verdict calls for it, decide, carry out the action, save. */
  function Handle(w: World, s: Session, c: Comment, v: Verdict): (r: Step)
    ensures !r.outcome.Exited?
    ensures s.db.rows <= r.session.db.rows
    ensures Store.KeysUnique(s.db) ==> Store.KeysUnique(r.session.db)
    ensures r.saved ==> r.outcome.Published?
    ensures !r.saved ==> r.session.db == s.db
    ensures r.outcome.Published? ==> w.publish(c.id, r.outcome.text)
    ensures r.outcome.Published? ==>
              var saving := Store.SaveComment(s.db, w.formats, c, v.sentimento, v.nota, r.outcome.text, r.outcome.userAnswered, w.savedAt(c.id));
              (r.saved <==> saving.Success?) && (r.saved ==> saving == Success(r.session.db))
    ensures r.outcome.Abandoned? <==>
              ShouldSuggest(w.modes, v) && var d := Draft(w, Request(w, s.db, c, v)); d.Failure? || d.value == ""
    ensures r.outcome.Published? && !r.outcome.userAnswered ==>
              ShouldSuggest(w.modes, v) && Draft(w, Request(w, s.db, c, v)).Success? &&
              Draft(w, Request(w, s.db, c, v)).value != "" && r.outcome.text == TrimSpace(Draft(w, Request(w, s.db, c, v)).value)
    ensures w.modes.manual && r.outcome.Published? ==> r.outcome.userAnswered
  {
    var draft := if ShouldSuggest(w.modes, v) then Draft(w, Request(w, s.db, c, v)) else Success("");
    var (choiceLine, afterChoice) := ReadLine(s.lines);
    var d := Decide(w.modes, v, draft, choiceLine);
    var (outcome, rest) := Dispatch(d.action, c.id, if d.prompted then afterChoice else s.lines, w.publish);
    Settle(w, s.db, c, v, outcome, rest)
  }

  /**
   * When the operator is asked, the line typed at the prompt picks the
   * outcome: "Q" quits, "S" publishes the trimmed draft, "E" reads the
   * reply from the next line and publishes it trimmed unless it is empty,
   * and anything else skips. The prompt line is consumed, and after "E"
   * the edit line too.
   */
  lemma PromptLineDecides(w: World, s: Session, c: Comment, v: Verdict)
    requires ShouldSuggest(w.modes, v)
    requires var d := Draft(w, Request(w, s.db, c, v)); d.Success? && d.value != "" && !AutoApproves(w.modes, v, d.value)
    ensures var r := Handle(w, s, c, v);
            var answer := TrimSpace(Draft(w, Request(w, s.db, c, v)).value);
            var (l, rest) := ReadLine(s.lines);
            var (e, afterEdit) := ReadLine(rest);
            && (Normalize(l) == "Q" ==> r.outcome == QuitRequested && r.session.lines == rest)
            && (Normalize(l) == "S" ==>
                  r.outcome == (if w.publish(c.id, answer) then Published(answer, false) else PublishFailed)
                  && r.session.lines == rest)
            && (Normalize(l) == "E" ==>
                  r.session.lines == afterEdit
                  && (r.outcome == EmptyEdit <==> TrimSpace(e) == "")
                  && (TrimSpace(e) != "" ==>
                        r.outcome == if w.publish(c.id, TrimSpace(e)) then Published(TrimSpace(e), true) else PublishFailed))
            && (Normalize(l) != "S" && Normalize(l) != "E" && Normalize(l) != "Q" ==>
                  r.outcome == Skipped && r.session.lines == rest)
  {
  }

  /**
   * With no draft requested (manual mode, or a negative or poorly scored
   * comment), nobody is asked: the next input line is the edited reply,
   * published trimmed unless it is empty, and it is the only line consumed.
   */
  lemma UnpromptedEditReadsNextLine(w: World, s: Session, c: Comment, v: Verdict)
    requires !ShouldSuggest(w.modes, v)
    ensures var r := Handle(w, s, c, v);
            var (e, rest) := ReadLine(s.lines);
            && r.session.lines == rest
            && (r.outcome == EmptyEdit <==> TrimSpace(e) == "")
            && (TrimSpace(e) != "" ==>
                  r.outcome == if w.publish(c.id, TrimSpace(e)) then Published(TrimSpace(e), true) else PublishFailed)
  {
  }

  /**
   * An abandoned comment and an auto-approved draft read no input line; the
   * auto-approved draft is published trimmed.
   */
  lemma UnpromptedDraftReadsNothing(w: World, s: Session, c: Comment, v: Verdict)
    requires ShouldSuggest(w.modes, v)
    requires var d := Draft(w, Request(w, s.db, c, v)); d.Failure? || d.value == "" || AutoApproves(w.modes, v, d.value)
    ensures var r := Handle(w, s, c, v);
            var d := Draft(w, Request(w, s.db, c, v));
            && r.session.lines == s.lines
            && (d.Failure? || d.value == "" ==> r.outcome == Abandoned)
            && (d.Success? && d.value != "" ==>
                  r.outcome == if w.publish(c.id, TrimSpace(d.value)) then Published(TrimSpace(d.value), false) else PublishFailed)
  {
  }

  /**
   * One unanswered comment: classify it (a failure exits the program) and
   * handle it with the verdict.
   */
  function ProcessComment(w: World, s: Session, c: Comment): (r: Step)
    ensures s.db.rows <= r.session.db.rows
    ensures Store.KeysUnique(s.db) ==> Store.KeysUnique(r.session.db)
    ensures r.outcome.Exited? <==> Classify(w, c).Failure?
    ensures r.outcome.Exited? ==> r.session == s && !r.saved
    ensures Classify(w, c).Success? ==> r == Handle(w, s, c, Classify(w, c).value)
  {
    match Classify(w, c)
    case Failure(e) => Step(s, Exited(e), false)
    case Success(v) => Handle(w, s, c, v)
  }

  /**
   * With the wired classifier, the program exits at a comment exactly when
   * the model call fails or its cleaned reply does not decode.
   */
  lemma ExitIffClassifierFails(w: World, s: Session, c: Comment)
    requires ClassifierWired(w)
    ensures var reply := w.ask(Prompts.AnalysisPrompt(c.textOriginal));
            ProcessComment(w, s, c).outcome.Exited? <==>
              reply.Transport? || w.decode(Llm.CleanJsonReply(reply.raw)).Failure?
  {
    assert Classify(w, c) == Llm.AnalyzeComment(c.textOriginal, w.ask, w.decode);
  }

  /** A draft from the wired drafter is the cleaned reply of the model to the draft prompt, and is already trimmed. */
  lemma DraftIsCleanedReply(w: World, q: DraftRequest)
    requires DrafterWired(w)
    ensures w.draft(q).Success? <==> w.ask(DraftPrompt(q)).Text?
    ensures w.draft(q).Success? ==>
              && w.draft(q).value == Llm.CleanSuggestion(w.ask(DraftPrompt(q)).raw)
              && TrimSpace(w.draft(q).value) == w.draft(q).value
  {
    if w.draft(q).Success? {
      TrimSpaceOfTrimmed(w.draft(q).value);
    }
  }

  /**
   * The reply published without editing is exactly the model's cleaned
   * reply to the draft prompt: trimming it again before publishing changes
   * nothing.
   */
  lemma PublishedDraftIsCleanedReply(w: World, s: Session, c: Comment, v: Verdict)
    requires DrafterWired(w)
    ensures var r := Handle(w, s, c, v);
            var q := Request(w, s.db, c, v);
            r.outcome.Published? && !r.outcome.userAnswered ==>
              && w.ask(DraftPrompt(q)).Text?
              && r.outcome.text == Llm.CleanSuggestion(w.ask(DraftPrompt(q)).raw)
  {
    DraftIsCleanedReply(w, Request(w, s.db, c, v));
  }

  /** Whether a thread still needs a reply from the channel `me`; both loops run this scan. */
  predicate Unanswered(me: string, t: Thread) {
    !AnsweredByMe(t.replies, me)
  }

  /** The comments of the threads that still need a reply from `me`, in page order. */
  function UnansweredComments(me: string, threads: seq<Thread>): (r: seq<Comment>)
    ensures |r| <= |threads|
    ensures |r| > 0 <==> exists i :: 0 <= i < |threads| && Unanswered(me, threads[i])
    decreases |threads|
  {
    if |threads| == 0 then []
    else
      assert forall i :: 1 <= i < |threads| ==> threads[i] == threads[1..][i - 1];
      (if Unanswered(me, threads[0]) then [threads[0].comment] else []) + UnansweredComments(me, threads[1..])
  }

  /** An unanswered first thread puts its comment first. */
  lemma UnansweredFirst(me: string, threads: seq<Thread>)
    requires |threads| > 0 && Unanswered(me, threads[0])
    ensures UnansweredComments(me, threads) == [threads[0].comment] + UnansweredComments(me, threads[1..])
  {
  }

  /** A "Q" at a comment and a classifier failure both end the program. */
  predicate Stops(o: Outcome) {
    o.QuitRequested? || o.Exited?
  }

  /**
   * The session after a page, whether it held an unanswered thread, the
   * outcome that ended the program, if any, and one step per comment
   * processed. Both loops use it, each with its own sessions `S` and steps `T`.
   */
  datatype PageResult<S, T> = PageResult(session: S, found: bool, stop: Option<Outcome>, steps: seq<T>)

  /** The session the `k`-th processed comment of a page starts from; `next` is the session a step leaves. */
  function Before<S, T>(next: T -> S, s: S, steps: seq<T>, k: nat): S
    requires k <= |steps|
  {
    if k == 0 then s else next(steps[k - 1])
  }

  /**
   * `steps` comes from applying `f` to a prefix of `u` in turn, each step
   * from the session the one before it left, the first from `s`.
   */
  ghost predicate Chain<S, C, T>(f: (S, C) -> T, next: T -> S, s: S, u: seq<C>, steps: seq<T>)
    decreases |steps|
  {
    |steps| == 0 || (|u| > 0 && steps[0] == f(s, u[0]) && Chain(f, next, next(steps[0]), u[1..], steps[1..]))
  }

  /** In a chain, the `k`-th step is `f` of the session before it and `u[k]`. */
  lemma {:induction false} ChainAt<S, C, T>(f: (S, C) -> T, next: T -> S, s: S, u: seq<C>, steps: seq<T>, k: nat)
    requires Chain(f, next, s, u, steps) && k < |steps|
    ensures |steps| <= |u| && steps[k] == f(Before(next, s, steps, k), u[k])
    decreases |steps|
  {
    if k > 0 {
      ChainAt(f, next, next(steps[0]), u[1..], steps[1..], k - 1);
      assert Before(next, next(steps[0]), steps[1..], k - 1) == Before(next, s, steps, k);
    } else if |steps| > 1 {
      ChainAt(f, next, next(steps[0]), u[1..], steps[1..], 0);
    }
  }

  /**
   * What a page does with the comments `u` of its unanswered threads, with
   * `f` processing one comment and `outcome` saying how a step ended: the
   * steps process a prefix of `u` in turn, each from the session the step
   * before it left; no step but the last ends the program; the page stops
   * exactly when its last step does, with that step's outcome; and a page
   * that does not stop processes all of `u`.
   */
  ghost predicate TraceOf<S, C, T>(f: (S, C) -> T, next: T -> S, outcome: T -> Outcome, s: S, u: seq<C>, r: PageResult<S, T>) {
    && Chain(f, next, s, u, r.steps)
    && (forall k :: 0 <= k < |r.steps| - 1 ==> !Stops(outcome(r.steps[k])))
    && r.session == Before(next, s, r.steps, |r.steps|)
    && (r.stop.Some? <==> 0 < |r.steps| && Stops(outcome(r.steps[|r.steps| - 1])))
    && (r.stop.Some? ==> r.stop.value == outcome(r.steps[|r.steps| - 1]))
    && (r.stop.None? ==> |r.steps| == |u|)
  }

  /** Passing over an answered first thread leaves the trace of the rest of the page. */
  lemma SkipTrace<S, T>(f: (S, Comment) -> T, next: T -> S, outcome: T -> Outcome, s: S, me: string, threads: seq<Thread>,
                        rest: PageResult<S, T>)
    requires |threads| > 0 && !Unanswered(me, threads[0])
    requires TraceOf(f, next, outcome, s, UnansweredComments(me, threads[1..]), rest)
    ensures TraceOf(f, next, outcome, s, UnansweredComments(me, threads), rest)
  {
    assert UnansweredComments(me, threads) == UnansweredComments(me, threads[1..]);
  }

  /** A page that stops at its first unanswered comment has that one step as its trace. */
  lemma StopTrace<S, C, T>(f: (S, C) -> T, next: T -> S, outcome: T -> Outcome, s: S, c: C, u: seq<C>, step: T)
    requires step == f(s, c) && Stops(outcome(step))
    ensures TraceOf(f, next, outcome, s, [c] + u, PageResult(next(step), true, Some(outcome(step)), [step]))
  {
    assert ([c] + u)[0] == c;
    assert Chain(f, next, next(step), ([c] + u)[1..], []);
  }

  /** A page whose first unanswered comment is processed without stopping continues with the trace of the rest. */
  lemma ConsTrace<S, C, T>(f: (S, C) -> T, next: T -> S, outcome: T -> Outcome, s: S, c: C, u: seq<C>, step: T,
                           rest: PageResult<S, T>)
    requires step == f(s, c) && !Stops(outcome(step))
    requires TraceOf(f, next, outcome, next(step), u, rest)
    ensures TraceOf(f, next, outcome, s, [c] + u, PageResult(rest.session, true, rest.stop, [step] + rest.steps))
  {
    assert ([c] + u)[1..] == u;
    assert ([step] + rest.steps)[1..] == rest.steps;
    var steps := [step] + rest.steps;
    forall k | 0 <= k < |steps| - 1
      ensures !Stops(outcome(steps[k]))
    {
      if k > 0 {
        assert steps[k] == rest.steps[k - 1];
      }
    }
    if |rest.steps| > 0 {
      assert steps[|steps| - 1] == rest.steps[|rest.steps| - 1];
    }
  }

  /** `ProcessComment` in world `w`, as a function of the session and the comment. */
  function Process(w: World): (Session, Comment) -> Step {
    (b: Session, c: Comment) => ProcessComment(w, b, c)
  }

  /** The session a step leaves. */
  function StepSession(t: Step): Session {
    t.session
  }

  /** How a step ended. */
  function StepOutcome(t: Step): Outcome {
    t.outcome
  }

  /** The trace of a page: its unanswered comments, each processed by `ProcessComment`. */
  ghost predicate PageTrace(w: World, s: Session, threads: seq<Thread>, r: PageResult<Session, Step>) {
    TraceOf(Process(w), StepSession, StepOutcome, s, UnansweredComments(w.me, threads), r)
  }

  /**
   * The loop over one page of threads: answered threads are passed over;
   * each unanswered one is processed, and a "Q" or a classifier failure ends
   * the program there.
   */
  function ProcessPage(w: World, s: Session, threads: seq<Thread>): (r: PageResult<Session, Step>)
    ensures r.found <==> exists i :: 0 <= i < |threads| && Unanswered(w.me, threads[i])
    ensures PageTrace(w, s, threads, r)
    ensures !r.found ==> r.session == s
    ensures s.db.rows <= r.session.db.rows
    ensures Store.KeysUnique(s.db) ==> Store.KeysUnique(r.session.db)
    decreases |threads|
  {
    if |threads| == 0 then PageResult(s, false, None, [])
    else
      assert forall i :: 1 <= i < |threads| ==> threads[i] == threads[1..][i - 1];
      if !Unanswered(w.me, threads[0]) then
        var rest := ProcessPage(w, s, threads[1..]);
        SkipTrace(Process(w), StepSession, StepOutcome, s, w.me, threads, rest);
        rest
      else
        var step := ProcessComment(w, s, threads[0].comment);
        if Stops(step.outcome) then
          StopPage(w, s, threads, step);
          PageResult(step.session, true, Some(step.outcome), [step])
        else
          var rest := ProcessPage(w, step.session, threads[1..]);
          ConsPage(w, s, threads, step, rest);
          PageResult(rest.session, true, rest.stop, [step] + rest.steps)
  }

  /** A page whose first unanswered comment stops the program has that one step as its trace. */
  lemma StopPage(w: World, s: Session, threads: seq<Thread>, step: Step)
    requires |threads| > 0 && Unanswered(w.me, threads[0])
    requires step == ProcessComment(w, s, threads[0].comment) && Stops(step.outcome)
    ensures PageTrace(w, s, threads, PageResult(step.session, true, Some(step.outcome), [step]))
  {
    UnansweredFirst(w.me, threads);
    StopTrace(Process(w), StepSession, StepOutcome, s, threads[0].comment, UnansweredComments(w.me, threads[1..]), step);
  }

  /** A page whose first unanswered comment does not stop the program continues with the trace of the rest. */
  lemma ConsPage(w: World, s: Session, threads: seq<Thread>, step: Step, rest: PageResult<Session, Step>)
    requires |threads| > 0 && Unanswered(w.me, threads[0])
    requires step == ProcessComment(w, s, threads[0].comment) && !Stops(step.outcome)
    requires PageTrace(w, step.session, threads[1..], rest)
    ensures PageTrace(w, s, threads, PageResult(rest.session, true, rest.stop, [step] + rest.steps))
  {
    UnansweredFirst(w.me, threads);
    ConsTrace(Process(w), StepSession, StepOutcome, s, threads[0].comment, UnansweredComments(w.me, threads[1..]), step, rest);
  }

  /** The `k`-th step of a page processes its `k`-th unanswered comment, from the session the step before it left. */
  lemma PageStep(w: World, s: Session, threads: seq<Thread>, k: nat)
    requires k < |ProcessPage(w, s, threads).steps|
    ensures var r := ProcessPage(w, s, threads);
            && k < |UnansweredComments(w.me, threads)|
            && r.steps[k] == ProcessComment(w, Before(StepSession, s, r.steps, k), UnansweredComments(w.me, threads)[k])
  {
    var r := ProcessPage(w, s, threads);
    ChainAt(Process(w), StepSession, s, UnansweredComments(w.me, threads), r.steps, k);
  }

  /**
   * The end of a page: with an unanswered thread found the loop goes on; with
   * none and no next page it ends; otherwise the operator is asked, and "Q"
   * ends it. The result says whether to stop, and the remaining input.
   */
  function PageEnd(found: bool, nextToken: string, lines: seq<string>): (r: (bool, seq<string>))
    ensures r.0 <==> !found && (nextToken == "" || Normalize(ReadLine(lines).0) == "Q")
    ensures r.1 == if !found && nextToken != "" then ReadLine(lines).1 else lines
  {
    if found then (false, lines)
    else if nextToken == "" then (true, lines)
    else
      var (line, rest) := ReadLine(lines);
      (Normalize(line) == "Q", rest)
  }

  /** One page of the threads list: the threads and the token of the next page ("" on the last). */
  datatype Page = Page(items: seq<Thread>, nextToken: string)

  /** Why the loop ended. */
  datatype Ending =
    | FetchFailed(message: string)  // the threads call failed
    | Stopped(outcome: Outcome)     // "Q" at a comment, or a classifier failure
    | AllAnswered                   // no unanswered thread and no next page
    | OperatorQuit                  // "Q" at the end of a page
    | OutOfResponses                // the scripted responses ran out

  /**
   * The final session, why the loop ended, the page token sent with each
   * threads call, and the session each call was made from.
   */
  datatype RunResult = RunResult(session: Session, ending: Ending, requested: seq<string>, starts: seq<Session>)

  /**
   * The first threads call carries `token`, each later call carries the
   * next-page token of the response before it, and there is at most one call
   * per response.
   */
  predicate TokensChained(token: string, fetches: seq<Result<Page, string>>, requested: seq<string>) {
    && |requested| <= |fetches|
    && (|fetches| > 0 ==> |requested| > 0 && requested[0] == token)
    && forall k :: 0 <= k < |requested| - 1 ==>
         fetches[k].Success? && requested[k + 1] == fetches[k].value.nextToken
  }

  /**
   * Where the loop goes after a page fetched from session `start`: the
   * session the next threads call is made from, or `None` when the program
   * ends at this page.
   */
  function NextStart(w: World, start: Session, page: Page): Option<Session> {
    var p := ProcessPage(w, start, page.items);
    if p.stop.Some? then None
    else
      var (stop, lines) := PageEnd(p.found, page.nextToken, p.session.lines);
      if stop then None else Some(Session(p.session.db, lines))
  }

  /**
   * How the response to the last threads call, made from session `start`,
   * ended the loop with `ending` and session `final`: a failed call ends it
   * with the call's error; a "Q" or a classifier failure on the page stops
   * it with that outcome; a page with no unanswered thread ends it when there
   * is no next page, and when the operator then types "Q"; otherwise the
   * responses ran out (`exhausted`).
   */
  predicate LastPageExplained(w: World, start: Session, f: Result<Page, string>, exhausted: bool, ending: Ending,
                              final: Session) {
    && (ending.FetchFailed? <==> f.Failure?)
    && (f.Failure? ==> ending == FetchFailed(f.error) && final == start)
    && (f.Success? ==>
          var p := ProcessPage(w, start, f.value.items);
          var (line, rest) := ReadLine(p.session.lines);
          && (ending.Stopped? <==> p.stop.Some?)
          && (p.stop.Some? ==> ending == Stopped(p.stop.value) && final == p.session)
          && (ending.AllAnswered? <==> p.stop.None? && !p.found && f.value.nextToken == "")
          && (ending.AllAnswered? ==> final == p.session)
          && (ending.OperatorQuit? <==> p.stop.None? && !p.found && f.value.nextToken != "" && Normalize(line) == "Q")
          && (ending.OperatorQuit? ==> final == Session(p.session.db, rest))
          && (ending.OutOfResponses? <==>
                p.stop.None? && (p.found || (f.value.nextToken != "" && Normalize(line) != "Q")))
          && (ending.OutOfResponses? ==> exhausted && final == Session(p.session.db, if p.found then p.session.lines else rest)))
  }

  /**
   * How the responses to the threads calls made from the sessions `starts`
   * ended the loop with `ending` and session `final`: the first call is made
   * from `s`, each page but the last leads on to the session the next call
   * is made from, and the last response explains the ending.
   */
  predicate Explained(w: World, s: Session, fetches: seq<Result<Page, string>>, starts: seq<Session>, ending: Ending,
                      final: Session)
    decreases |starts|
  {
    && 0 < |starts| <= |fetches| && starts[0] == s
    && if |starts| == 1 then LastPageExplained(w, s, fetches[0], |fetches| == 1, ending, final)
       else
         && fetches[0].Success? && NextStart(w, s, fetches[0].value) == Some(starts[1])
         && Explained(w, starts[1], fetches[1..], starts[1..], ending, final)
  }

  /** The calls from the `k`-th on explain the ending in the same way, starting from the `k`-th session. */
  lemma {:induction false} ExplainedFrom(w: World, s: Session, fetches: seq<Result<Page, string>>, starts: seq<Session>,
                                         ending: Ending, final: Session, k: nat)
    requires Explained(w, s, fetches, starts, ending, final) && k < |starts|
    ensures |starts| <= |fetches|
    ensures Explained(w, starts[k], fetches[k..], starts[k..], ending, final)
    decreases k
  {
    if k > 0 {
      ExplainedFrom(w, starts[1], fetches[1..], starts[1..], ending, final, k - 1);
      assert starts[1..][k - 1] == starts[k] && fetches[1..][k - 1..] == fetches[k..] && starts[1..][k - 1..] == starts[k..];
    }
  }

  /** Read call by call: the `k`-th page leads on to the session of the next call, and the last explains the ending. */
  lemma ExplainedAt(w: World, s: Session, fetches: seq<Result<Page, string>>, starts: seq<Session>,
                    ending: Ending, final: Session, k: nat)
    requires Explained(w, s, fetches, starts, ending, final) && k < |starts|
    ensures |starts| <= |fetches| && starts[0] == s
    ensures k < |starts| - 1 ==> fetches[k].Success? && NextStart(w, starts[k], fetches[k].value) == Some(starts[k + 1])
    ensures k == |starts| - 1 ==> LastPageExplained(w, starts[k], fetches[k], |starts| == |fetches|, ending, final)
  {
    ExplainedFrom(w, s, fetches, starts, ending, final, k);
    var f := fetches[k..];
    var t := starts[k..];
    assert f[0] == fetches[k] && t[0] == starts[k];
    if k < |starts| - 1 {
      assert t[1] == starts[k + 1];
    }
  }

  /**
   * The run's calls, one per session in `starts`, explain its ending; with
   * no response at all, nothing happens.
   */
  predicate EndingExplained(w: World, s: Session, fetches: seq<Result<Page, string>>, r: RunResult) {
    && |r.starts| == |r.requested|
    && (|r.starts| == 0 ==> |fetches| == 0 && r.ending.OutOfResponses? && r.session == s)
    && (|r.starts| > 0 ==> Explained(w, s, fetches, r.starts, r.ending, r.session))
  }

  /**
   * The endless loop of `main`, over the responses the threads call returns
   * in turn (`fetches`): each response is processed as a page and the next
   * call asks for the page it points to.
   */
  function Run(w: World, s: Session, token: string, fetches: seq<Result<Page, string>>): (r: RunResult)
    ensures TokensChained(token, fetches, r.requested)
    ensures EndingExplained(w, s, fetches, r)
    ensures s.db.rows <= r.session.db.rows
    ensures Store.KeysUnique(s.db) ==> Store.KeysUnique(r.session.db)
    decreases |fetches|
  {
    if |fetches| == 0 then RunResult(s, OutOfResponses, [], [])
    else
      match fetches[0]
      case Failure(e) => RunResult(s, FetchFailed(e), [token], [s])
      case Success(page) =>
        var p := ProcessPage(w, s, page.items);
        if p.stop.Some? then RunResult(p.session, Stopped(p.stop.value), [token], [s])
        else
          var (stop, lines) := PageEnd(p.found, page.nextToken, p.session.lines);
          var s' := Session(p.session.db, lines);
          if stop then RunResult(s', if page.nextToken == "" then AllAnswered else OperatorQuit, [token], [s])
          else
            var rest := Run(w, s', page.nextToken, fetches[1..]);
            ConsRun(w, s, token, fetches, s', rest);
            RunResult(rest.session, rest.ending, [token] + rest.requested, [s] + rest.starts)
  }

  /**
   * A run that ends, as `Run` explains its ending, with the operator's "Q"
   * at a page end had fetched a last page with no unanswered thread and a
   * next page to go to, and the line the operator typed there reads "Q" once
   * upper-cased and trimmed.
   */
  lemma OperatorQuitMeansQ(w: World, s: Session, fetches: seq<Result<Page, string>>, r: RunResult)
    requires EndingExplained(w, s, fetches, r) && r.ending.OperatorQuit?
    ensures var n := |r.starts|;
            && 0 < n <= |fetches| && n == |r.requested| && fetches[n - 1].Success?
            && var page := fetches[n - 1].value;
               var p := ProcessPage(w, r.starts[n - 1], page.items);
               && p.stop.None?
               && (forall i :: 0 <= i < |page.items| ==> !Unanswered(w.me, page.items[i]))
               && page.nextToken != ""
               && Normalize(ReadLine(p.session.lines).0) == "Q"
  {
    ExplainedAt(w, s, fetches, r.starts, r.ending, r.session, |r.starts| - 1);
  }

  /** A run whose first page leads on to session `s'` continues with the run from there. */
  lemma {:induction false} ConsRun(w: World, s: Session, token: string, fetches: seq<Result<Page, string>>, s': Session,
                                   rest: RunResult)
    requires |fetches| > 0 && fetches[0].Success? && NextStart(w, s, fetches[0].value) == Some(s')
    requires TokensChained(fetches[0].value.nextToken, fetches[1..], rest.requested)
    requires EndingExplained(w, s', fetches[1..], rest)
    ensures var r := RunResult(rest.session, rest.ending, [token] + rest.requested, [s] + rest.starts);
            TokensChained(token, fetches, r.requested) && EndingExplained(w, s, fetches, r)
  {
    var r := RunResult(rest.session, rest.ending, [token] + rest.requested, [s] + rest.starts);
    assert r.starts[1..] == rest.starts;
    if |rest.starts| == 0 {
      assert LastPageExplained(w, s, fetches[0], |fetches| == 1, r.ending, r.session);
    } else {
      assert r.starts[1] == s';
    }
    var n := |r.requested|;
    forall k | 0 <= k < n - 1
      ensures fetches[k].Success? && r.requested[k + 1] == fetches[k].value.nextToken
    {
      if k > 0 {
        assert fetches[k] == fetches[1..][k - 1] && r.requested[k + 1] == rest.requested[k];
      }
    }
  }

  /**
   * The program after its setup screen: the operator presses Enter once
   * before the first fetch, and the first threads call carries no page token.
   */
  function Start(w: World, db: Store.Db, lines: seq<string>, fetches: seq<Result<Page, string>>): (r: RunResult)
    ensures |fetches| > 0 ==> |r.requested| > 0 && r.requested[0] == ""
    ensures Store.KeysUnique(db) ==> Store.KeysUnique(r.session.db)
  {
    Run(w, Session(db, ReadLine(lines).1), "", fetches)
  }

  /** Whatever is typed before the first fetch is read and thrown away. */
  lemma StartIgnoresFirstLine(w: World, db: Store.Db, first1: string, first2: string, lines: seq<string>,
                              fetches: seq<Result<Page, string>>)
    ensures Start(w, db, [first1] + lines, fetches) == Start(w, db, [first2] + lines, fetches)
  {
    assert ([first1] + lines)[1..] == lines == ([first2] + lines)[1..];
  }
}
