/**
 * The reply loop of the first version of the program (`main.go` at the top
 * of the repository). It differs from `cmd/answer-comments` in what it
 * observably does: there are no mode flags, a positive comment scored 4 or
 * more is published without asking, nothing is stored, and every handled
 * comment is appended to a semicolon-separated log. The services, the
 * clock and the log file's opening are oracles in a `World`.
 */
module LegacyTriage {
  import opened Wrappers
  import opened GoStrings
  import opened Models
  import Decimal
  import Triage

  /** The arguments the loop passes to the drafter. */
  datatype DraftRequest = DraftRequest(isNegative: bool, comment: string, title: string, description: string)

  /**
   * Everything outside the loop: the authenticated channel, the services,
   * `shownTime` (the publication time as printed, "02/01/2006 às 15:04" in
   * the BRT zone), `logOpens` (whether the log file opens for a comment) and
   * `stamp` (the date and time `log.LstdFlags` puts before each log line).
   */
  datatype World = World(
    me: string,
    video: string -> Option<Triage.VideoInfo>,
    classify: string -> Result<Verdict, string>,
    draft: DraftRequest -> Result<string, string>,
    publish: (string, string) -> bool,
    shownTime: string -> string,
    logOpens: string -> bool,
    stamp: string -> string)

  /** The log file's lines and the operator's remaining input lines. */
  datatype Session = Session(log: seq<string>, lines: seq<string>)

  /** A draft is requested for a comment that is not negative and scored at least 3; there is no manual mode. */
  predicate ShouldSuggest(v: Verdict) {
    v.sentimento != "negativo" && v.nota >= 3
  }

  /** The auto-reply condition, with no flag to switch it off. */
  predicate AutoApproves(v: Verdict, suggested: string) {
    suggested != "" && v.sentimento == "positivo" && v.nota >= 4
  }

  /**
   * What to do with a comment, whether the operator was asked, and `answer`:
   * the trimmed draft shown to the operator, which is the logged answer
   * unless the action is an edit (an edit logs the trimmed edit line).
   */
  datatype Decision = Decision(action: Triage.Action, answer: string, prompted: bool)

  /**
   * The decision part of the loop, in the shape of the Go code: an empty or
   * failed draft abandons the comment, the auto condition presets "S", the
   * operator is asked when nothing is preset, and a comment for which no
   * draft was requested goes to "E".
   */
  function Decide(v: Verdict, draft: Result<string, string>, choiceLine: string): (d: Decision)
    ensures !ShouldSuggest(v) ==> d == Decision(Triage.Edit, "", false)
    ensures d.action == Triage.Abandon <==> ShouldSuggest(v) && (draft.Failure? || draft.value == "")
    ensures ShouldSuggest(v) && draft.Success? && AutoApproves(v, draft.value) ==>
              d == Decision(Triage.Publish(TrimSpace(draft.value)), TrimSpace(draft.value), false)
    ensures d.prompted <==> ShouldSuggest(v) && draft.Success? && draft.value != "" && !AutoApproves(v, draft.value)
    ensures d.prompted ==>
              d.answer == TrimSpace(draft.value) && d.action == Triage.Choose(Triage.Normalize(choiceLine), d.answer)
    ensures d.action.Publish? ==>
              ShouldSuggest(v) && draft.Success? && draft.value != "" && d.action.text == d.answer == TrimSpace(draft.value)
  {
    if ShouldSuggest(v) then
      var suggested := if draft.Success? then draft.value else "";
      if suggested == "" || draft.Failure? then Decision(Triage.Abandon, "", false)
      else
        var answer := TrimSpace(suggested);
        var input := if AutoApproves(v, suggested) then "S" else "";
        var prompted := input == "";
        var input' := if prompted then Triage.Normalize(choiceLine) else input;
        Decision(Triage.Choose(input', answer), answer, prompted)
    else
      Decision(Triage.Choose("E", ""), "", false)
  }

  /**
   * The legacy decision is the canonical one with manual mode off and auto
   * mode on: the same action, and the operator asked in the same cases.
   */
  lemma LegacyIsCanonicalAuto(v: Verdict, draft: Result<string, string>, choiceLine: string, transcription: bool)
    ensures var d := Decide(v, draft, choiceLine);
            var c := Triage.Decide(Triage.Modes(false, true, transcription), v, draft, choiceLine);
            d.action == c.action && d.prompted == c.prompted
  {
  }

  /** Where the canonical loop without auto mode asks the operator, the legacy loop publishes the draft unasked. */
  lemma LegacyPublishesUnasked(v: Verdict, draft: Result<string, string>, choiceLine: string, transcription: bool)
    requires ShouldSuggest(v) && draft.Success? && AutoApproves(v, draft.value)
    ensures Decide(v, draft, choiceLine).action == Triage.Publish(TrimSpace(draft.value))
    ensures Triage.Decide(Triage.Modes(false, false, transcription), v, draft, choiceLine).prompted
  {
  }

  /** `strings.ReplaceAll(s, ";", ",")`: the author's name loses its semicolons and keeps everything else. */
  function Sanitize(s: string): (r: string)
    ensures |r| == |s| && ';' !in r
    ensures forall i :: 0 <= i < |s| ==> r[i] == if s[i] == ';' then ',' else s[i]
  {
    ReplaceChar(s, ';', ',')
  }

  /** The semicolon and then the line-break replacement applied to the comment text and the answer. */
  function Flatten(s: string): (r: string)
    ensures |r| == |s| && ';' !in r && '\n' !in r
    ensures forall i :: 0 <= i < |s| ==> r[i] == if s[i] == ';' then ',' else if s[i] == '\n' then ' ' else s[i]
  {
    ReplaceChar(ReplaceChar(s, ';', ','), '\n', ' ')
  }

  /** The five fields of a log record, as written. */
  function LogFields(author: string, when: string, text: string, nota: int, answer: string): seq<string> {
    [Sanitize(author), when, Flatten(text), Decimal.IntToString(nota), Flatten(answer)]
  }

  /**
   * The record `addToLog` formats: the fields separated by semicolons. The
   * text and the answer lose their line breaks, so the record stays on one
   * line unless the author's name or the date holds one.
   */
  function LogRecord(author: string, when: string, text: string, nota: int, answer: string): (r: string)
    ensures '\n' !in author && '\n' !in when ==> '\n' !in r
  {
    var fields := LogFields(author, when, text, nota, answer);
    if '\n' !in author && '\n' !in when then
      var n := Decimal.IntToString(nota);
      assert '\n' !in n by {
        forall i | 0 <= i < |n| ensures n[i] != '\n' {
          assert Decimal.IsDigit(n[i]) || n[i] == '-';
        }
      }
      assert '\n' !in Sanitize(author);
      assert forall k :: 0 <= k < |fields| ==> '\n' !in fields[k];
      JoinAbsent(fields, ';', '\n');
      Join(fields, ';')
    else
      Join(fields, ';')
  }

  /**
   * The line the logger writes: its date-time stamp, the record and one line
   * break. With no line break in the stamp, the author's name or the date,
   * that final break is the only one: one comment, one log line.
   */
  function LogLine(stamp: string, author: string, when: string, text: string, nota: int, answer: string): (r: string)
    ensures HasPrefix(r, stamp) && |r| > 0 && r[|r| - 1] == '\n'
    ensures '\n' !in stamp && '\n' !in author && '\n' !in when ==> Count(r, '\n') == 1
  {
    var record := LogRecord(author, when, text, nota, answer);
    if '\n' !in stamp && '\n' !in author && '\n' !in when then
      CountConcat(stamp + record, "\n", '\n');
      CountConcat(stamp, record, '\n');
      CountAbsent(stamp, '\n');
      CountAbsent(record, '\n');
      assert Count("\n", '\n') == 1 by { assert "\n"[1..] == ""; }
      stamp + record + "\n"
    else
      stamp + record + "\n"
  }

  /**
   * Whatever the author, text and answer hold, a record has exactly four
   * separators, and splitting it at them gives the five fields back, the
   * score readable as the number logged.
   */
  lemma LogRecordFields(author: string, when: string, text: string, nota: int, answer: string)
    requires ';' !in when
    ensures var fields := LogFields(author, when, text, nota, answer);
            && Count(LogRecord(author, when, text, nota, answer), ';') == 4
            && Split(LogRecord(author, when, text, nota, answer), ';') == fields
            && Decimal.ParseInt(fields[3]) == nota
  {
    var fields := LogFields(author, when, text, nota, answer);
    var n := Decimal.IntToString(nota);
    assert ';' !in n by {
      forall i | 0 <= i < |n| ensures n[i] != ';' {
        assert Decimal.IsDigit(n[i]) || n[i] == '-';
      }
    }
    assert forall k :: 0 <= k < |fields| ==> ';' !in fields[k];
    CountJoin(fields, ';');
    SplitJoin(fields, ';');
    Decimal.IntToStringRoundTrip(nota);
  }

  /** The drafter's arguments for a classified comment: the video's title and description, or the placeholders. */
  function Request(w: World, c: Comment, v: Verdict): (q: DraftRequest)
    ensures q.isNegative <==> v.sentimento == "negativo"
    ensures q.comment == c.textOriginal
    ensures w.video(c.videoId).Some? ==>
              q.title == w.video(c.videoId).value.title && q.description == w.video(c.videoId).value.description
    ensures w.video(c.videoId).None? ==> q.title == Triage.NoTitle && q.description == Triage.NoDescription
  {
    var info := w.video(c.videoId);
    var title := if info.Some? then info.value.title else Triage.NoTitle;
    var description := if info.Some? then info.value.description else Triage.NoDescription;
    DraftRequest(v.sentimento == "negativo", c.textOriginal, title, description)
  }

  /** The draft the loop works with: the drafter's reply when one is requested, none otherwise. */
  function DraftFor(w: World, c: Comment, v: Verdict): Result<string, string> {
    if ShouldSuggest(v) then w.draft(Request(w, c, v)) else Success("")
  }

  /** The session after a comment, how the comment ended, and the answer logged for it, if a line was written. */
  datatype Step = Step(session: Session, outcome: Triage.Outcome, logged: Option<string>)

  /**
   * One unanswered comment: classify it (a failure exits the program), draft,
   * decide, carry out the action, and log. An abandoned comment and a "Q"
   * leave the loop body before the log is written.
   */
  function ProcessComment(w: World, s: Session, c: Comment): (r: Step)
    ensures r.outcome.Exited? <==> w.classify(c.textOriginal).Failure?
    ensures r.outcome.Exited? ==> r.session == s
    ensures r.logged.None? ==> r.session.log == s.log
    ensures r.logged.Some? <==>
              w.logOpens(c.id) && !r.outcome.Exited? && !r.outcome.Abandoned? && !r.outcome.QuitRequested?
    ensures r.logged.Some? ==>
              r.session.log == s.log + [LogLine(w.stamp(c.id), c.authorDisplayName, w.shownTime(c.publishedAt),
                                                c.textOriginal, w.classify(c.textOriginal).value.nota, r.logged.value)]
    ensures r.outcome.Abandoned? <==>
              w.classify(c.textOriginal).Success? && var v := w.classify(c.textOriginal).value;
              ShouldSuggest(v) && (DraftFor(w, c, v).Failure? || DraftFor(w, c, v).value == "")
    ensures r.outcome.Published? ==> w.publish(c.id, r.outcome.text)
    ensures r.outcome.Published? && r.logged.Some? ==> r.logged.value == r.outcome.text
    ensures r.outcome.EmptyEdit? && r.logged.Some? ==> r.logged.value == ""
    ensures r.outcome.Published? && !r.outcome.userAnswered ==>
              var v := w.classify(c.textOriginal).value;
              ShouldSuggest(v) && DraftFor(w, c, v).Success? && r.outcome.text == TrimSpace(DraftFor(w, c, v).value)
    ensures r.outcome.Skipped? && r.logged.Some? ==>
              r.logged.value == TrimSpace(DraftFor(w, c, w.classify(c.textOriginal).value).value)
    ensures r.outcome.PublishFailed? && r.logged.Some? ==> !w.publish(c.id, r.logged.value)
  {
    match w.classify(c.textOriginal)
    case Failure(e) => Step(s, Triage.Exited(e), None)
    case Success(v) =>
      var draft := DraftFor(w, c, v);
      var (choiceLine, afterChoice) := Triage.ReadLine(s.lines);
      var d := Decide(v, draft, choiceLine);
      if d.action.Abandon? then Step(s, Triage.Abandoned, None)
      else
        var lines := if d.prompted then afterChoice else s.lines;
        var (outcome, rest) := Triage.Dispatch(d.action, c.id, lines, w.publish);
        if outcome.QuitRequested? || !w.logOpens(c.id) then Step(Session(s.log, rest), outcome, None)
        else
          var answer := if d.action.Edit? then TrimSpace(Triage.ReadLine(lines).0) else d.answer;
          var line := LogLine(w.stamp(c.id), c.authorDisplayName, w.shownTime(c.publishedAt), c.textOriginal, v.nota, answer);
          Step(Session(s.log + [line], rest), outcome, Some(answer))
  }

  /**
   * When the operator is asked, the line typed at the prompt picks the
   * outcome, as in the current program; the log line then carries the
   * trimmed draft, except after "E", where it carries the trimmed edit line.
   */
  lemma PromptLineDecides(w: World, s: Session, c: Comment, v: Verdict)
    requires w.classify(c.textOriginal) == Success(v)
    requires ShouldSuggest(v)
    requires var d := DraftFor(w, c, v); d.Success? && d.value != "" && !AutoApproves(v, d.value)
    ensures var r := ProcessComment(w, s, c);
            var answer := TrimSpace(DraftFor(w, c, v).value);
            var (l, rest) := Triage.ReadLine(s.lines);
            var (e, afterEdit) := Triage.ReadLine(rest);
            && (Triage.Normalize(l) == "Q" ==> r.outcome == Triage.QuitRequested && r.session.lines == rest && r.logged.None?)
            && (Triage.Normalize(l) == "S" ==>
                  r.outcome == (if w.publish(c.id, answer) then Triage.Published(answer, false) else Triage.PublishFailed)
                  && r.session.lines == rest && (r.logged.Some? ==> r.logged.value == answer))
            && (Triage.Normalize(l) == "E" ==>
                  r.session.lines == afterEdit
                  && (r.outcome == Triage.EmptyEdit <==> TrimSpace(e) == "")
                  && (TrimSpace(e) != "" ==>
                        r.outcome == if w.publish(c.id, TrimSpace(e)) then Triage.Published(TrimSpace(e), true) else Triage.PublishFailed)
                  && (r.logged.Some? ==> r.logged.value == TrimSpace(e)))
            && (Triage.Normalize(l) != "S" && Triage.Normalize(l) != "E" && Triage.Normalize(l) != "Q" ==>
                  r.outcome == Triage.Skipped && r.session.lines == rest && (r.logged.Some? ==> r.logged.value == answer))
  {
  }

  /**
   * With no draft requested, nobody is asked: the next input line is the
   * edited reply, published trimmed unless it is empty, logged trimmed, and
   * the only line consumed.
   */
  lemma UnpromptedEditReadsNextLine(w: World, s: Session, c: Comment, v: Verdict)
    requires w.classify(c.textOriginal) == Success(v)
    requires !ShouldSuggest(v)
    ensures var r := ProcessComment(w, s, c);
            var (e, rest) := Triage.ReadLine(s.lines);
            && r.session.lines == rest
            && (r.outcome == Triage.EmptyEdit <==> TrimSpace(e) == "")
            && (TrimSpace(e) != "" ==>
                  r.outcome == if w.publish(c.id, TrimSpace(e)) then Triage.Published(TrimSpace(e), true) else Triage.PublishFailed)
            && (r.logged.Some? ==> r.logged.value == TrimSpace(e))
  {
  }

  /**
   * An abandoned comment and an auto-approved draft read no input line; the
   * auto-approved draft is published and logged trimmed.
   */
  lemma UnpromptedDraftReadsNothing(w: World, s: Session, c: Comment, v: Verdict)
    requires w.classify(c.textOriginal) == Success(v)
    requires ShouldSuggest(v)
    requires var d := DraftFor(w, c, v); d.Failure? || d.value == "" || AutoApproves(v, d.value)
    ensures var r := ProcessComment(w, s, c);
            var d := DraftFor(w, c, v);
            && r.session.lines == s.lines
            && (d.Failure? || d.value == "" ==> r.outcome == Triage.Abandoned)
            && (d.Success? && d.value != "" ==>
                  r.outcome == (if w.publish(c.id, TrimSpace(d.value)) then Triage.Published(TrimSpace(d.value), false) else Triage.PublishFailed)
                  && (r.logged.Some? ==> r.logged.value == TrimSpace(d.value)))
  {
  }

  /**
   * A draft of white space alone is not empty, so it is offered, and "S"
   * publishes and logs the empty trimmed text; when that publish fails the
   * empty text is what the log line carries.
   */
  lemma BlankDraftLogsEmptyAnswer(w: World, s: Session, c: Comment, v: Verdict)
    requires w.classify(c.textOriginal) == Success(v)
    requires ShouldSuggest(v)
    requires var d := DraftFor(w, c, v); d.Success? && d.value != "" && AllSpace(d.value) && !AutoApproves(v, d.value)
    requires Triage.Normalize(Triage.ReadLine(s.lines).0) == "S" && w.logOpens(c.id) && !w.publish(c.id, "")
    ensures ProcessComment(w, s, c).outcome == Triage.PublishFailed
    ensures ProcessComment(w, s, c).logged == Some("")
  {
    var blank := DraftFor(w, c, v).value;
    assert TrimSpace(blank) == "" by {
      assert blank + "" + "" == blank;
      TrimSpaceOfPadded(blank, "", "");
    }
    PromptLineDecides(w, s, c, v);
  }

  /** `ProcessComment` in world `w`, as a function of the session and the comment. */
  function Process(w: World): (Session, Comment) -> Step {
    (b: Session, c: Comment) => ProcessComment(w, b, c)
  }

  /** The session a step leaves. */
  function StepSession(t: Step): Session {
    t.session
  }

  /** How a step ended. */
  function StepOutcome(t: Step): Triage.Outcome {
    t.outcome
  }

  /**
   * The trace of a page: the comments of its threads with no reply from the
   * channel (the same scan as the current program's), each processed by
   * `ProcessComment`.
   */
  ghost predicate PageTrace(w: World, s: Session, threads: seq<Thread>, r: Triage.PageResult<Session, Step>) {
    Triage.TraceOf(Process(w), StepSession, StepOutcome, s, Triage.UnansweredComments(w.me, threads), r)
  }

  /**
   * The loop over one page: answered threads are passed over; each
   * unanswered one is processed, and a "Q" or a classifier failure ends the
   * program there. The log only grows.
   */
  function ProcessPage(w: World, s: Session, threads: seq<Thread>): (r: Triage.PageResult<Session, Step>)
    ensures r.found <==> exists i :: 0 <= i < |threads| && Triage.Unanswered(w.me, threads[i])
    ensures PageTrace(w, s, threads, r)
    ensures !r.found ==> r.session == s
    ensures s.log <= r.session.log
    decreases |threads|
  {
    if |threads| == 0 then Triage.PageResult(s, false, None, [])
    else
      assert forall i :: 1 <= i < |threads| ==> threads[i] == threads[1..][i - 1];
      if !Triage.Unanswered(w.me, threads[0]) then
        var rest := ProcessPage(w, s, threads[1..]);
        Triage.SkipTrace(Process(w), StepSession, StepOutcome, s, w.me, threads, rest);
        rest
      else
        var step := ProcessComment(w, s, threads[0].comment);
        if Triage.Stops(step.outcome) then
          StopPage(w, s, threads, step);
          Triage.PageResult(step.session, true, Some(step.outcome), [step])
        else
          var rest := ProcessPage(w, step.session, threads[1..]);
          ConsPage(w, s, threads, step, rest);
          Triage.PageResult(rest.session, true, rest.stop, [step] + rest.steps)
  }

  /** A page whose first unanswered comment stops the program has that one step as its trace. */
  lemma StopPage(w: World, s: Session, threads: seq<Thread>, step: Step)
    requires |threads| > 0 && Triage.Unanswered(w.me, threads[0])
    requires step == ProcessComment(w, s, threads[0].comment) && Triage.Stops(step.outcome)
    ensures PageTrace(w, s, threads, Triage.PageResult(step.session, true, Some(step.outcome), [step]))
  {
    Triage.UnansweredFirst(w.me, threads);
    Triage.StopTrace(Process(w), StepSession, StepOutcome, s, threads[0].comment,
                     Triage.UnansweredComments(w.me, threads[1..]), step);
  }

  /** A page whose first unanswered comment does not stop the program continues with the trace of the rest. */
  lemma ConsPage(w: World, s: Session, threads: seq<Thread>, step: Step, rest: Triage.PageResult<Session, Step>)
    requires |threads| > 0 && Triage.Unanswered(w.me, threads[0])
    requires step == ProcessComment(w, s, threads[0].comment) && !Triage.Stops(step.outcome)
    requires PageTrace(w, step.session, threads[1..], rest)
    ensures PageTrace(w, s, threads, Triage.PageResult(rest.session, true, rest.stop, [step] + rest.steps))
  {
    Triage.UnansweredFirst(w.me, threads);
    Triage.ConsTrace(Process(w), StepSession, StepOutcome, s, threads[0].comment,
                     Triage.UnansweredComments(w.me, threads[1..]), step, rest);
  }

  /** The `k`-th step of a page processes its `k`-th unanswered comment, from the session the step before it left. */
  lemma PageStep(w: World, s: Session, threads: seq<Thread>, k: nat)
    requires k < |ProcessPage(w, s, threads).steps|
    ensures var r := ProcessPage(w, s, threads);
            && k < |Triage.UnansweredComments(w.me, threads)|
            && r.steps[k] == ProcessComment(w, Triage.Before(StepSession, s, r.steps, k), Triage.UnansweredComments(w.me, threads)[k])
  {
    var r := ProcessPage(w, s, threads);
    Triage.ChainAt(Process(w), StepSession, s, Triage.UnansweredComments(w.me, threads), r.steps, k);
  }

  /**
   * The final session, why the loop ended, the page token sent with each
   * threads call, and the session each call was made from.
   */
  datatype RunResult = RunResult(session: Session, ending: Triage.Ending, requested: seq<string>, starts: seq<Session>)

  /**
   * Where the loop goes after a page fetched from session `start`: the
   * session the next threads call is made from, or `None` when the program
   * ends at this page.
   */
  function NextStart(w: World, start: Session, page: Triage.Page): Option<Session> {
    var p := ProcessPage(w, start, page.items);
    if p.stop.Some? then None
    else
      var (stop, lines) := Triage.PageEnd(p.found, page.nextToken, p.session.lines);
      if stop then None else Some(Session(p.session.log, lines))
  }

  /**
   * How the response to the last threads call, made from session `start`,
   * ended the loop with `ending` and session `final`: a failed call ends it
   * with the call's error; a "Q" or a classifier failure on the page stops
   * it with that outcome; a page with no unanswered thread ends it when there
   * is no next page, and when the operator then types "Q"; otherwise the
   * responses ran out (`exhausted`).
   */
  predicate LastPageExplained(w: World, start: Session, f: Result<Triage.Page, string>, exhausted: bool,
                              ending: Triage.Ending, final: Session) {
    && (ending.FetchFailed? <==> f.Failure?)
    && (f.Failure? ==> ending == Triage.FetchFailed(f.error) && final == start)
    && (f.Success? ==>
          var p := ProcessPage(w, start, f.value.items);
          var (line, rest) := Triage.ReadLine(p.session.lines);
          && (ending.Stopped? <==> p.stop.Some?)
          && (p.stop.Some? ==> ending == Triage.Stopped(p.stop.value) && final == p.session)
          && (ending.AllAnswered? <==> p.stop.None? && !p.found && f.value.nextToken == "")
          && (ending.AllAnswered? ==> final == p.session)
          && (ending.OperatorQuit? <==>
                p.stop.None? && !p.found && f.value.nextToken != "" && Triage.Normalize(line) == "Q")
          && (ending.OperatorQuit? ==> final == Session(p.session.log, rest))
          && (ending.OutOfResponses? <==>
                p.stop.None? && (p.found || (f.value.nextToken != "" && Triage.Normalize(line) != "Q")))
          && (ending.OutOfResponses? ==>
                exhausted && final == Session(p.session.log, if p.found then p.session.lines else rest)))
  }

  /**
   * How the responses to the threads calls made from the sessions `starts`
   * ended the loop with `ending` and session `final`: the first call is made
   * from `s`, each page but the last leads on to the session the next call
   * is made from, and the last response explains the ending.
   */
  predicate Explained(w: World, s: Session, fetches: seq<Result<Triage.Page, string>>, starts: seq<Session>,
                      ending: Triage.Ending, final: Session)
    decreases |starts|
  {
    && 0 < |starts| <= |fetches| && starts[0] == s
    && if |starts| == 1 then LastPageExplained(w, s, fetches[0], |fetches| == 1, ending, final)
       else
         && fetches[0].Success? && NextStart(w, s, fetches[0].value) == Some(starts[1])
         && Explained(w, starts[1], fetches[1..], starts[1..], ending, final)
  }

  /** The calls from the `k`-th on explain the ending in the same way, starting from the `k`-th session. */
  lemma {:induction false} ExplainedFrom(w: World, s: Session, fetches: seq<Result<Triage.Page, string>>,
                                         starts: seq<Session>, ending: Triage.Ending, final: Session, k: nat)
    requires Explained(w, s, fetches, starts, ending, final) && k < |starts|
    ensures |starts| <= |fetches|
    ensures Explained(w, starts[k], fetches[k..], starts[k..], ending, final)
    decreases k
  {
    if k > 0 {
      ExplainedFrom(w, starts[1], fetches[1..], starts[1..], ending, final, k - 1);
      assert starts[1..][k - 1] == starts[k] && fetches[1..][k - 1..] == fetches[k..] && starts[1..][k - 1..] == starts[k..];
    }
  }

  /** Read call by call: the `k`-th page leads on to the session of the next call, and the last explains the ending. */
  lemma ExplainedAt(w: World, s: Session, fetches: seq<Result<Triage.Page, string>>, starts: seq<Session>,
                    ending: Triage.Ending, final: Session, k: nat)
    requires Explained(w, s, fetches, starts, ending, final) && k < |starts|
    ensures |starts| <= |fetches| && starts[0] == s
    ensures k < |starts| - 1 ==> fetches[k].Success? && NextStart(w, starts[k], fetches[k].value) == Some(starts[k + 1])
    ensures k == |starts| - 1 ==> LastPageExplained(w, starts[k], fetches[k], |starts| == |fetches|, ending, final)
  {
    ExplainedFrom(w, s, fetches, starts, ending, final, k);
    var f := fetches[k..];
    var t := starts[k..];
    assert f[0] == fetches[k] && t[0] == starts[k];
    if k < |starts| - 1 {
      assert t[1] == starts[k + 1];
    }
  }

  /**
   * The run's calls, one per session in `starts`, explain its ending; with
   * no response at all, nothing happens.
   */
  predicate EndingExplained(w: World, s: Session, fetches: seq<Result<Triage.Page, string>>, r: RunResult) {
    && |r.starts| == |r.requested|
    && (|r.starts| == 0 ==> |fetches| == 0 && r.ending.OutOfResponses? && r.session == s)
    && (|r.starts| > 0 ==> Explained(w, s, fetches, r.starts, r.ending, r.session))
  }

  /**
   * The endless loop of `main`, over the responses the threads call returns
   * in turn; a page with no unanswered thread ends the loop when it is the
   * last, and otherwise the operator may quit with "Q".
   */
  function Run(w: World, s: Session, token: string, fetches: seq<Result<Triage.Page, string>>): (r: RunResult)
    ensures Triage.TokensChained(token, fetches, r.requested)
    ensures EndingExplained(w, s, fetches, r)
    ensures s.log <= r.session.log
    decreases |fetches|
  {
    if |fetches| == 0 then RunResult(s, Triage.OutOfResponses, [], [])
    else
      match fetches[0]
      case Failure(e) => RunResult(s, Triage.FetchFailed(e), [token], [s])
      case Success(page) =>
        var p := ProcessPage(w, s, page.items);
        if p.stop.Some? then RunResult(p.session, Triage.Stopped(p.stop.value), [token], [s])
        else
          var (stop, lines) := Triage.PageEnd(p.found, page.nextToken, p.session.lines);
          var s' := Session(p.session.log, lines);
          if stop then RunResult(s', if page.nextToken == "" then Triage.AllAnswered else Triage.OperatorQuit, [token], [s])
          else
            var rest := Run(w, s', page.nextToken, fetches[1..]);
            ConsRun(w, s, token, fetches, s', rest);
            RunResult(rest.session, rest.ending, [token] + rest.requested, [s] + rest.starts)
  }

  /**
   * A run that ends, as `Run` explains its ending, with the operator's "Q"
   * at a page end had fetched a last page with no unanswered thread and a
   * next page to go to, and the line the operator typed there reads "Q" once
   * upper-cased and trimmed.
   */
  lemma OperatorQuitMeansQ(w: World, s: Session, fetches: seq<Result<Triage.Page, string>>, r: RunResult)
    requires EndingExplained(w, s, fetches, r) && r.ending.OperatorQuit?
    ensures var n := |r.starts|;
            && 0 < n <= |fetches| && n == |r.requested| && fetches[n - 1].Success?
            && var page := fetches[n - 1].value;
               var p := ProcessPage(w, r.starts[n - 1], page.items);
               && p.stop.None?
               && (forall i :: 0 <= i < |page.items| ==> !Triage.Unanswered(w.me, page.items[i]))
               && page.nextToken != ""
               && Triage.Normalize(Triage.ReadLine(p.session.lines).0) == "Q"
  {
    ExplainedAt(w, s, fetches, r.starts, r.ending, r.session, |r.starts| - 1);
  }

  /** A run whose first page leads on to session `s'` continues with the run from there. */
  lemma {:induction false} ConsRun(w: World, s: Session, token: string, fetches: seq<Result<Triage.Page, string>>,
                                   s': Session, rest: RunResult)
    requires |fetches| > 0 && fetches[0].Success? && NextStart(w, s, fetches[0].value) == Some(s')
    requires Triage.TokensChained(fetches[0].value.nextToken, fetches[1..], rest.requested)
    requires EndingExplained(w, s', fetches[1..], rest)
    ensures var r := RunResult(rest.session, rest.ending, [token] + rest.requested, [s] + rest.starts);
            Triage.TokensChained(token, fetches, r.requested) && EndingExplained(w, s, fetches, r)
  {
    var r := RunResult(rest.session, rest.ending, [token] + rest.requested, [s] + rest.starts);
    assert r.starts[1..] == rest.starts;
    if |rest.starts| == 0 {
      assert LastPageExplained(w, s, fetches[0], |fetches| == 1, r.ending, r.session);
    } else {
      assert r.starts[1] == s';
    }
    var n := |r.requested|;
    forall k | 0 <= k < n - 1
      ensures fetches[k].Success? && r.requested[k + 1] == fetches[k].value.nextToken
    {
      if k > 0 {
        assert fetches[k] == fetches[1..][k - 1] && r.requested[k + 1] == rest.requested[k];
      }
    }
  }
}
