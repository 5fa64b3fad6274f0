/**
 * The two calls to the language model in `internal/llm`: classifying a
 * comment and drafting a reply. The model itself is an oracle `ask` from
 * prompt to reply; what is modelled is the prompt sent, the cleaning of the
 * reply text and the errors returned.
 */
module Llm {
  import opened Wrappers
  import opened GoStrings
  import opened Models
  import Prompts

  /** The cheaper model that classifies comments. */
  const AnalysisModel: string := "gemini-2.5-flash-lite"

  /** The model that drafts replies. */
  const GenerationModel: string := "gemini-2.5-flash"

  /** The outcome of one call to the model: an error from the client, or the reply text. */
  datatype LlmReply = Transport(message: string) | Text(raw: string)

  const Fence: string := "```"
  const JsonFence: string := "```json"

  /**
   * The classifier's reply cleaning: one leading "```json", then one leading
   * "```", then one trailing "```" are removed from the raw text, and only
   * then is white space trimmed.
   */
  function CleanJsonReply(raw: string): (r: string)
    ensures Trimmed(r) && |r| <= |raw|
  {
    TrimSpace(TrimSuffix(TrimPrefix(TrimPrefix(raw, JsonFence), Fence), Fence))
  }

  /**
   * The drafter's reply cleaning: trimmed first, then one leading and one
   * trailing "```" are removed, then trimmed again. A language tag after the
   * opening fence is not removed.
   */
  function CleanSuggestion(raw: string): (r: string)
    ensures Trimmed(r) && |r| <= |raw|
  {
    TrimSpace(TrimSuffix(TrimPrefix(TrimSpace(raw), Fence), Fence))
  }

  /** Trimming on the right never cuts into a prefix that ends in a non-space. */
  lemma TrimRightKeepsPrefix(x: string, y: string)
    requires |x| > 0 && !IsSpace(x[|x| - 1])
    ensures HasPrefix(TrimRightSpace(x + y), x)
  {
    var s := x + y;
    var r := TrimRightSpace(s);
    assert r[..|x|] == s[..|x|];
  }

  /** A fenced JSON reply, with white space around the body, is reduced to the body. */
  lemma JsonFenceRemoved(a: string, m: string, b: string)
    requires AllSpace(a) && AllSpace(b) && Trimmed(m)
    requires |m| > 0 && m[0] != '`'
    ensures CleanJsonReply(JsonFence + a + m + b + Fence) == m
  {
    var raw := JsonFence + a + m + b + Fence;
    assert raw == JsonFence + (a + m + b + Fence);
    var s1 := a + m + b + Fence;
    assert TrimPrefix(raw, JsonFence) == s1;
    if |a| > 0 {
      assert s1[0] == a[0];
    } else {
      assert s1[0] == m[0];
    }
    assert !HasPrefix(s1, Fence);
    assert s1 == (a + m + b) + Fence;
    assert TrimSuffix(s1, Fence) == a + m + b;
    TrimSpaceOfPadded(a, m, b);
  }

  /**
   * White space before the opening fence defeats the classifier's cleaning:
   * the fence is still at the front of the cleaned text.
   */
  lemma LeadingSpaceKeepsJsonFence(w: string, m: string)
    requires |w| > 0 && AllSpace(w)
    ensures HasPrefix(CleanJsonReply(w + JsonFence + m + Fence), JsonFence)
  {
    var s := w + JsonFence + m;
    var raw := s + Fence;
    NoPrefixByFirst(raw, JsonFence);
    NoPrefixByFirst(raw, Fence);
    TrimSuffixOfConcat(s, Fence);
    assert s == w + (JsonFence + m);
    TrimLeftOfPadded(w, JsonFence + m);
    TrimRightKeepsPrefix(JsonFence, m);
  }

  /** White space around a fenced draft does not stop the drafter's cleaning from removing the fences. */
  lemma SuggestionFenceRemoved(a: string, m: string, b: string)
    requires AllSpace(a) && AllSpace(b)
    ensures CleanSuggestion(a + Fence + m + Fence + b) == TrimSpace(m)
  {
    var f := Fence + m + Fence;
    assert a + Fence + m + Fence + b == a + f + b;
    assert f[0] == '`' && f[|f| - 1] == '`';
    TrimSpaceOfPadded(a, f, b);
    assert f == Fence + (m + Fence);
    assert TrimPrefix(f, Fence) == m + Fence;
    assert TrimSuffix(m + Fence, Fence) == m;
  }

  /** The drafter's cleaning leaves a "json" tag after the opening fence in the draft. */
  lemma SuggestionKeepsJsonTag(m: string)
    ensures HasPrefix(CleanSuggestion(JsonFence + m + Fence), "json")
  {
    var tagged := "json" + m;
    assert JsonFence == Fence + "json";
    assert "" + Fence + tagged + Fence + "" == JsonFence + m + Fence;
    SuggestionFenceRemoved("", tagged, "");
    assert tagged[0] == 'j';
    assert !IsSpace(tagged[0]);
    assert TrimLeftSpace(tagged) == tagged;
    TrimRightKeepsPrefix("json", m);
  }

  /** Text that is already trimmed and unfenced passes through either cleaning unchanged. */
  lemma PlainTextUnchanged(s: string)
    requires Trimmed(s) && !HasPrefix(s, Fence) && !HasSuffix(s, Fence)
    ensures CleanJsonReply(s) == s && CleanSuggestion(s) == s
  {
    TrimSpaceOfTrimmed(s);
    PrefixOfLongerPrefix(s, Fence, "json");
    assert JsonFence == Fence + "json";
    assert TrimPrefix(s, JsonFence) == s;
  }

  /** Error text when the classifier call fails. */
  const AnalysisCallError: string := "erro ao analisar comentario com Gemini: "

  /** Error text when the classifier reply does not decode. */
  const AnalysisDecodeError: string := "parsing JSON analysis LLM: "

  /** Error text when the drafter call fails. */
  const GenerationCallError: string := "erro ao gerar conteúdo com Gemini: "

  /** Separates the decoding error from the raw reply in a decoding error. */
  const RawLabel: string := "; raw: "

  /**
   * `AnalyzeComment`: the classifier prompt goes to the model; the reply is
   * cleaned and decoded by `decode` (the JSON decoder). A failed call or
   * decode is an error; a decoding error quotes the raw reply untouched.
   */
  function AnalyzeComment(comment: string, ask: string -> LlmReply, decode: string -> Result<Verdict, string>): (r: Result<Verdict, string>)
    ensures var reply := ask(Prompts.AnalysisPrompt(comment));
            && (reply.Transport? ==> r == Failure(AnalysisCallError + reply.message))
            && (reply.Text? ==> decode(CleanJsonReply(reply.raw)).Success? ==> r == decode(CleanJsonReply(reply.raw)))
            && (reply.Text? ==> decode(CleanJsonReply(reply.raw)).Failure? ==>
                 r.Failure? && HasPrefix(r.error, AnalysisDecodeError) && HasSuffix(r.error, RawLabel + reply.raw))
  {
    match ask(Prompts.AnalysisPrompt(comment))
    case Transport(message) => Failure(AnalysisCallError + message)
    case Text(raw) =>
      match decode(CleanJsonReply(raw))
      case Success(v) => Success(v)
      case Failure(e) =>
        AffixesOfConcat(AnalysisDecodeError, e, RawLabel + raw);
        Failure(AnalysisDecodeError + e + (RawLabel + raw))
  }

  /**
   * `SuggestAnswer`: the template chosen by `isNegative` is filled in and sent
   * to the model; the reply text is cleaned. Only a failed call is an error.
   */
  function SuggestAnswer(isNegative: bool, comment: string, title: string, description: string, transcript: string,
                         history: seq<HistoryEntry>, isMember: bool, answers: seq<string>, ask: string -> LlmReply)
    : (r: Result<string, string>)
    ensures var reply := ask(Prompts.SuggestPrompt(isNegative, comment, title, description, transcript, history, isMember, answers));
            && (r.Success? <==> reply.Text?)
            && (r.Success? ==> Trimmed(r.value) && r.value == CleanSuggestion(reply.raw))
            && (r.Failure? ==> r.error == GenerationCallError + reply.message)
  {
    match ask(Prompts.SuggestPrompt(isNegative, comment, title, description, transcript, history, isMember, answers))
    case Transport(message) => Failure(GenerationCallError + message)
    case Text(raw) => Success(CleanSuggestion(raw))
  }
}
