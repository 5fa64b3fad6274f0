/**
 * The drafter of the first version of the program (`llm.go` at the top of
 * the repository): one prompt holding the comment, the video title and the
 * description, and a JSON reply decoded into a score and an answer. The
 * model is an oracle `ask`; decoding the JSON object is an oracle `decode`.
 */
module LegacyLlm {
  import opened Wrappers
  import opened GoStrings
  import Llm
  import Prompts

  /** `LLMSuggestion`: the JSON keys "nota" and "resposta", and nothing else. */
  datatype Suggestion = Suggestion(nota: int, resposta: string)

  /** The zero value Go returns beside an error. */
  const ZeroSuggestion: Suggestion := Suggestion(0, "")

  /** `suggestAnswer`'s two results: the suggestion, and the error when there is one. */
  datatype Drafted = Drafted(suggestion: Suggestion, err: Option<string>)

  /** What follows the shared channel opening in the legacy prompt, up to the opening quote of the comment. */
  const LegacyIntroTail: string :=
    ".\n" +
    "\tSuas respostas " + "precisam " + "estar relacionadas " + "com o contexto, " +
    "serem amigáveis " + "e respeitosas.\n" +
    "\tEvite adjetivos " + "desnecessários " + "e prefira " + "respostas " + "curtas.\n" +
    "\tPara cada " + "comentário, " + "atribua " + "uma nota " + "de 1 a 5 " + "de entendimento " +
    "do que o " + "comentário " + "quer dizer. " + "Considere " + "que 1 é " + "para um " +
    "comentário " + "difícil " + "de responder,\n" +
    "\tcomo uma " + "pergunta " + "muito aberta " + "e 5 é para " + "um comentário " +
    "muito simples, " + "como uma " + "saudação.\n" +
    "\tSua resposta " + "deve ser " + "sempre no " + "seguinte " + "formato, " + "sem nada " +
    "além disso, " + "nem mesmo " + "uma marcação " + "de json:\n" +
    "\t{\n" +
    "\t\t\"nota\": 0,\n" +
    "\t\t\"resposta\": " + "\"Sua resposta " + "aqui\"\n" +
    "\t}\n" +
    "\tO comentário " + "que você " + "deve responder " + "é este: " + "\""

  /** The legacy prompt up to the comment. */
  const LegacyIntro: string := Prompts.ChannelIntro + LegacyIntroTail

  /** Error text when the legacy drafter's reply does not decode. */
  const LegacyDecodeError: string := "parsing JSON LLM: "

  /**
   * `getAnswerPrompt`: the instructions, then the comment, the title and the
   * description, each in double quotes on its own line.
   */
  function AnswerPrompt(comment: string, title: string, description: string): string {
    LegacyIntro + comment + Prompts.TitleLabel + title + Prompts.DescriptionLabel + description + Prompts.QuoteEnd
  }

  /**
   * The prompt holds the comment, the title and the description verbatim, in
   * that order, each between the fixed labels.
   */
  lemma AnswerPromptQuotesFields(comment: string, title: string, description: string)
    ensures FieldsAt(AnswerPrompt(comment, title, description),
                     LegacyIntro, comment, Prompts.TitleLabel, title, Prompts.DescriptionLabel, description, Prompts.QuoteEnd)
  {
    FieldsBetween(LegacyIntro, comment, Prompts.TitleLabel, title, Prompts.DescriptionLabel, description, Prompts.QuoteEnd);
  }

  /**
   * `suggestAnswer`: the prompt goes to the model; the reply is cleaned as the
   * classifier's is (one "```json", one "```" and one trailing "```" removed,
   * then trimmed) and decoded. Every error comes with the zero suggestion; a
   * decoding error quotes the raw reply untouched.
   */
  function SuggestAnswerLegacy(comment: string, title: string, description: string,
                               ask: string -> Llm.LlmReply, decode: string -> Result<Suggestion, string>): (r: Drafted)
    ensures r.err.Some? ==> r.suggestion == ZeroSuggestion
    ensures var reply := ask(AnswerPrompt(comment, title, description));
            && (reply.Transport? ==> r.err == Some(Llm.GenerationCallError + reply.message))
            && (reply.Text? ==> (r.err.None? <==> decode(Llm.CleanJsonReply(reply.raw)).Success?))
            && (reply.Text? && r.err.None? ==> r.suggestion == decode(Llm.CleanJsonReply(reply.raw)).value)
            && (reply.Text? && r.err.Some? ==>
                  HasPrefix(r.err.value, LegacyDecodeError) && HasSuffix(r.err.value, Llm.RawLabel + reply.raw))
  {
    match ask(AnswerPrompt(comment, title, description))
    case Transport(message) => Drafted(ZeroSuggestion, Some(Llm.GenerationCallError + message))
    case Text(raw) =>
      match decode(Llm.CleanJsonReply(raw))
      case Success(s) => Drafted(s, None)
      case Failure(e) =>
        AffixesOfConcat(LegacyDecodeError, e, Llm.RawLabel + raw);
        Drafted(ZeroSuggestion, Some(LegacyDecodeError + e + (Llm.RawLabel + raw)))
  }

  /**
   * A reply wrapped in a JSON fence, with white space inside the fence, is
   * decoded from the object alone.
   */
  lemma FencedReplyDecoded(comment: string, title: string, description: string,
                           ask: string -> Llm.LlmReply, decode: string -> Result<Suggestion, string>,
                           a: string, m: string, b: string)
    requires ask(AnswerPrompt(comment, title, description)) == Llm.Text(Llm.JsonFence + a + m + b + Llm.Fence)
    requires AllSpace(a) && AllSpace(b) && Trimmed(m) && |m| > 0 && m[0] != '`'
    requires decode(m).Success?
    ensures SuggestAnswerLegacy(comment, title, description, ask, decode) == Drafted(decode(m).value, None)
  {
    Llm.JsonFenceRemoved(a, m, b);
  }
}
