/**
 * The prompts sent to the language model: the classifier prompt and the two
 * reply-drafting templates, whose optional blocks (transcript, description,
 * author history, earlier replies, member note) are included only when their
 * input is present. The fixed wording is kept verbatim as constants.
 */
module Prompts {
  import opened GoStrings
  import opened Decimal
  import opened Models

  /** The opening words both reply templates share. */
  const ChannelIntro: string :=
    "Você é o " + "meu assistente " + "e responde " + "às mensagens " + "que os inscritos " +
    "do meu canal " + "no Youtube " + "me enviam. " + "É um canal " + "cristão " + "protestante"

  /** Classifier prompt up to the comment. */
  const AnalysisIntro: string :=
    "Você é um " + "classificador " + "de comentários " + "feitos no " + "youtube. " + "\n" +
    "\t\n" +
    "\tPara o " + "comentário " + "abaixo, " + "atribua " + "uma nota " + "de 1 a 5 " +
    "de entendimento " + "do que o " + "comentário " + "quer dizer. " + "Considere " + "que 1 é " +
    "para um " + "comentário " + "difícil " + "de responder,\n" +
    "\tcomo uma " + "pergunta " + "muito aberta " + "e 5 é para " + "um comentário " +
    "muito simples, " + "como uma " + "saudação.\n" +
    "\n" +
    "\tPara o " + "comentário " + "a seguir " + "responda " + "estritamente " + "em JSON " +
    "com os campos:\n" +
    "\t{\n" +
    "\t\t\"nota\": " + "0, // inteiro " + "1..5 onde " + "5 = muito " + "fácil/resposta " +
    "óbvia\n" +
    "\t\t\"sentimento\": " + "\"positivo|neutro|negativo\", " + "// sentimento " + "geral do " +
    "comentário\n" +
    "\t\t\"tema\": " + "\"Tema_do_Comentário\" " + "// tema " + "principal " + "do comentário\n" +
    "\t}\n" +
    "\n" +
    "\tIdentifique " + "também o " + "'tema' principal " + "do comentário. " + "Use um dos " +
    "seguintes " + "temas pré-definidos " + "para garantir " + "consistência: " + "[Teologia " +
    "(Dízimo), " + "Teologia " + "(Graça), " + "Teologia " + "(Sábado), " + "Escatologia, " +
    "Estudo Bíblico " + "(Geral), " + "Devocional " + "(AB7), Podcast " + "(Entrevista), " +
    "Saudação/Agradecimento, " + "Crítica " + "(Tom), Dúvida " + "(Geral), " + "Pedido de " +
    "Oração, " + "Outro].\n" +
    "\n" +
    "\tExemplo " + "de comentário " + "e resposta " + "esperada:\n" +
    "\n" +
    "\tComentário: " + "\"Amém\"\"\n" +
    "\tResposta: \n" +
    "\t{\n" +
    "\t\t\"nota\": 5,\n" +
    "\t\t\"sentimento\": " + "\"positivo\",\n" +
    "\t\t\"tema\": " + "\"Saudação/Agradecimento\"\n" +
    "\t}\n" +
    "\n" +
    "\tComentário: " + "\"Isso é " + "verdade, " + "Deus é maravilhoso!\"\n" +
    "\tResposta: \n" +
    "\t{\n" +
    "\t\t\"nota\": 5,\n" +
    "\t\t\"sentimento\": " + "\"positivo\",\n" +
    "\t\t\"tema\": " + "\"Saudação/Agradecimento\"\n" +
    "\t}\n" +
    "\n" +
    "\tComentário: " + "\"Por que " + "Deus permite " + "tanto sofrimento " + "no mundo?\"\n" +
    "\tResposta: \n" +
    "\t{\n" +
    "\t\t\"nota\": 1,\n" +
    "\t\t\"sentimento\": " + "\"neutro\"\n" +
    "\t\t\"tema\": " + "\"Dúvida " + "(Geral)\"\n" +
    "\t}\n" +
    "\n" +
    "\tComentário: " + "\"Você não " + "entende " + "nada sobre " + "a Bíblia.\"\n" +
    "\tResposta: \n" +
    "\t{\n" +
    "\t\t\"nota\": 3,\n" +
    "\t\t\"sentimento\": " + "\"negativo\"\n" +
    "\t\t\"tema\": " + "\"Crítica " + "(Tom)\"\n" +
    "\t}\n" +
    "\n" +
    "\tComentário: " + "\"Falou besteira.\"\n" +
    "\tResposta:\n" +
    "\t{\n" +
    "\t\t\"nota\": 4,\n" +
    "\t\t\"sentimento\": " + "\"negativo\"\n" +
    "\t\t\"tema\": " + "\"Crítica " + "(Tom)\"\n" +
    "\t}\n" +
    "\n" +
    "\tComentário " + "que deve " + "ser analisado: " + "\""

  /** Positive reply prompt up to the comment: the opening sentence ends with a full stop. */
  const PositiveIntro: string :=
    ChannelIntro + "." + PositiveIntroTail

  /** What follows the full stop in the positive introduction. */
  const PositiveIntroTail: string :=
    "\n" +
    "\tSuas respostas " + "precisam " + "estar relacionadas " + "com o contexto, " +
    "serem amigáveis " + "e respeitosas.\n" +
    "\tEvite adjetivos " + "desnecessários " + "e prefira " + "respostas " + "curtas, " +
    "sem repetir " + "o que a " + "pessoa falou " + "de maneira " + "desnecessária.\n" +
    "\tUse sempre " + "linguagem " + "neutra e " + "impessoal, " + "sem tentar " + "inferir " +
    "se a pessoa " + "é homem " + "ou mulher. " + "Nunca use " + "termos com " + "flexão de " +
    "gênero como " + "'obrigado', " + "'obrigada', " + "'abençoado', " + "'abençoada', " +
    "'fico feliz " + "que tenha " + "gostado' " + "(masc/fem). " + "Prefira " + "alternativas " +
    "neutras " + "como 'Agradeço " + "pelo comentário', " + "'Que bom " + "que gostou', " +
    "'Deus abençoe'.\n" +
    "\tO comentário " + "que você " + "deve responder " + "é este: " + "\""

  /** Negative reply prompt up to the comment (adds the 20-word ceiling). */
  const NegativeIntro: string :=
    ChannelIntro + " " + NegativeIntroTail

  /** What follows the space in the negative introduction, where the opening sentence goes on. */
  const NegativeIntroTail: string :=
    "onde faço " + "estudos " + "bíblicos, " + "tenho o " + "devocional " + "diário (AB7) " +
    "e também " + "um podcast " + "de entrevistas.\n" +
    "\tVocê deve " + "analisar " + "o comentário " + "abaixo, " + "classificado " +
    "como negativo " + "e gerar " + "uma resposta " + "para ele " + "que seja " + "educada " +
    "e não dê " + "margem para " + "o início " + "de uma discussão.\n" +
    "\tNão use " + "adjetivos " + "desnecessários " + "e prefira " + "respostas " + "que não " +
    "sejam muito " + "longas, " + "com até " + "20 palavras.\n" +
    "\tUse sempre " + "linguagem " + "neutra e " + "impessoal, " + "sem tentar " + "inferir " +
    "se a pessoa " + "é homem " + "ou mulher. " + "Nunca use " + "termos com " + "flexão de " +
    "gênero como " + "'obrigado', " + "'obrigada', " + "'abençoado', " + "'abençoada', " +
    "'fico feliz " + "que tenha " + "gostado' " + "(masc/fem). " + "Prefira " + "alternativas " +
    "neutras " + "como 'Agradeço " + "pelo comentário', " + "'Que bom " + "que gostou', " +
    "'Deus abençoe'.\n" +
    "\n" +
    "\tO comentário " + "que você " + "deve responder " + "é este: " + "\""

  /** Closes the quoted comment and opens the quoted video title. */
  const TitleLabel: string :=
    "\"\n" +
    "\tO título " + "do vídeo " + "onde o comentário " + "foi feito " + "é: \""

  /** Closes the quoted title and opens the quoted video description. */
  const DescriptionLabel: string :=
    "\"\n" +
    "\tA descrição " + "do vídeo " + "onde o comentário " + "foi feito " + "é: \""

  /** Closes the last quoted value of a header. */
  const QuoteEnd: string :=
    "\"\n" +
    "\t"

  /** Opens the transcript block. */
  const TranscriptIntro: string :=
    "\n" +
    "TRANSCRIÇÃO " + "DO VÍDEO: " + "Use esta " + "transcrição " + "para entender " +
    "o contexto " + "do vídeo " + "e dar uma " + "resposta " + "mais precisa:\n"

  /** Opens the negative prompt's description block. */
  const DescriptionIntro: string :=
    "\n" +
    "DESCRIÇÃO " + "DO VÍDEO: " + "Use esta " + "descrição " + "para entender " + "o contexto " +
    "do vídeo " + "e dar uma " + "resposta " + "mais precisa:\n"

  /** First line of `historyContext`. */
  const HistoryHeading: string :=
    "\n" +
    "Histórico " + "de interações " + "anteriores " + "com esta " + "pessoa:\n"

  /** Text the positive prompt puts before `historyContext`. */
  const PositiveHistoryIntro: string :=
    "\n" +
    "\t\tO histórico " + "de interações " + "anteriores " + "com esta " + "pessoa é " +
    "o seguinte:\n" +
    "\t\t"

  /** Text the positive prompt puts after `historyContext`. */
  const PositiveHistoryEnd: string :=
    "\n" +
    "\t\tUse esse " + "histórico " + "para evitar " + "repetir " + "respostas " + "ou entrar " +
    "em discussões.\n" +
    "\t\tTambém " + "leve em " + "conta o " + "histórico " + "para ajustar " + "o tom da " +
    "resposta.\n" +
    "\t\t"

  /** Text the negative prompt puts before `historyContext`. */
  const NegativeHistoryIntro: string :=
    "\n" +
    "\t\tO histórico " + "de interações " + "anteriores " + "com esta " + "pessoa é " +
    "o seguinte:\n" +
    "\t\t"

  /** Text the negative prompt puts after `historyContext`. */
  const NegativeHistoryEnd: string :=
    "\n" +
    "\t\tUse esse " + "histórico " + "principalmente " + "para evitar " + "repetir " +
    "respostas " + "e para manter " + "consistência " + "no tom das " + "respostas. " +
    "Quando perceber " + "que há vários " + "comentários " + "anteriores " + "de tom positivo " +
    "feitos pela " + "mesma pessoa, " + "você pode, " + "mantendo " + "sempre a " + "linguagem " +
    "neutra e " + "impessoal " + "e sem usar " + "flexões " + "de gênero, " + "(1) reconhecer " +
    "que ela " + "já comenta " + "com frequência, " + "(2) agradecer " + "de forma " + "um pouco " +
    "mais explícita " + "e (3) adotar " + "um tom ligeiramente " + "mais acolhedor, " +
    "sempre com " + "poucas frases " + "e sem exageros.\n" +
    "\t\t"

  /** First line of `consistencyContext`. */
  const ConsistencyHeading: string :=
    "\n" +
    "INSTRUÇÃO " + "DE CONSISTÊNCIA: " + "No passado, " + "respondi " + "a comentários " +
    "similares " + "(mesmo tema " + "e sentimento) " + "da seguinte " + "forma:\n"

  /** Last line of `consistencyContext`. */
  const ConsistencyClosing: string :=
    "\n" +
    "Use essas " + "respostas " + "como base " + "de tom e " + "doutrina " + "para gerar " +
    "a nova resposta " + "para o comentário " + "atual.\n"

  /** Member note of the positive prompt. */
  const PositiveMemberNote: string :=
    "\n" +
    "Note que " + "este usuário " + "é membro " + "do canal, " + "então seja " + "um pouco " +
    "mais caloroso " + "e agradecido " + "na resposta.\n"

  /** Member note of the negative prompt. */
  const NegativeMemberNote: string :=
    "\n" +
    "Note que " + "este usuário " + "é membro " + "do canal, " + "considere " + "isso ao " +
    "dar a resposta, " + "agradecendo " + "o apoio.\n"

  /** `getAnalysisPrompt`: the comment, quoted, inside the fixed classifier instructions. */
  function AnalysisPrompt(comment: string): string {
    AnalysisIntro + comment + QuoteEnd
  }

  /** The classifier prompt is the fixed instructions, the comment verbatim, and the closing quote. */
  lemma AnalysisPromptQuotesComment(comment: string)
    ensures var r := AnalysisPrompt(comment);
            && |r| == |AnalysisIntro| + |comment| + |QuoteEnd|
            && HasPrefix(r, AnalysisIntro) && HasSuffix(r, QuoteEnd)
            && r[|AnalysisIntro|..|AnalysisIntro| + |comment|] == comment
  {
    QuotedBetween(AnalysisIntro, comment, QuoteEnd);
  }

  /**
   * The fixed wording of one reply template. The two templates differ only in
   * the introduction, the text around the history and the member note;
   * keeping the wording in a record lets the lemmas below hold for both.
   */
  datatype Template = Template(
    intro: string,
    titleLabel: string,
    descriptionLabel: string,
    quoteEnd: string,
    transcriptIntro: string,
    descriptionIntro: string,
    historyHeading: string,
    historyIntro: string,
    historyEnd: string,
    consistencyHeading: string,
    consistencyClosing: string,
    memberNote: string)

  const PositiveTemplate: Template :=
    Template(PositiveIntro, TitleLabel, DescriptionLabel, QuoteEnd, TranscriptIntro, DescriptionIntro, HistoryHeading,
             PositiveHistoryIntro, PositiveHistoryEnd, ConsistencyHeading, ConsistencyClosing, PositiveMemberNote)

  const NegativeTemplate: Template :=
    Template(NegativeIntro, TitleLabel, DescriptionLabel, QuoteEnd, TranscriptIntro, DescriptionIntro, HistoryHeading,
             NegativeHistoryIntro, NegativeHistoryEnd, ConsistencyHeading, ConsistencyClosing, NegativeMemberNote)

  /** The pieces a reply prompt is assembled from, in the order they can appear. */
  datatype Block =
    | PositiveHeader(comment: string, title: string, description: string)
    | NegativeHeader(comment: string, title: string)
    | Transcript(text: string)
    | Description(text: string)
    | History(entries: seq<HistoryEntry>)
    | Consistency(answers: seq<string>)
    | MemberNote

  /** Position of a block kind in every prompt. */
  function Rank(b: Block): nat {
    match b
    case PositiveHeader(_, _, _) => 0
    case NegativeHeader(_, _) => 0
    case Transcript(_) => 1
    case Description(_) => 2
    case History(_) => 3
    case Consistency(_) => 4
    case MemberNote => 5
  }

  /** One entry of the history listing, numbered `n`. */
  function HistoryLine(n: nat, e: HistoryEntry): string {
    "Comentário anterior " + NatToString(n) + ": " + e.commentText + "\nResposta dada: " + e.response + "\n"
  }

  /** The listing loop of the history block, numbering from `n`. */
  function HistoryLines(entries: seq<HistoryEntry>, n: nat): string {
    if |entries| == 0 then "" else HistoryLine(n, entries[0]) + HistoryLines(entries[1..], n + 1)
  }

  /** `historyContext`: empty exactly when there is no history. */
  function HistoryContext(t: Template, entries: seq<HistoryEntry>): (r: string)
    ensures r == "" <==> |entries| == 0
  {
    if |entries| > 0 then t.historyHeading + HistoryLines(entries, 1) else ""
  }

  /** The history lists every entry in the given order, the k-th one (from 0) numbered n + k. */
  lemma {:induction false} HistoryNumberedInOrder(entries: seq<HistoryEntry>, n: nat)
    ensures HistoryLines(entries, n) == Concat(seq(|entries|, i requires 0 <= i < |entries| => HistoryLine(n + i, entries[i])))
  {
    var lines := seq(|entries|, i requires 0 <= i < |entries| => HistoryLine(n + i, entries[i]));
    if |entries| > 0 {
      HistoryNumberedInOrder(entries[1..], n + 1);
      var rest := seq(|entries| - 1, i requires 0 <= i < |entries| - 1 => HistoryLine(n + 1 + i, entries[1..][i]));
      assert lines[1..] == rest;
    }
  }

  /** The listing loop of the consistency block: each earlier reply followed by a newline. */
  function ConsistencyLines(answers: seq<string>): string {
    if |answers| == 0 then "" else answers[0] + "\n" + ConsistencyLines(answers[1..])
  }

  /** `consistencyContext`: empty exactly when there are no earlier replies. */
  function ConsistencyContext(t: Template, answers: seq<string>): (r: string)
    ensures r == "" <==> |answers| == 0
  {
    if |answers| > 0 then t.consistencyHeading + ConsistencyLines(answers) + t.consistencyClosing else ""
  }

  /** The earlier replies are listed in order, one per line. */
  lemma {:induction false} ConsistencyOnePerLine(answers: seq<string>)
    requires |answers| > 0
    ensures ConsistencyLines(answers) == Join(answers, '\n') + "\n"
  {
    if |answers| > 1 {
      ConsistencyOnePerLine(answers[1..]);
    }
  }

  function RenderBlock(t: Template, b: Block): string {
    match b
    case PositiveHeader(c, title, d) => t.intro + c + t.titleLabel + title + t.descriptionLabel + d + t.quoteEnd
    case NegativeHeader(c, title) => t.intro + c + t.titleLabel + title + t.quoteEnd
    case Transcript(text) => t.transcriptIntro + text + "\n"
    case Description(text) => t.descriptionIntro + text + "\n"
    case History(entries) => t.historyIntro + HistoryContext(t, entries) + t.historyEnd
    case Consistency(answers) => ConsistencyContext(t, answers)
    case MemberNote => t.memberNote
  }

  function Render(t: Template, blocks: seq<Block>): string {
    if |blocks| == 0 then "" else RenderBlock(t, blocks[0]) + Render(t, blocks[1..])
  }

  lemma {:induction false} RenderAppend(t: Template, blocks: seq<Block>, b: Block)
    ensures Render(t, blocks + [b]) == Render(t, blocks) + RenderBlock(t, b)
  {
    if |blocks| == 0 {
      assert blocks + [b] == [b];
    } else {
      assert (blocks + [b])[1..] == blocks[1..] + [b];
      RenderAppend(t, blocks[1..], b);
    }
  }

  /** Which of the two reply templates is in use. */
  datatype Polarity = Positive | Negative

  function TemplateOf(p: Polarity): Template {
    if p == Positive then PositiveTemplate else NegativeTemplate
  }

  /** A one-block list when `present`, else nothing. */
  function Optional(present: bool, b: Block): seq<Block> {
    if present then [b] else []
  }

  predicate RanksIncrease(blocks: seq<Block>) {
    forall i, j :: 0 <= i < j < |blocks| ==> Rank(blocks[i]) < Rank(blocks[j])
  }

  lemma RanksIncreaseAppend(blocks: seq<Block>, present: bool, b: Block)
    requires RanksIncrease(blocks)
    requires forall i :: 0 <= i < |blocks| ==> Rank(blocks[i]) < Rank(b)
    ensures RanksIncrease(blocks + Optional(present, b))
  {
  }

  /**
   * The blocks of a reply prompt: the header, then each optional block exactly
   * when its input is present, always in the same order. Only the negative
   * template has a separate description block; the positive header always
   * quotes the description.
   */
  function Plan(p: Polarity, comment: string, title: string, description: string, transcript: string,
                history: seq<HistoryEntry>, isMember: bool, answers: seq<string>): (r: seq<Block>)
    ensures |r| > 0
    ensures r[0] == if p == Positive then PositiveHeader(comment, title, description) else NegativeHeader(comment, title)
  {
    [if p == Positive then PositiveHeader(comment, title, description) else NegativeHeader(comment, title)]
    + Optional(transcript != "", Transcript(transcript))
    + Optional(p == Negative && description != "", Description(description))
    + Optional(|history| > 0, History(history))
    + Optional(|answers| > 0, Consistency(answers))
    + Optional(isMember, MemberNote)
  }

  /**
   * A positive header quotes the comment, the title and the description
   * verbatim, in that order, each right after its label.
   */
  lemma HeaderQuotesFields(t: Template, comment: string, title: string, description: string)
    ensures var r := RenderBlock(t, PositiveHeader(comment, title, description));
            var i := |t.intro|;
            var j := i + |comment| + |t.titleLabel|;
            var k := j + |title| + |t.descriptionLabel|;
            && |r| == k + |description| + |t.quoteEnd|
            && HasPrefix(r, t.intro)
            && r[i..i + |comment|] == comment
            && r[i + |comment|..j] == t.titleLabel
            && r[j..j + |title|] == title
            && r[j + |title|..k] == t.descriptionLabel
            && r[k..k + |description|] == description
            && r[k + |description|..] == t.quoteEnd
  {
  }

  /** What an optional block adds to a plan: the block itself, when present. */
  lemma InOptional(blocks: seq<Block>, present: bool, b: Block, x: Block)
    ensures x in blocks + Optional(present, b) <==> x in blocks || (present && x == b)
  {
    if present { assert blocks + Optional(present, b) == blocks + [b]; }
    else { assert blocks + Optional(present, b) == blocks; }
  }

  /** Every block of a plan is its header or an optional block whose input is present. */
  lemma InPlan(p: Polarity, comment: string, title: string, description: string, transcript: string,
               history: seq<HistoryEntry>, isMember: bool, answers: seq<string>, x: Block)
    ensures x in Plan(p, comment, title, description, transcript, history, isMember, answers) <==>
            || x == (if p == Positive then PositiveHeader(comment, title, description) else NegativeHeader(comment, title))
            || (transcript != "" && x == Transcript(transcript))
            || (p == Negative && description != "" && x == Description(description))
            || (|history| > 0 && x == History(history))
            || (|answers| > 0 && x == Consistency(answers))
            || (isMember && x == MemberNote)
  {
    var b0 := [if p == Positive then PositiveHeader(comment, title, description) else NegativeHeader(comment, title)];
    var b1 := b0 + Optional(transcript != "", Transcript(transcript));
    var b2 := b1 + Optional(p == Negative && description != "", Description(description));
    var b3 := b2 + Optional(|history| > 0, History(history));
    var b4 := b3 + Optional(|answers| > 0, Consistency(answers));
    InOptional(b0, transcript != "", Transcript(transcript), x);
    InOptional(b1, p == Negative && description != "", Description(description), x);
    InOptional(b2, |history| > 0, History(history), x);
    InOptional(b3, |answers| > 0, Consistency(answers), x);
    InOptional(b4, isMember, MemberNote, x);
  }

  /**
   * A block is in the plan exactly when its input is present: the transcript
   * when non-empty, the description (negative template only) when non-empty,
   * the history when it has entries, the consistency block when there are
   * earlier replies, the member note for a member.
   */
  lemma PlanContents(p: Polarity, comment: string, title: string, description: string, transcript: string,
                     history: seq<HistoryEntry>, isMember: bool, answers: seq<string>)
    ensures var r := Plan(p, comment, title, description, transcript, history, isMember, answers);
            && (Transcript(transcript) in r <==> transcript != "")
            && (Description(description) in r <==> p == Negative && description != "")
            && (History(history) in r <==> |history| > 0)
            && (Consistency(answers) in r <==> |answers| > 0)
            && (MemberNote in r <==> isMember)
  {
    InPlan(p, comment, title, description, transcript, history, isMember, answers, Transcript(transcript));
    InPlan(p, comment, title, description, transcript, history, isMember, answers, Description(description));
    InPlan(p, comment, title, description, transcript, history, isMember, answers, History(history));
    InPlan(p, comment, title, description, transcript, history, isMember, answers, Consistency(answers));
    InPlan(p, comment, title, description, transcript, history, isMember, answers, MemberNote);
  }


  /** Each block kind appears at most once, and always in the same order. */
  lemma PlanOrdered(p: Polarity, comment: string, title: string, description: string, transcript: string,
                    history: seq<HistoryEntry>, isMember: bool, answers: seq<string>)
    ensures RanksIncrease(Plan(p, comment, title, description, transcript, history, isMember, answers))
  {
    var b0 := [if p == Positive then PositiveHeader(comment, title, description) else NegativeHeader(comment, title)];
    var b1 := b0 + Optional(transcript != "", Transcript(transcript));
    var b2 := b1 + Optional(p == Negative && description != "", Description(description));
    var b3 := b2 + Optional(|history| > 0, History(history));
    var b4 := b3 + Optional(|answers| > 0, Consistency(answers));
    RanksIncreaseAppend(b0, transcript != "", Transcript(transcript));
    RanksIncreaseAppend(b1, p == Negative && description != "", Description(description));
    RanksIncreaseAppend(b2, |history| > 0, History(history));
    RanksIncreaseAppend(b3, |answers| > 0, Consistency(answers));
    RanksIncreaseAppend(b4, isMember, MemberNote);
  }

  /** The header and optional blocks, grown one step at a time as `getPositiveAnswerPrompt` and `getNegativeAnswerPrompt` do. */
  function AnswerPrompt(t: Template, p: Polarity, comment: string, title: string, description: string, transcript: string,
                        history: seq<HistoryEntry>, isMember: bool, answers: seq<string>): string
  {
    var historyContext := HistoryContext(t, history);
    var p0 := if p == Positive then t.intro + comment + t.titleLabel + title + t.descriptionLabel + description + t.quoteEnd
              else t.intro + comment + t.titleLabel + title + t.quoteEnd;
    var p1 := Grow(p0, transcript != "", t.transcriptIntro + transcript + "\n");
    var p2 := Grow(p1, p == Negative && description != "", t.descriptionIntro + description + "\n");
    var p3 := Grow(p2, historyContext != "", t.historyIntro + historyContext + t.historyEnd);
    var p4 := Grow(p3, |answers| > 0, ConsistencyContext(t, answers));
    Grow(p4, isMember, t.memberNote)
  }

  /** `if cond { prompt += piece }`. */
  function Grow(prompt: string, cond: bool, piece: string): string {
    if cond then prompt + piece else prompt
  }

  /** The step-by-step prompt is exactly the rendering of its block plan. */
  lemma PromptMatchesPlan(t: Template, p: Polarity, comment: string, title: string, description: string, transcript: string,
                          history: seq<HistoryEntry>, isMember: bool, answers: seq<string>)
    ensures AnswerPrompt(t, p, comment, title, description, transcript, history, isMember, answers) ==
            Render(t, Plan(p, comment, title, description, transcript, history, isMember, answers))
  {
    var b0 := [if p == Positive then PositiveHeader(comment, title, description) else NegativeHeader(comment, title)];
    var b1 := b0 + Optional(transcript != "", Transcript(transcript));
    var b2 := b1 + Optional(p == Negative && description != "", Description(description));
    var b3 := b2 + Optional(|history| > 0, History(history));
    var b4 := b3 + Optional(|answers| > 0, Consistency(answers));
    var historyContext := HistoryContext(t, history);
    var p0 := if p == Positive then t.intro + comment + t.titleLabel + title + t.descriptionLabel + description + t.quoteEnd
              else t.intro + comment + t.titleLabel + title + t.quoteEnd;
    var p1 := Grow(p0, transcript != "", t.transcriptIntro + transcript + "\n");
    var p2 := Grow(p1, p == Negative && description != "", t.descriptionIntro + description + "\n");
    var p3 := Grow(p2, |history| > 0, t.historyIntro + historyContext + t.historyEnd);
    var p4 := Grow(p3, |answers| > 0, ConsistencyContext(t, answers));
    HeaderRenders(t, p, comment, title, description);
    RenderStep(t, b0, transcript != "", Transcript(transcript), p0, t.transcriptIntro + transcript + "\n");
    RenderStep(t, b1, p == Negative && description != "", Description(description), p1, t.descriptionIntro + description + "\n");
    RenderStep(t, b2, |history| > 0, History(history), p2, t.historyIntro + historyContext + t.historyEnd);
    RenderStep(t, b3, |answers| > 0, Consistency(answers), p3, ConsistencyContext(t, answers));
    RenderStep(t, b4, isMember, MemberNote, p4, t.memberNote);
  }

  /** The plan's first block renders as the header `getPositiveAnswerPrompt` or `getNegativeAnswerPrompt` opens with. */
  lemma HeaderRenders(t: Template, p: Polarity, comment: string, title: string, description: string)
    ensures Render(t, [if p == Positive then PositiveHeader(comment, title, description) else NegativeHeader(comment, title)]) ==
            if p == Positive then t.intro + comment + t.titleLabel + title + t.descriptionLabel + description + t.quoteEnd
            else t.intro + comment + t.titleLabel + title + t.quoteEnd
  {
    var b0 := [if p == Positive then PositiveHeader(comment, title, description) else NegativeHeader(comment, title)];
    assert Render(t, b0) == RenderBlock(t, b0[0]) + Render(t, b0[1..]);
  }

  /** Rendering a plan grown by an optional block adds that block's text exactly when it is present. */
  lemma RenderStep(t: Template, blocks: seq<Block>, present: bool, b: Block, before: string, piece: string)
    requires Render(t, blocks) == before && RenderBlock(t, b) == piece
    ensures Render(t, blocks + Optional(present, b)) == Grow(before, present, piece)
  {
    RenderOptional(t, blocks, present, b);
  }

  lemma RenderOptional(t: Template, blocks: seq<Block>, present: bool, b: Block)
    ensures Render(t, blocks + Optional(present, b)) == if present then Render(t, blocks) + RenderBlock(t, b) else Render(t, blocks)
  {
    if present {
      RenderAppend(t, blocks, b);
    } else {
      assert blocks + Optional(present, b) == blocks;
    }
  }

  /**
   * `SuggestAnswer`'s template choice: the negative template exactly when the
   * comment is flagged negative, rendered from the block plan.
   */
  function SuggestPrompt(isNegative: bool, comment: string, title: string, description: string, transcript: string,
                         history: seq<HistoryEntry>, isMember: bool, answers: seq<string>): string
  {
    var p := if isNegative then Negative else Positive;
    Render(TemplateOf(p), Plan(p, comment, title, description, transcript, history, isMember, answers))
  }

  /** The prompt sent is what `getNegativeAnswerPrompt` builds for a negative comment and `getPositiveAnswerPrompt` otherwise. */
  lemma SuggestPromptFollowsTemplate(isNegative: bool, comment: string, title: string, description: string, transcript: string,
                                     history: seq<HistoryEntry>, isMember: bool, answers: seq<string>)
    ensures var p := if isNegative then Negative else Positive;
            SuggestPrompt(isNegative, comment, title, description, transcript, history, isMember, answers) ==
              AnswerPrompt(TemplateOf(p), p, comment, title, description, transcript, history, isMember, answers)
  {
    var p := if isNegative then Negative else Positive;
    PromptMatchesPlan(TemplateOf(p), p, comment, title, description, transcript, history, isMember, answers);
  }

  /** Every reply prompt opens with its template's introduction. */
  lemma PromptOpensWithIntro(t: Template, p: Polarity, comment: string, title: string, description: string, transcript: string,
                             history: seq<HistoryEntry>, isMember: bool, answers: seq<string>)
    ensures HasPrefix(Render(t, Plan(p, comment, title, description, transcript, history, isMember, answers)), t.intro)
  {
    var blocks := Plan(p, comment, title, description, transcript, history, isMember, answers);
    var r := Render(t, blocks);
    assert r == RenderBlock(t, blocks[0]) + Render(t, blocks[1..]);
    assert RenderBlock(t, blocks[0])[..|t.intro|] == t.intro;
  }

  /** The positive introduction goes on with a full stop after the shared opening. */
  lemma PositiveIntroStop()
    ensures |ChannelIntro| < |PositiveIntro| && PositiveIntro[|ChannelIntro|] == '.'
  {
    assert (ChannelIntro + ".")[|ChannelIntro|] == '.';
  }

  /** The negative introduction goes on with a space after the shared opening. */
  lemma NegativeIntroSpace()
    ensures |ChannelIntro| < |NegativeIntro| && NegativeIntro[|ChannelIntro|] == ' '
  {
    assert (ChannelIntro + " ")[|ChannelIntro|] == ' ';
  }

  /** The prompt sent opens with the introduction of the template chosen for it. */
  lemma SuggestPromptOpening(isNegative: bool, comment: string, title: string, description: string, transcript: string,
                             history: seq<HistoryEntry>, isMember: bool, answers: seq<string>)
    ensures HasPrefix(SuggestPrompt(isNegative, comment, title, description, transcript, history, isMember, answers),
                      TemplateOf(if isNegative then Negative else Positive).intro)
  {
    var p := if isNegative then Negative else Positive;
    PromptOpensWithIntro(TemplateOf(p), p, comment, title, description, transcript, history, isMember, answers);
  }

  /** A string opening with the negative introduction has a space right after the shared opening. */
  lemma NegativeOpeningChar(s: string)
    requires HasPrefix(s, NegativeIntro)
    ensures |ChannelIntro| < |s| && s[|ChannelIntro|] == ' '
  {
    NegativeIntroSpace();
  }

  /** A string opening with the positive introduction has a full stop right after the shared opening. */
  lemma PositiveOpeningChar(s: string)
    requires HasPrefix(s, PositiveIntro)
    ensures |ChannelIntro| < |s| && s[|ChannelIntro|] == '.'
  {
    PositiveIntroStop();
  }

  /** A negative comment's prompt has a space right after the shared opening. */
  lemma NegativePromptSpace(comment: string, title: string, description: string, transcript: string,
                            history: seq<HistoryEntry>, isMember: bool, answers: seq<string>)
    ensures var r := SuggestPrompt(true, comment, title, description, transcript, history, isMember, answers);
            |ChannelIntro| < |r| && r[|ChannelIntro|] == ' '
  {
    var r := SuggestPrompt(true, comment, title, description, transcript, history, isMember, answers);
    SuggestPromptOpening(true, comment, title, description, transcript, history, isMember, answers);
    NegativeOpeningChar(r);
  }

  /** Any other comment's prompt has a full stop right after the shared opening. */
  lemma PositivePromptStop(comment: string, title: string, description: string, transcript: string,
                           history: seq<HistoryEntry>, isMember: bool, answers: seq<string>)
    ensures var r := SuggestPrompt(false, comment, title, description, transcript, history, isMember, answers);
            |ChannelIntro| < |r| && r[|ChannelIntro|] == '.'
  {
    var r := SuggestPrompt(false, comment, title, description, transcript, history, isMember, answers);
    SuggestPromptOpening(false, comment, title, description, transcript, history, isMember, answers);
    PositiveOpeningChar(r);
  }

  /**
   * A reader of the prompt can tell which template was used: right after the
   * opening both introductions share comes a space exactly when the comment
   * was flagged negative, and a full stop otherwise.
   */
  lemma TemplateChoiceVisible(isNegative: bool, comment: string, title: string, description: string, transcript: string,
                              history: seq<HistoryEntry>, isMember: bool, answers: seq<string>)
    ensures var r := SuggestPrompt(isNegative, comment, title, description, transcript, history, isMember, answers);
            && |ChannelIntro| < |r|
            && (isNegative <==> r[|ChannelIntro|] == ' ')
            && (!isNegative <==> r[|ChannelIntro|] == '.')
  {
    if isNegative {
      NegativePromptSpace(comment, title, description, transcript, history, isMember, answers);
    } else {
      PositivePromptStop(comment, title, description, transcript, history, isMember, answers);
    }
  }
}
