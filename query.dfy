/** The ask handler of server.js: the guards, the retrieval of the three best
    chunks and the two prompts handed to the chat oracle. */
module Query {
  import opened Wrappers
  import opened JsStrings
  import opened Similarity
  import opened Corpus
  import opened Oracles
  import opened Ranking
  import opened Http

  const NoQuestionMessage: string := "질문이 없습니다."
  const NothingLearnedAnswer: string := "아직 학습된 문서가 없습니다. 먼저 문서를 학습시켜 주세요."
  const AnswerErrorMessage: string := "답변 생성 중 OpenAI API 오류가 발생했습니다."

  /** `if (!question)`: an absent question and the empty string are both
      rejected. */
  predicate HasQuestion(question: Option<string>)
  {
    question.Some? && question.value != ""
  }

  const SystemPromptHead: string := "당신은 '"
  const SystemPromptTail: string :=
    " 문서의 내용을 기반으로 질문에 답변하는 전문 AI 어시스턴트입니다. 제공된 컨텍스트를 최우선으로 참고하여, 질문에 대해 정확하고 친절하게 답변해주세요. 만약 컨텍스트에 답변의 근거가 없다면, \"문서의 내용만으로는 답변하기 어렵습니다.\"라고 솔직하게 말해주세요."

  /** The system message: the assistant's role for the learned file, and the
      fallback sentence for a context that holds no answer. */
  function SystemPrompt(filename: Option<string>): string
  {
    SystemPromptHead + TemplateText(filename) + "'" + SystemPromptTail
  }

  const UserPromptHead: string := "아래 컨텍스트를 바탕으로 다음 질문에 답변해주세요.\n\n[컨텍스트]:\n"
  const UserPromptMiddle: string := "\n\n[질문]:\n"

  /** The user message: the retrieved context, then the question. */
  function UserPrompt(context: string, question: string): string
  {
    UserPromptHead + context + UserPromptMiddle + question
  }

  /** The whole ask route, given the state it reads (`documentVectors` and
      `learnedFilename`) and the oracles it calls. */
  function Ask(question: Option<string>, docs: seq<DocVector>, filename: Option<string>,
               embed: Embedder, chat: Chat, normalise: Normaliser): (r: Reply)
    requires ValidEmbedder(embed) && WellFormed(docs)
    ensures r.status == 400 <==> !HasQuestion(question)
    ensures HasQuestion(question) && docs == [] ==> r == Reply(200, Answer(NothingLearnedAnswer))
    ensures r.status == 500 ==> r.body == Message(AnswerErrorMessage)
  {
    if !HasQuestion(question) then Reply(400, Message(NoQuestionMessage))
    else if |docs| == 0 then Reply(200, Answer(NothingLearnedAnswer))
    else
      match embed([question.value])
      case None => Reply(500, Message(AnswerErrorMessage))
      case Some(vectors) =>
        var context := TopContexts(docs, vectors[0], normalise);
        match chat(SystemPrompt(filename), UserPrompt(context, question.value))
        case None => Reply(500, Message(AnswerErrorMessage))
        case Some(answer) => Reply(200, Answer(answer))
  }

  /** A missing question is rejected first, whatever the state and the oracles. */
  lemma MissingQuestionRejectedFirst(question: Option<string>, docs: seq<DocVector>, filename: Option<string>,
                                     embed: Embedder, chat: Chat, normalise: Normaliser)
    requires ValidEmbedder(embed) && WellFormed(docs)
    requires question.None? || question == Some("")
    ensures Ask(question, docs, filename, embed, chat, normalise) == Reply(400, Message(NoQuestionMessage))
  {
  }

  /** With nothing learned the reply is the fixed answer, the same for every
      pair of oracles: neither the embedding nor the chat oracle is consulted. */
  lemma NothingLearnedIgnoresOracles(q: string, filename: Option<string>,
                                     embed1: Embedder, chat1: Chat, normalise1: Normaliser,
                                     embed2: Embedder, chat2: Chat, normalise2: Normaliser)
    requires ValidEmbedder(embed1) && ValidEmbedder(embed2) && q != ""
    ensures Ask(Some(q), [], filename, embed1, chat1, normalise1) ==
            Ask(Some(q), [], filename, embed2, chat2, normalise2) ==
            Reply(200, Answer(NothingLearnedAnswer))
  {
  }

  /** With a question and learned chunks: when the embedding call throws the
      reply is the 500 error; otherwise the answer is the chat oracle's reply
      to the two prompts built from the learned filename, the top-ranked
      context and the question, or the 500 error when that call throws. */
  lemma AnswerFromRetrievedContext(q: string, docs: seq<DocVector>, filename: Option<string>,
                                   embed: Embedder, chat: Chat, normalise: Normaliser)
    requires ValidEmbedder(embed) && WellFormed(docs)
    requires q != "" && |docs| > 0
    ensures embed([q]).None? ==>
              Ask(Some(q), docs, filename, embed, chat, normalise) == Reply(500, Message(AnswerErrorMessage))
    ensures embed([q]).Some? ==> |embed([q]).value| == 1 && |embed([q]).value[0]| == Dimension
    ensures embed([q]).Some? ==>
            var context := TopContexts(docs, embed([q]).value[0], normalise);
            var reply := chat(SystemPrompt(filename), UserPrompt(context, q));
            Ask(Some(q), docs, filename, embed, chat, normalise) ==
              (if reply.Some? then Reply(200, Answer(reply.value)) else Reply(500, Message(AnswerErrorMessage)))
  {
  }

  /** The user prompt carries the context and the question verbatim, at
      fixed places: the context right after the fixed heading, the question at
      the end. */
  lemma UserPromptCarriesContextAndQuestion(context: string, question: string)
    ensures var p := UserPrompt(context, question);
            var h := |UserPromptHead|;
            |p| == h + |context| + |UserPromptMiddle| + |question| &&
            p[h..h + |context|] == context &&
            p[h + |context|..h + |context| + |UserPromptMiddle|] == UserPromptMiddle &&
            p[|p| - |question|..] == question
  {
  }

  /** The system prompt names the learned file ("null" before any training
      has completed) between single quotes. */
  lemma SystemPromptNamesFile(filename: Option<string>)
    ensures |SystemPrompt(filename)| > |SystemPromptHead| + |TemplateText(filename)|
    ensures SystemPrompt(filename)[..|SystemPromptHead|] == SystemPromptHead
    ensures SystemPrompt(filename)[|SystemPromptHead|..|SystemPromptHead| + |TemplateText(filename)|] == TemplateText(filename)
    ensures SystemPrompt(filename)[|SystemPromptHead| + |TemplateText(filename)|] == '\''
    ensures filename.None? ==> TemplateText(filename) == "null"
  {
    var p := SystemPrompt(filename);
    var h := |SystemPromptHead|;
    var f := TemplateText(filename);
    assert p == SystemPromptHead + f + "'" + SystemPromptTail;
    assert p[h + |f|] == "'"[0];
    assert p[..h] == SystemPromptHead;
    assert p[h..h + |f|] == f;
  }
}
