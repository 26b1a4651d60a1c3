/**
 * The reviser (`reescrever_revisor`) and the incremental editor
 * (`ajuste_incremental`): choose a collection, embed a prefix of the text,
 * retrieve reference passages, build the grounding context, and ask the chat
 * model for a revision; then, optionally, apply one more instruction to the
 * revised text with its change log cut off.
 */
module Revisor {
  import opened Wrappers
  import opened Text
  import opened Services
  import Classificacao

  /** The selector value that asks for automatic classification. */
  const Automatic: string := "Automática (Classificação Gemini)"
  /** The label the guard compares against for an unrecognised classification. */
  const UnrecognisedLabel: string := "CLASSIFICAÇÃO NÃO RECONHECIDA:"

  const EmbeddingInputLength: nat := 800
  const EmbeddingDimension: nat := 1536
  const SearchLimit: nat := 10
  const ChunkLength: nat := 500

  /** The heading that separates the revised text from its change log. */
  const Delimiter: string := "🛠️ Ajustes Técnicos e Correções"

  const ClassificationErrorHead: string := "Erro na classificação"
  const ClassificationErrorRest: string := "/seleção da coleção. Classificação falhou com: "
  const ClassificationErrorTail: string := ". Não foi possível iniciar a busca RAG."
  const EmbeddingErrorHead: string := "Erro fatal na geração do Embedding"
  const EmbeddingError: string := EmbeddingErrorHead + ". Verifique sua chave OpenAI ativa. Não foi possível buscar no Astra DB."

  const RagHeader: string := "### REFERENCIAL TEÓRICO BUSCADO (RAG) ###\n"
  const NoResults: string := "Referencial teórico não retornou resultados específicos relevantes."

  /**
   * The fixed wording of the revision prompt (the reviewer persona, its
   * rules and section headings) around its four variable parts. The wording
   * is left unspecified, so what is proved holds whatever it says.
   */
  const ReviseHead: string
  const ReviseMiddle: string
  const ReviseTailHead: string
  const ReviseTailEnd: string

  /** The fixed wording of the incremental prompt around the main text and the instruction, left unspecified likewise. */
  const IncrementalHead: string
  const IncrementalMiddle: string
  const IncrementalTail: string

  // ---------------------------------------------------------------------
  // Collection choice and the label guard
  // ---------------------------------------------------------------------

  /** `colecao_override and colecao_override != "Automática (...)"`. */
  predicate UsesOverride(colecaoOverride: Option<string>) {
    colecaoOverride.Some? && colecaoOverride.value != "" && colecaoOverride.value != Automatic
  }

  /** The collection: the override verbatim, or the classifier's answer. */
  function ResolveCollection(content: string, colecaoOverride: Option<string>, gemini: Option<string -> Reply>): Traced<Option<string>> {
    if UsesOverride(colecaoOverride) then Traced(colecaoOverride, [])
    else Classificacao.Classify(gemini, content)
  }

  /** `colecao in ["ERRO", "CLASSIFICAÇÃO NÃO RECONHECIDA:", None]`: exact membership. */
  predicate IsLabelError(colecao: Option<string>) {
    colecao == Some("ERRO") || colecao == Some(UnrecognisedLabel) || colecao == None
  }

  function ClassificationError(colecao: Option<string>): (m: string)
    ensures Contains(m, ClassificationErrorHead)
  {
    var shown := if colecao.Some? && colecao.value != "" then colecao.value else "ERRO";
    var pieces := [ClassificationErrorHead, ClassificationErrorRest, shown, ClassificationErrorTail];
    ConcatContains(pieces, 0);
    Concat(pieces)
  }

  // ---------------------------------------------------------------------
  // The context block
  // ---------------------------------------------------------------------

  predicate IsStructural(c: char) {
    c == '{' || c == '}' || c == '\'' || c == '"'
  }

  /** `str(doc).replace('{', '').replace('}', '').replace("'", "").replace('"', '')`. */
  function Sanitize(doc: string): string {
    Remove(Remove(Remove(Remove(doc, '{'), '}'), '\''), '"')
  }

  /** Cleaning drops the four characters and keeps every other one with its multiplicity. */
  lemma {:induction false} SanitizeSpec(doc: string)
    ensures multiset(Sanitize(doc)) == multiset(doc)['{' := 0]['}' := 0]['\'' := 0]['"' := 0]
    ensures forall k :: 0 <= k < |Sanitize(doc)| ==> !IsStructural(Sanitize(doc)[k])
  {
    var r := Sanitize(doc);
    RemoveMultiset(doc, '{');
    RemoveMultiset(Remove(doc, '{'), '}');
    RemoveMultiset(Remove(Remove(doc, '{'), '}'), '\'');
    RemoveMultiset(Remove(Remove(Remove(doc, '{'), '}'), '\''), '"');
    assert multiset(r)['{'] == 0 && multiset(r)['}'] == 0 && multiset(r)['\''] == 0 && multiset(r)['"'] == 0;
    assert '{' !in r && '}' !in r && '\'' !in r && '"' !in r;
  }

  /**
   * Cleaning works piece by piece and keeps the order of what it keeps: it
   * drops exactly the structural characters and leaves every other in place.
   */
  lemma {:induction false} SanitizeOrder(a: string, b: string, x: char)
    ensures Sanitize(a + b) == Sanitize(a) + Sanitize(b)
    ensures Sanitize([x]) == if IsStructural(x) then [] else [x]
  {
    RemoveAppend(a, b, '{');
    RemoveAppend(Remove(a, '{'), Remove(b, '{'), '}');
    RemoveAppend(Remove(Remove(a, '{'), '}'), Remove(Remove(b, '{'), '}'), '\'');
    RemoveAppend(Remove(Remove(Remove(a, '{'), '}'), '\''), Remove(Remove(Remove(b, '{'), '}'), '\''), '"');
    RemoveOne(x, '{');
    RemoveOne(x, '}');
    RemoveOne(x, '\'');
    RemoveOne(x, '"');
    assert Remove([], '}') == [] && Remove([], '\'') == [] && Remove([], '"') == [];
  }

  /** The part of one document that goes into the context. */
  function Chunk(doc: string): string {
    Prefix(Sanitize(doc), ChunkLength)
  }

  /** The chunk is a prefix of the cleaned document of at most 500 characters, exactly 500 when there are that many. */
  lemma {:induction false} ChunkSpec(doc: string)
    ensures |Chunk(doc)| <= ChunkLength
    ensures forall k :: 0 <= k < |Chunk(doc)| ==> !IsStructural(Chunk(doc)[k])
    ensures Chunk(doc) <= Sanitize(doc)
    ensures |Sanitize(doc)| >= ChunkLength ==> |Chunk(doc)| == ChunkLength
  {
    SanitizeSpec(doc);
    var r := Chunk(doc);
    forall k | 0 <= k < |r| ensures !IsStructural(r[k]) {
      assert r[k] == Sanitize(doc)[k];
    }
  }

  /** `f"--- Fonte {i} ---\n"`. */
  function SourceHeader(i: nat): string {
    "--- Fonte " + NatToString(i) + " ---\n"
  }

  /** The block for the `i`-th document (counting from 1). */
  function Entry(i: nat, doc: string): string {
    SourceHeader(i) + Chunk(doc) + "...\n"
  }

  /** The blocks of all documents, numbered from 1 in the order they were retrieved. */
  function Entries(docs: seq<string>): (es: seq<string>)
    ensures |es| == |docs|
    ensures forall k :: 0 <= k < |docs| ==> es[k] == Entry(k + 1, docs[k])
  {
    seq(|docs|, k requires 0 <= k < |docs| => Entry(k + 1, docs[k]))
  }

  lemma {:induction false} EntriesSnoc(docs: seq<string>, i: nat)
    requires i < |docs|
    ensures Concat(Entries(docs[..i + 1])) == Concat(Entries(docs[..i])) + Entry(i + 1, docs[i])
  {
    EntriesPrefix(docs, i + 1);
    EntriesPrefix(docs, i);
    ConcatStep(Entries(docs), i);
  }

  /** The blocks of the first `j` documents are the first `j` blocks. */
  lemma {:induction false} EntriesPrefix(docs: seq<string>, j: nat)
    requires j <= |docs|
    ensures Entries(docs[..j]) == Entries(docs)[..j]
  {
    forall k | 0 <= k < j ensures Entries(docs[..j])[k] == Entries(docs)[k] {
      assert docs[..j][k] == docs[k];
    }
  }

  /** What the context-building loop produces. */
  function ContextBlock(docs: seq<string>): string {
    if docs == [] then NoResults else RagHeader + Concat(Entries(docs))
  }

  /** The loop over the retrieved documents that appends one block per document. */
  method BuildContext(docs: seq<string>) returns (ragContext: string)
    ensures ragContext == ContextBlock(docs)
  {
    ragContext := "";
    if docs != [] {
      ragContext := RagHeader;
      for i := 0 to |docs|
        invariant ragContext == RagHeader + Concat(Entries(docs[..i]))
      {
        var docClean := Sanitize(docs[i]);
        var entry := "--- Fonte " + NatToString(i + 1) + " ---\n" + Prefix(docClean, ChunkLength) + "...\n";
        assert entry == Entry(i + 1, docs[i]);
        EntriesSnoc(docs, i);
        AppendAssoc(RagHeader, Concat(Entries(docs[..i])), entry);
        ragContext := ragContext + entry;
      }
      assert docs[..|docs|] == docs;
    } else {
      ragContext := NoResults;
    }
  }

  /**
   * The context lists the documents in order: for every k, the header and the
   * first k blocks form a prefix of it, and the block of the k-th document
   * follows those of the documents before it.
   */
  lemma {:induction false} ContextInOrder(docs: seq<string>, k: nat)
    requires k < |docs|
    ensures RagHeader + Concat(Entries(docs[..k])) + Entry(k + 1, docs[k]) <= ContextBlock(docs)
  {
    var es := Entries(docs);
    var before := Concat(Entries(docs[..k]));
    var entry := Entry(k + 1, docs[k]);
    assert Entries(docs[..k + 1]) == es[..k + 1];
    EntriesSnoc(docs, k);
    ConcatPrefix(es, k + 1);
    assert before + entry <= Concat(es);
    PrefixPrepend(RagHeader, before + entry, Concat(es));
    AppendAssoc(RagHeader, before, entry);
  }

  lemma {:induction false} NatToStringShort(n: nat)
    requires n < 100
    ensures |NatToString(n)| <= 2
  {
    if n >= 10 {
      assert n / 10 < 10;
    }
  }

  /**
   * The context stays compact: with at most 99 documents (the search asks for
   * at most ten), each block is at most 521 characters, whatever their length.
   */
  lemma {:induction false} ContextLength(docs: seq<string>)
    requires |docs| < 100
    ensures |ContextBlock(docs)| <= |RagHeader| + |docs| * 521 || docs == []
  {
    var es := Entries(docs);
    forall k | 0 <= k < |es| ensures |es[k]| <= 521 {
      NatToStringShort(k + 1);
      ChunkSpec(docs[k]);
    }
    ConcatLength(es, 521);
  }

  // ---------------------------------------------------------------------
  // The revision prompt and the pipeline
  // ---------------------------------------------------------------------

  /** The revision prompt holds the original text, the context block and the change-log heading it asks for. */
  function RevisePrompt(content: string, ragContext: string): (p: string)
    ensures Contains(p, content)
    ensures Contains(p, ragContext)
    ensures Contains(p, Delimiter)
  {
    var pieces := [ReviseHead, content, ReviseMiddle, ragContext, ReviseTailHead, Delimiter, ReviseTailEnd];
    ConcatContains(pieces, 1);
    ConcatContains(pieces, 3);
    ConcatContains(pieces, 5);
    Concat(pieces)
  }

  /**
   * The run past the label guard: embed the first 800 characters, stop when
   * the embedding is too short, otherwise search the collection and ask the
   * chat model with the revision prompt. Its calls start with the embedding
   * and never ask the Gemini model.
   */
  function Retrieve(content: string, colecao: string, svc: Services): (r: Traced<Reply>)
    ensures |r.calls| >= 1 && r.calls[0] == Embed(Prefix(content, EmbeddingInputLength))
    ensures NoGemini(r.calls)
  {
    var query := Prefix(content, EmbeddingInputLength);
    var embedding := svc.embed(query);
    if embedding == [] || |embedding| < EmbeddingDimension then
      Traced(Text(EmbeddingError), [Embed(query)])
    else
      var docs := svc.search(colecao, embedding, SearchLimit);
      var prompt := RevisePrompt(content, ContextBlock(docs));
      var calls := [Embed(query), Search(colecao, embedding, SearchLimit), AskChat(prompt)];
      assert NoGemini(calls) by {
        assert calls[0].Embed? && calls[1].Search? && calls[2].AskChat?;
      }
      Traced(svc.chat(prompt), calls)
  }

  /**
   * `reescrever_revisor`: what it returns and which calls it makes, in order.
   * A failure of the last generation call is not caught here: it propagates.
   */
  function Pipeline(content: string, colecaoOverride: Option<string>, svc: Services): Traced<Reply> {
    var resolved := ResolveCollection(content, colecaoOverride, svc.gemini);
    if IsLabelError(resolved.value) then
      Traced(Text(ClassificationError(resolved.value)), resolved.calls)
    else
      var rest := Retrieve(content, resolved.value.value, svc);
      Traced(rest.value, resolved.calls + rest.calls)
  }

  /** `reescrever_revisor`, step by step, with the context built by the loop. */
  method Revise(content: string, colecaoOverride: Option<string>, svc: Services) returns (response: Reply, calls: seq<Call>)
    ensures Traced(response, calls) == Pipeline(content, colecaoOverride, svc)
  {
    ghost var resolved := ResolveCollection(content, colecaoOverride, svc.gemini);
    var colecao: Option<string> := None;
    calls := [];
    if UsesOverride(colecaoOverride) {
      colecao := colecaoOverride;
    } else {
      var classified := Classificacao.Classify(svc.gemini, content);
      colecao := classified.value;
      calls := classified.calls;
    }
    assert colecao == resolved.value && calls == resolved.calls;

    if IsLabelError(colecao) {
      response := Text(ClassificationError(colecao));
      return;
    }

    ghost var rest := Retrieve(content, colecao.value, svc);
    assert Pipeline(content, colecaoOverride, svc) == Traced(rest.value, calls + rest.calls);
    var query := Prefix(content, EmbeddingInputLength);
    var embedding := svc.embed(query);
    if embedding == [] || |embedding| < EmbeddingDimension {
      response := Text(EmbeddingError);
      assert rest == Traced(response, [Embed(query)]);
      calls := calls + [Embed(query)];
      return;
    }

    var relevantDocs := svc.search(colecao.value, embedding, SearchLimit);
    var ragContext := BuildContext(relevantDocs);
    var finalPrompt := RevisePrompt(content, ragContext);
    response := svc.chat(finalPrompt);
    assert rest == Traced(response, [Embed(query), Search(colecao.value, embedding, SearchLimit), AskChat(finalPrompt)]);
    calls := calls + [Embed(query), Search(colecao.value, embedding, SearchLimit), AskChat(finalPrompt)];
  }

  /**
   * The collection rule: a usable override is taken verbatim and the
   * classifier is never asked; otherwise the collection is the classifier's
   * answer, and the classifier's calls come first.
   */
  lemma {:induction false} OverrideRule(content: string, colecaoOverride: Option<string>, svc: Services)
    ensures var resolved := ResolveCollection(content, colecaoOverride, svc.gemini);
            var run := Pipeline(content, colecaoOverride, svc);
            resolved.calls <= run.calls
            && NoGemini(run.calls[|resolved.calls|..])
            && (UsesOverride(colecaoOverride) ==> resolved.value == colecaoOverride && NoGemini(run.calls))
            && (!UsesOverride(colecaoOverride) ==> resolved == Classificacao.Classify(svc.gemini, content))
  {
    var resolved := ResolveCollection(content, colecaoOverride, svc.gemini);
    var run := Pipeline(content, colecaoOverride, svc);
    if IsLabelError(resolved.value) {
      AppendParts(resolved.calls, []);
    } else {
      AppendParts(resolved.calls, Retrieve(content, resolved.value.value, svc).calls);
    }
    if UsesOverride(colecaoOverride) {
      assert resolved.calls == [];
    }
  }

  /** A label the guard rejects ends the run with the classification error, before any embedding, search or chat call. */
  lemma {:induction false} LabelErrorStops(content: string, colecaoOverride: Option<string>, svc: Services)
    requires IsLabelError(ResolveCollection(content, colecaoOverride, svc.gemini).value)
    ensures var run := Pipeline(content, colecaoOverride, svc);
            run.value == Text(ClassificationError(ResolveCollection(content, colecaoOverride, svc.gemini).value))
            && NoRetrieval(run.calls)
  {
    var resolved := ResolveCollection(content, colecaoOverride, svc.gemini);
    var run := Pipeline(content, colecaoOverride, svc);
    assert run == Traced(Text(ClassificationError(resolved.value)), resolved.calls);
    if !UsesOverride(colecaoOverride) && svc.gemini.Some? {
      assert resolved.calls == [AskGemini(Classificacao.ClassifyPrompt(content))];
    } else {
      assert resolved.calls == [];
    }
  }

  /**
   * Past the guard, the first call is the embedding of the first 800
   * characters; an embedding shorter than 1536 ends the run with the
   * embedding error before any search or chat call.
   */
  lemma {:induction false} EmbeddingGate(content: string, colecaoOverride: Option<string>, svc: Services)
    requires !IsLabelError(ResolveCollection(content, colecaoOverride, svc.gemini).value)
    ensures var resolved := ResolveCollection(content, colecaoOverride, svc.gemini);
            var run := Pipeline(content, colecaoOverride, svc);
            var query := Prefix(content, EmbeddingInputLength);
            |run.calls| > |resolved.calls| && run.calls[|resolved.calls|] == Embed(query)
            && query <= content && |query| == (if |content| < 800 then |content| else 800)
            && (|svc.embed(query)| < EmbeddingDimension <==> run.value == Text(EmbeddingError) && NoSearchOrChat(run.calls))
  {
    var resolved := ResolveCollection(content, colecaoOverride, svc.gemini);
    var rest := Retrieve(content, resolved.value.value, svc);
    RetrieveGate(content, resolved.value.value, svc);
    if !UsesOverride(colecaoOverride) && svc.gemini.Some? {
      assert resolved.calls == [AskGemini(Classificacao.ClassifyPrompt(content))];
    } else {
      assert resolved.calls == [];
    }
    NoSearchOrChatAppend(resolved.calls, rest.calls);
  }

  /** Past the guard, the retrieval stops with the embedding error exactly when the embedding is too short. */
  lemma {:induction false} RetrieveGate(content: string, colecao: string, svc: Services)
    ensures var query := Prefix(content, EmbeddingInputLength);
            var r := Retrieve(content, colecao, svc);
            |svc.embed(query)| < EmbeddingDimension <==> r.value == Text(EmbeddingError) && NoSearchOrChat(r.calls)
  {
    var query := Prefix(content, EmbeddingInputLength);
    var r := Retrieve(content, colecao, svc);
    if |svc.embed(query)| < EmbeddingDimension {
      assert r.calls == [Embed(query)];
    } else {
      assert r.calls[1].Search?;
    }
  }

  /**
   * The full run: search in the resolved collection with limit 10, a prompt
   * holding the text and the context built from what the search returned,
   * and the chat model's reply returned as it is.
   */
  lemma {:induction false} HappyPath(content: string, colecaoOverride: Option<string>, svc: Services)
    requires !IsLabelError(ResolveCollection(content, colecaoOverride, svc.gemini).value)
    requires |svc.embed(Prefix(content, EmbeddingInputLength))| >= EmbeddingDimension
    ensures var resolved := ResolveCollection(content, colecaoOverride, svc.gemini);
            var colecao := resolved.value.value;
            var query := Prefix(content, EmbeddingInputLength);
            var embedding := svc.embed(query);
            var docs := svc.search(colecao, embedding, SearchLimit);
            var prompt := RevisePrompt(content, ContextBlock(docs));
            var run := Pipeline(content, colecaoOverride, svc);
            run.calls == resolved.calls + [Embed(query), Search(colecao, embedding, 10), AskChat(prompt)]
            && run.value == svc.chat(prompt)
            && Contains(prompt, content) && Contains(prompt, ContextBlock(docs))
  {
  }

  /**
   * The label guard compares for exact membership, so whenever the model is
   * available nothing the classifier returns trips it: neither the
   * unrecognised-reply result nor the exception result equals a guarded
   * value, and a run on the automatic choice (no override, an empty one or
   * the automatic option) goes on to the embedding call.
   */
  lemma {:induction false} ClassifierPassesGuard(content: string, colecaoOverride: Option<string>, svc: Services)
    requires svc.gemini.Some? && !UsesOverride(colecaoOverride)
    ensures !IsLabelError(Classificacao.Classify(svc.gemini, content).value)
    ensures Embed(Prefix(content, EmbeddingInputLength)) in Pipeline(content, colecaoOverride, svc).calls
  {
    var r := Classificacao.Classify(svc.gemini, content).value.value;
    var reply := svc.gemini.value(Classificacao.ClassifyPrompt(content));
    if reply.Failure? {
      assert r == Classificacao.ErrorPrefix + reply.message;
      assert r[0] == 'E' && r[1] == 'R' && r[4] == ' ';
    } else if !Classificacao.IsLabel(r) {
      assert |r| > |UnrecognisedLabel|;
    }
    EmbeddingGate(content, colecaoOverride, svc);
  }

  // ---------------------------------------------------------------------
  // The incremental editor
  // ---------------------------------------------------------------------

  /** `texto_revisado.split(delimiter)[0].strip()`. */
  function MainText(textoRevisado: string): (r: string)
    ensures !Contains(r, Delimiter)
  {
    var head := Split(textoRevisado, Delimiter)[0];
    SplitHeadFree(textoRevisado, Delimiter);
    StripNoNew(head, Delimiter);
    Strip(head)
  }

  /** The delimiter does not overlap itself. */
  lemma {:induction false} DelimiterUnbordered()
    ensures forall m :: 0 < m < |Delimiter| ==> Delimiter[m] != Delimiter[0]
  {
  }

  /** No delimiter starts inside `head` when `head` has none: one cannot straddle the end of `head` either. */
  lemma {:induction false} NoEarlyDelimiter(head: string, rest: string, j: int)
    requires !Contains(head, Delimiter) && 0 <= j < |head|
    ensures !OccursAt(head + Delimiter + rest, Delimiter, j)
  {
    var s := head + Delimiter + rest;
    if j + |Delimiter| <= |head| {
      assert s[j..j + |Delimiter|] == head[j..j + |Delimiter|];
      assert !OccursAt(head, Delimiter, j);
    } else {
      DelimiterUnbordered();
      var m := |head| - j;
      assert s[|head|] == Delimiter[0];
      assert s[j..j + |Delimiter|][m] == s[|head|];
      assert Delimiter[m] != Delimiter[0];
    }
  }

  /** The first delimiter in `head + delimiter + rest`, when `head` has none, is the one after `head`. */
  lemma {:induction false} FindAfterHead(head: string, rest: string)
    requires !Contains(head, Delimiter)
    ensures Find(head + Delimiter + rest, Delimiter) == Some(|head|)
  {
    var s := head + Delimiter + rest;
    assert s[|head|..|head| + |Delimiter|] == Delimiter;
    assert OccursAt(s, Delimiter, |head|);
    FindFirst(s, Delimiter);
    var i := Find(s, Delimiter).value;
    if i < |head| {
      NoEarlyDelimiter(head, rest, i);
    }
  }

  /** Whatever follows the first delimiter never reaches the incremental prompt. */
  lemma {:induction false} MainTextDropsLog(head: string, log: string)
    requires !Contains(head, Delimiter)
    ensures MainText(head + Delimiter + log) == Strip(head)
  {
    FindAfterHead(head, log);
    var s := head + Delimiter + log;
    assert s[..|head|] == head;
  }

  /**
   * The incremental editor never sees the change log: for a text followed by
   * the heading, the prompt it sends is built from the stripped text alone,
   * and is the same whatever log follows.
   */
  lemma {:induction false} IncrementalIgnoresLog(texto: string, log1: string, log2: string, instrucao: string, chat: string -> Reply)
    requires !Contains(texto, Delimiter) && instrucao != ""
    ensures AdjustIncremental(texto + Delimiter + log1, instrucao, chat).calls
            == [AskChat(IncrementalPrompt(Strip(texto), instrucao))]
            == AdjustIncremental(texto + Delimiter + log2, instrucao, chat).calls
  {
    MainTextDropsLog(texto, log1);
    MainTextDropsLog(texto, log2);
  }

  /** The incremental prompt holds the main text and the instruction. */
  function IncrementalPrompt(mainText: string, instrucao: string): (p: string)
    ensures Contains(p, mainText)
    ensures Contains(p, instrucao)
  {
    var pieces := [IncrementalHead, mainText, IncrementalMiddle, instrucao, IncrementalTail];
    ConcatContains(pieces, 1);
    ConcatContains(pieces, 3);
    Concat(pieces)
  }

  /**
   * `ajuste_incremental`. No instruction: the text comes back unchanged and
   * nothing is called. Otherwise exactly one chat call, with the prompt built
   * from the text before the change log and the instruction; its reply is the
   * result, or, when the call fails, the original text.
   */
  function AdjustIncremental(textoRevisado: string, instrucao: string, chat: string -> Reply): (r: Traced<string>)
    ensures instrucao == "" ==> r == Traced(textoRevisado, [])
    ensures instrucao != "" ==>
              var prompt := IncrementalPrompt(MainText(textoRevisado), instrucao);
              r.calls == [AskChat(prompt)]
              && r.value == match chat(prompt) { case Text(t) => t case Failure(_) => textoRevisado }
  {
    if instrucao == "" then
      Traced(textoRevisado, [])
    else
      var prompt := IncrementalPrompt(MainText(textoRevisado), instrucao);
      match chat(prompt)
      case Text(t) => Traced(t, [AskChat(prompt)])
      case Failure(_) => Traced(textoRevisado, [AskChat(prompt)])
  }
}
