/**
 * The front end's logic: splitting the reviser's single-string result into
 * the revised text and its change log, and the two-step handler of the
 * "Aplicar Correção" button, which updates the session state. The widgets
 * themselves are not modelled; the handler's inputs are the values the
 * widgets hold.
 */
module App {
  import opened Wrappers
  import opened Text
  import opened Services
  import opened Revisor

  const RagFailed: string := "Falha na Etapa RAG."
  const NoChangeLog: string := "Não foi possível extrair a seção de Ajustes Técnicos."
  const IncrementalNote: string := "\n\n--- AJUSTE INCREMENTAL ---\nInstrução Adicional Aplicada."
  const ErrorWord: string := "Erro"

  /** The dictionary `parse_rag_output` returns. */
  datatype RagParse = RagParse(textoFinal: string, ajustesTecnicos: string, colecaoUsada: string)

  /** The two markers by which the front end recognises a failed revision. */
  predicate LooksLikeFailure(fullResponse: string) {
    Contains(fullResponse, ClassificationErrorHead) || Contains(fullResponse, EmbeddingErrorHead)
  }

  /**
   * `parse_rag_output`. A response that looks like a failure passes through
   * whole; otherwise the text is what precedes the first change-log heading,
   * stripped, and the change log is what lies between the first and the
   * second heading, stripped, or a fixed message when there is no heading.
   * The collection is handed back unchanged on both paths.
   */
  function ParseRagOutput(fullResponse: string, colecao: string): (r: RagParse)
    ensures r.colecaoUsada == colecao
    ensures LooksLikeFailure(fullResponse) ==> r == RagParse(fullResponse, RagFailed, colecao)
    ensures !LooksLikeFailure(fullResponse) ==> !Contains(r.textoFinal, Delimiter)
    ensures !LooksLikeFailure(fullResponse) && !Contains(fullResponse, Delimiter) ==>
              r == RagParse(Strip(fullResponse), NoChangeLog, colecao)
  {
    if LooksLikeFailure(fullResponse) then
      RagParse(fullResponse, RagFailed, colecao)
    else
      var partes := Split(fullResponse, Delimiter);
      SplitSingle(fullResponse, Delimiter);
      var textoFinal := if |partes| > 0 then Strip(partes[0]) else fullResponse;
      var ajustesTecnicos := if |partes| > 1 then Strip(partes[1]) else NoChangeLog;
      assert textoFinal == MainText(fullResponse);
      RagParse(textoFinal, ajustesTecnicos, colecao)
  }

  /**
   * For a response made of a text, the change-log heading and a log, the
   * text comes back stripped and the change log is the log up to any second
   * heading, stripped: whatever follows a second heading is dropped.
   */
  lemma {:induction false} ParseSplitsAtDelimiter(texto: string, log: string, colecao: string)
    requires !Contains(texto, Delimiter)
    requires !LooksLikeFailure(texto + Delimiter + log)
    ensures var r := ParseRagOutput(texto + Delimiter + log, colecao);
            r.textoFinal == Strip(texto)
            && r.ajustesTecnicos == Strip(Split(log, Delimiter)[0])
            && (!Contains(log, Delimiter) ==> r.ajustesTecnicos == Strip(log))
  {
    var s := texto + Delimiter + log;
    FindAfterHead(texto, log);
    assert s[..|texto|] == texto;
    assert s[|texto| + |Delimiter|..] == log;
    SplitParts(s, Delimiter);
    SplitParts(log, Delimiter);
  }

  /** Step 2 runs only with a non-empty instruction and a step-1 text free of "Erro". */
  predicate IncrementalRuns(instrucao: string, finalText: string) {
    instrucao != "" && !Contains(finalText, ErrorWord)
  }

  /**
   * When the revision stops at the label guard or at the embedding check,
   * the front end shows the error message itself and step 2 never runs.
   */
  lemma {:induction false} RevisionErrorSkipsIncremental(content: string, colecao: string, instrucao: string, svc: Services)
    requires var run := Pipeline(content, Some(colecao), svc);
             run.value == Text(ClassificationError(ResolveCollection(content, Some(colecao), svc.gemini).value))
             || run.value == Text(EmbeddingError)
    ensures var message := Pipeline(content, Some(colecao), svc).value.text;
            var parsed := ParseRagOutput(message, colecao);
            parsed == RagParse(message, RagFailed, colecao)
            && !IncrementalRuns(instrucao, parsed.textoFinal)
  {
    var message := Pipeline(content, Some(colecao), svc).value.text;
    var rest := EmbeddingError[|EmbeddingErrorHead|..];
    assert EmbeddingError == [] + EmbeddingErrorHead + rest;
    ContainsInfix([], EmbeddingErrorHead, rest);
    WordInErrorHeads();
    assert LooksLikeFailure(message);
    if Contains(message, ClassificationErrorHead) {
      ContainsTransitive(message, ClassificationErrorHead, ErrorWord);
    } else {
      ContainsTransitive(message, EmbeddingErrorHead, ErrorWord);
    }
  }

  lemma {:induction false} WordInErrorHeads()
    ensures Contains(ClassificationErrorHead, ErrorWord)
    ensures Contains(EmbeddingErrorHead, ErrorWord)
  {
    assert ClassificationErrorHead[0..4] == ErrorWord;
    assert EmbeddingErrorHead[0..4] == ErrorWord;
    ContainsAt(ClassificationErrorHead, ErrorWord, 0);
    ContainsAt(EmbeddingErrorHead, ErrorWord, 0);
  }

  lemma {:induction false} ContainsTransitive(s: string, t: string, u: string)
    requires Contains(s, t) && Contains(t, u)
    ensures Contains(s, u)
  {
    var i :| 0 <= i <= |s| && OccursAt(s, t, i);
    assert s[i..i + |t|] == t;
    ContainsWithin(s, i, i + |t|, u);
  }

  /** The values the page keeps across runs (`st.session_state`). */
  class Session {
    var saidaFinal: string
    var ajustesTecnicos: string
    var colecaoUsada: string

    constructor ()
      ensures saidaFinal == "" && ajustesTecnicos == "Nenhum ajuste técnico realizado." && colecaoUsada == "N/A"
    {
      saidaFinal := "";
      ajustesTecnicos := "Nenhum ajuste técnico realizado.";
      colecaoUsada := "N/A";
    }

    /**
     * The button handler. With no base text nothing changes. Otherwise
     * step 1 revises the text with the selected collection and parses the
     * result; when the revision's last generation call fails, the exception
     * leaves the handler before any state is written. Step 2 applies the
     * instruction only when `IncrementalRuns` holds, and then notes it in the
     * change log. The final text is what the last step produced.
     */
    method ApplyCorrection(textoBase: string, colecaoSelecionada: string, instrucao: string, svc: Services)
      modifies this
      ensures textoBase == "" ==> unchanged(this)
      ensures textoBase != "" && Pipeline(textoBase, Some(colecaoSelecionada), svc).value.Failure? ==> unchanged(this)
      ensures textoBase != "" && Pipeline(textoBase, Some(colecaoSelecionada), svc).value.Text? ==>
                var parsed := ParseRagOutput(Pipeline(textoBase, Some(colecaoSelecionada), svc).value.text, colecaoSelecionada);
                colecaoUsada == colecaoSelecionada
                && (IncrementalRuns(instrucao, parsed.textoFinal) ==>
                      saidaFinal == AdjustIncremental(parsed.textoFinal, instrucao, svc.chat).value
                      && ajustesTecnicos == parsed.ajustesTecnicos + IncrementalNote)
                && (!IncrementalRuns(instrucao, parsed.textoFinal) ==>
                      saidaFinal == parsed.textoFinal && ajustesTecnicos == parsed.ajustesTecnicos)
    {
      if textoBase == "" {
        return;
      }
      var finalText := textoBase;

      var ragOutput, _ := Revise(textoBase, Some(colecaoSelecionada), svc);
      if ragOutput.Failure? {
        return;
      }
      var resultado := ParseRagOutput(ragOutput.text, colecaoSelecionada);
      ajustesTecnicos := resultado.ajustesTecnicos;
      colecaoUsada := resultado.colecaoUsada;
      finalText := resultado.textoFinal;

      if instrucao != "" && !Contains(finalText, ErrorWord) {
        finalText := AdjustIncremental(finalText, instrucao, svc.chat).value;
        ajustesTecnicos := ajustesTecnicos + IncrementalNote;
      }

      saidaFinal := finalText;
    }
  }
}
