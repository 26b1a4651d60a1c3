/**
 * The classifier: asks the Gemini model which of three collections a text
 * belongs to and normalises the free-text reply to one label.
 */
module Classificacao {
  import opened Wrappers
  import opened Text
  import opened Services

  const Produto: string := "PRODUTO"
  const Cultura: string := "CULTURA"
  const Outros: string := "OUTROS"

  /** Prefix of the result when the reply names none of the three labels. */
  const UnrecognisedPrefix: string := "CLASSIFICAÇÃO NÃO RECONHECIDA: "
  /** Prefix of the result when the model call raised. */
  const ErrorPrefix: string := "ERRO ao classificar: "

  /** The fixed rubric before and after the quoted text; its wording is left unspecified. */
  const PromptHead: string
  const PromptTail: string

  predicate IsLabel(s: string) {
    s == Produto || s == Cultura || s == Outros
  }

  /** The classification prompt quotes the text to classify verbatim. */
  function ClassifyPrompt(texto: string): (p: string)
    ensures Contains(p, texto)
  {
    ContainsInfix(PromptHead, texto, PromptTail);
    PromptHead + texto + PromptTail
  }

  /** `response.text.strip().upper()`. */
  function Normalise(reply: string): string {
    Upper(Strip(reply))
  }

  /**
   * The keyword match on a normalised reply. A label comes out exactly when
   * one of the three keywords occurs; the label that comes out occurs in the
   * reply and every keyword of higher priority does not; anything else is
   * reported as unrecognised, carrying the reply.
   */
  function LabelOf(resposta: string): (r: string)
    ensures IsLabel(r) <==> Contains(resposta, Produto) || Contains(resposta, Cultura) || Contains(resposta, Outros)
    ensures IsLabel(r) ==> Contains(resposta, r)
    ensures r == Cultura ==> !Contains(resposta, Produto)
    ensures r == Outros ==> !Contains(resposta, Produto) && !Contains(resposta, Cultura)
    ensures !IsLabel(r) ==> r == UnrecognisedPrefix + resposta
  {
    if Contains(resposta, Produto) then Produto
    else if Contains(resposta, Cultura) then Cultura
    else if Contains(resposta, Outros) then Outros
    else
      assert |UnrecognisedPrefix + resposta| > 7;
      UnrecognisedPrefix + resposta
  }

  /**
   * `classificar_texto`. With no model it gives None and calls nothing;
   * otherwise it makes exactly one call, with the prompt built from the
   * text, and gives the normalised label, or the error prefix followed by
   * the exception's message.
   */
  function Classify(model: Option<string -> Reply>, texto: string): (r: Traced<Option<string>>)
    ensures model.None? ==> r == Traced(None, [])
    ensures model.Some? ==> r.calls == [AskGemini(ClassifyPrompt(texto))] && r.value.Some?
    ensures model.Some? && model.value(ClassifyPrompt(texto)).Failure? ==>
              r.value == Some(ErrorPrefix + model.value(ClassifyPrompt(texto)).message)
    ensures model.Some? && model.value(ClassifyPrompt(texto)).Text? ==>
              r.value == Some(LabelOf(Normalise(model.value(ClassifyPrompt(texto)).text)))
  {
    match model
    case None => Traced(None, [])
    case Some(generate) =>
      var prompt := ClassifyPrompt(texto);
      match generate(prompt)
      case Failure(e) => Traced(Some(ErrorPrefix + e), [AskGemini(prompt)])
      case Text(reply) => Traced(Some(LabelOf(Normalise(reply))), [AskGemini(prompt)])
  }

  /**
   * Stripping never hides a keyword: a keyword occurs in the normalised reply
   * exactly when it occurs in the upper-cased raw reply.
   */
  lemma {:induction false} NormaliseKeepsKeyword(reply: string, k: string)
    requires k == Produto || k == Cultura || k == Outros
    ensures Contains(Normalise(reply), k) <==> Contains(Upper(reply), k)
  {
    NormaliseKeepsWord(reply, k);
  }

  lemma {:induction false} NormaliseKeepsWord(reply: string, k: string)
    requires |k| > 0 && !IsSpace(k[0]) && !IsSpace(k[|k| - 1])
    ensures Contains(Normalise(reply), k) <==> Contains(Upper(reply), k)
  {
    UpperStrip(reply);
    StripKeepsWord(Upper(reply), k);
  }

  /**
   * The classification depends only on which keywords occur in the reply,
   * in any mix of upper and lower case and wherever they stand: PRODUTO wins
   * over CULTURA, which wins over OUTROS.
   */
  lemma {:induction false} ClassifyAnyCase(model: string -> Reply, texto: string)
    requires model(ClassifyPrompt(texto)).Text?
    ensures var reply := Upper(model(ClassifyPrompt(texto)).text);
            var r := Classify(Some(model), texto).value.value;
            (r == Produto <==> Contains(reply, Produto))
            && (r == Cultura <==> !Contains(reply, Produto) && Contains(reply, Cultura))
            && (r == Outros <==> !Contains(reply, Produto) && !Contains(reply, Cultura) && Contains(reply, Outros))
  {
    var raw := model(ClassifyPrompt(texto)).text;
    NormaliseKeepsKeyword(raw, Produto);
    NormaliseKeepsKeyword(raw, Cultura);
    NormaliseKeepsKeyword(raw, Outros);
  }

  /** A reply in which none of the keywords occurs is reported as unrecognised, with the normalised reply. */
  lemma {:induction false} ClassifyUnrecognised(model: string -> Reply, texto: string)
    requires model(ClassifyPrompt(texto)).Text?
    requires var reply := Upper(model(ClassifyPrompt(texto)).text);
             !Contains(reply, Produto) && !Contains(reply, Cultura) && !Contains(reply, Outros)
    ensures Classify(Some(model), texto).value
            == Some(UnrecognisedPrefix + Normalise(model(ClassifyPrompt(texto)).text))
  {
    var raw := model(ClassifyPrompt(texto)).text;
    NormaliseKeepsKeyword(raw, Produto);
    NormaliseKeepsKeyword(raw, Cultura);
    NormaliseKeepsKeyword(raw, Outros);
  }
}
