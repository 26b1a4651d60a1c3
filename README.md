# revisor_rag in Dafny

A model of the decision and string-handling logic of a retrieval-augmented
text-revision pipeline for agricultural documents. A draft is classified
into one of three collections (PRODUTO, CULTURA, OUTROS) by a Gemini model.
The first 800 characters are embedded, and the chosen collection of a vector
store is searched. The retrieved passages are sanitised and cut into a
numbered context block, and a chat model rewrites the draft with a change log
under the heading "🛠️ Ajustes Técnicos e Correções". An optional second
instruction is then applied to the revised text with that log cut off. A
Streamlit page drives the two steps and splits the result into the text and
its change log.

The services are parameters (`Services.Services`):
- the Gemini model, which may be absent;
- the chat model;
- the embedding model;
- the vector store.

Each service is an arbitrary function, so every property holds for anything
they answer. Every function that calls a service also returns the list of
calls it made, in order (`Services.Traced`), and so does the method `Revise`.
"Never calls X" is then a statement about that list. The button handler
`Session.ApplyCorrection` does not keep the list.

Files:
- `text.dfy`: `Text`, Python's `strip`, `upper`, `in`, `find`, `split`,
  `"".join`, `s[:n]`, `replace(c, '')` and `str(int)`, with their
  properties. Also `Wrappers`, with `Option`.
- `services.dfy`: `Services`, the service interface and the call trace.
- `classificacao.dfy`: `Classificacao`, the classifier.
- `revisor.dfy`: `Revisor`, the reviser and the incremental editor. The
  pipeline is specified by the function `Pipeline` and carried out by the
  method `Revise`, which builds the context with the loop `BuildContext`.
- `app.dfy`: `App`, the front end's parser and the button handler, as the
  class `Session` over the three session-state values.

Where the design and the code differ, the model follows the code:
- The embedding check rejects only lengths below 1536 (revisor.py:142). Longer
  embeddings go on to the search, although the design describes any length
  other than 1536 as a failure.
- The label guard is exact membership in `["ERRO", "CLASSIFICAÇÃO NÃO
  RECONHECIDA:", None]` (revisor.py:135). The classifier reports an
  unrecognised reply as `"CLASSIFICAÇÃO NÃO RECONHECIDA: "` plus the reply,
  and an exception as `"ERRO ao classificar: "` plus its message. Neither
  equals a guarded value, so when the model is available the guard never
  fires, and such a string is used as the collection name for the search
  (`Revisor.ClassifierPassesGuard`). Without an override, only a missing
  model stops the run at the guard. An override of exactly `"ERRO"` or
  `"CLASSIFICAÇÃO NÃO RECONHECIDA:"` stops it too (`Revisor.LabelErrorStops`).
- Only the text between the first and the second change-log heading becomes
  the change log (main.py:47).
- `reescrever_revisor` has no `try` around its final generation call
  (revisor.py:189). The model keeps that shape: a `Failure` reply from the
  chat service comes out of `Pipeline` as it is, and the button handler stops
  before writing any state. In the program the chat client's own wrapper
  catches every exception first (see "## Left out"), so this path belongs to
  the model's wider chat service, not to the program's runs.

## Model

| member | source | states |
|---|---|---|
| `Text.Strip` | classificacao.py:80 | `strip()` leaves a result no longer than its input that neither begins nor ends with whitespace (Python's `isspace` set) |
| `Text.StripInfix` | main.py:46 | what `strip()` keeps is one contiguous piece of the input; everything it drops before and after is whitespace |
| `Text.StripIdempotent` | main.py:46-47 | stripping twice is stripping once |
| `Text.UpperStrip` | classificacao.py:80 | `strip().upper()` equals `upper().strip()`: upper-casing never creates or removes whitespace |
| `Text.StripNoNew` | revisor.py:217 | stripping never creates an occurrence that was not in the input |
| `Text.StripKeepsWord` | classificacao.py:80-89 | a word with no whitespace at its ends occurs in the stripped string exactly when it occurs in the original |
| `Text.Find` | revisor.py:216 | an index that `find` returns is one at which the pattern occurs |
| `Text.FindFirst` | revisor.py:216 | that index is the first occurrence, and the result is None exactly when the pattern occurs nowhere |
| `Text.Split` | main.py:45 | `split(d)` always gives at least one part |
| `Text.SplitSingle` | main.py:45-47 | `split(d)` gives exactly one part if and only if `d` does not occur |
| `Text.SplitHeadFree` | revisor.py:216-217 | the first part, the text before the first separator, does not contain the separator |
| `Text.SplitPartsFree` | main.py:45 | no part of a split contains the separator |
| `Text.JoinSplit` | revisor.py:216 | joining the parts of a split with the separator gives back the original string |
| `Text.SplitParts` | main.py:45-47 | part 0 is the text before the first separator; part 1 is the text between the first and second separator, or to the end when there is no second |
| `Text.Prefix` | revisor.py:140 | `s[:n]` is a prefix of `s` of length `min(|s|, n)` |
| `Text.RemoveMultiset` | revisor.py:154 | `replace(c, '')` keeps every other character with its multiplicity and drops every `c` |
| `Text.RemoveOne` | revisor.py:154 | on one character, `replace(c, '')` drops it exactly when it is `c` |
| `Text.RemoveAppend` | revisor.py:154 | `replace(c, '')` of a concatenation is the concatenation of the two results, so the kept characters stay in their order |
| `Text.NatToStringRoundTrip` | revisor.py:155 | the decimal rendering of the source number reads back as that number |
| `Classificacao.ClassifyPrompt` | classificacao.py:46-73 | the classification prompt contains the input text verbatim |
| `Classificacao.LabelOf` | classificacao.py:84-91 | a label comes out exactly when a keyword occurs; the label occurs in the reply and no higher-priority keyword does; otherwise the result is the unrecognised prefix plus the reply |
| `Classificacao.Classify` | classificacao.py:37-94 | no model: None and no call; otherwise exactly one call, with the prompt; the result is the label of the normalised reply, or the error prefix plus the exception message |
| `Classificacao.NormaliseKeepsWord` | classificacao.py:80 | a keyword occurs in the normalised reply exactly when it occurs in the upper-cased raw reply |
| `Classificacao.NormaliseKeepsKeyword` | classificacao.py:80-89 | the same, for each of the three labels |
| `Classificacao.ClassifyAnyCase` | classificacao.py:80-89 | the result is PRODUTO iff the upper-cased reply contains PRODUTO; CULTURA iff it contains CULTURA and not PRODUTO; OUTROS iff it contains OUTROS and neither of the others |
| `Classificacao.ClassifyUnrecognised` | classificacao.py:90-91 | a reply with none of the keywords gives the unrecognised prefix followed by the normalised reply |
| `Revisor.ClassificationError` | revisor.py:137 | the classification-error message contains "Erro na classificação" |
| `Revisor.SanitizeSpec` | revisor.py:153-154 | the cleaned document has none of `{`, `}`, `'`, `"`, and exactly the document's other characters with their multiplicities |
| `Revisor.SanitizeOrder` | revisor.py:153-154 | cleaning a concatenation is concatenating the cleaned pieces, and a single character is dropped exactly when it is one of the four: the cleaned document is the document with those characters deleted in place |
| `Revisor.ChunkSpec` | revisor.py:155 | the chunk is a prefix of the cleaned document, at most 500 characters long (exactly 500 when the cleaned document is that long), free of the four characters |
| `Revisor.BuildContext` | revisor.py:149-157 | the loop produces `ContextBlock(docs)`: the fixed no-results message for no documents; otherwise the RAG header followed by one block per document, in retrieval order, block k being "--- Fonte k+1 ---", the chunk of document k and "..." |
| `Revisor.ContextInOrder` | revisor.py:150-155 | for every k, the header, the first k blocks and then the block of document k form a prefix of the context |
| `Revisor.ContextLength` | revisor.py:152-155 | with fewer than 100 documents the context is at most the header plus 521 characters per document, however long the documents are |
| `Revisor.RevisePrompt` | revisor.py:160-186 | the revision prompt contains the original text, the context block and the change-log heading it asks for |
| `Revisor.Retrieve` | revisor.py:139-191 | after the guard, the first call embeds `content[:800]` and the Gemini model is never asked again |
| `Revisor.RetrieveGate` | revisor.py:140-143 | the retrieval ends with the embedding error and no search or chat call exactly when the embedding is shorter than 1536 |
| `Revisor.Revise` | revisor.py:116-191 | the method's result and calls are those of `Pipeline`, with the context built by the loop |
| `Revisor.OverrideRule` | revisor.py:125-133 | a non-empty override other than the automatic option is the collection verbatim and the classifier is never called; otherwise the collection and the first calls are the classifier's; the classifier is called at most at the start |
| `Revisor.LabelErrorStops` | revisor.py:135-137 | a collection equal to "ERRO", to "CLASSIFICAÇÃO NÃO RECONHECIDA:" or None gives the classification-error message; no embedding, search or chat call is made |
| `Revisor.EmbeddingGate` | revisor.py:140-143 | past the guard, the next call embeds `content[:800]`, a prefix of length `min(|content|, 800)`; the run ends with the embedding error and no search or chat call exactly when the embedding is shorter than 1536 |
| `Revisor.HappyPath` | revisor.py:145-191 | otherwise the calls are embed, search in the resolved collection with limit 10, and one chat call; the prompt holds the text and the context of the documents found; the chat reply is returned unchanged |
| `Revisor.ClassifierPassesGuard` | revisor.py:125-142 | whenever the model is available, no classifier result trips the guard, and a run on the automatic choice (no override, an empty one or the automatic option) goes on to the embedding call |
| `Revisor.MainText` | revisor.py:216-217 | the text handed to the incremental prompt contains no change-log heading |
| `Revisor.FindAfterHead` | revisor.py:216 | in `t + heading + log` with no heading in `t`, the first heading is the one right after `t` |
| `Revisor.MainTextDropsLog` | revisor.py:214-217 | for `t + heading + log`, the main text is `strip(t)`, whatever the log holds |
| `Revisor.IncrementalIgnoresLog` | revisor.py:209-243 | with an instruction, the one chat call's prompt is built from `strip(t)` and is the same for every log after the heading |
| `Revisor.IncrementalPrompt` | revisor.py:220-239 | the incremental prompt contains the main text and the instruction |
| `Revisor.AdjustIncremental` | revisor.py:204-248 | an empty instruction returns the text unchanged with no call; otherwise one chat call with the prompt of the main text and the instruction, whose reply is returned, or the original text when the call fails |
| `App.ParseRagOutput` | main.py:36-53 | the collection is always returned unchanged; a response with either failure marker passes through whole with "Falha na Etapa RAG."; otherwise the text has no heading, and with no heading the result is the stripped response and the fixed no-change-log message |
| `App.ParseSplitsAtDelimiter` | main.py:45-47 | for `t + heading + log`, the text is `strip(t)` and the change log is the stripped log up to any second heading |
| `App.RevisionErrorSkipsIncremental` | main.py:37-42 | a classification or embedding error from the reviser is shown whole, and step 2 never runs on it |
| `App.Session.constructor` | main.py:27-32 | the initial session values |
| `App.Session.ApplyCorrection` | main.py:95-136 | no base text: nothing changes; a failing revision: nothing changes; otherwise the collection is the selection; step 2 runs exactly when the instruction is non-empty and the step-1 text has no "Erro"; the final text is the step-2 result or the step-1 text, and the change log gets the incremental note only when step 2 ran |

## Left out

- The service clients are not modelled: OpenAI chat and embeddings, Gemini and Astra DB. They are arbitrary functions passed in. Their configuration from environment variables and secrets is process set-up.
- The failure of the first `get_embedding` is not modelled separately: it returns an empty list, which an arbitrary embedding function already covers.
- `LLMClient.generate_content` (revisor.py:65-82) turns every exception into the reply `"ERRO NA GERAÇÃO DO LLM (API Error): …"` or `"ERRO NA GERAÇÃO DO LLM (Geral): …"`. That wrapper is left out. The chat service of the model is wider: it may answer with a `Text` reply or a `Failure`. In the program, such an error reply is an ordinary `Text` reply, which the model covers: `parse_rag_output` does not recognise it, and step 2 runs on it unless it contains "Erro". A `Failure` in `Pipeline`, `ApplyCorrection` and `AdjustIncremental` stands for a chat service that raises, which the wrapper never lets happen.
- The vector-store call is total in the model: `search` always answers with a list of documents. An exception from `astra_client.vector_search` (revisor.py:145) is not modelled.
- The wording of the three prompts is not modelled. Their fixed passages are constants with no value given, so every property holds for any wording. The model keeps only the parts the logic depends on: the texts the prompts carry, their order, and the change-log heading.
- `Text.Upper`: upper-cases only the ASCII letters a–z. Python's `upper()` follows full Unicode case mapping, which can also change a string's length.
- The rendering of a retrieved document with `str(doc)` is not modelled: documents are the strings that rendering produces.
- The widgets, spinners and messages of the Streamlit page are shown, not computed, and are left out. So are the start-up key check through `get_embedding("teste")` and the broken self-import at the top of revisor.py.
- The interactive `main()` / `__main__` drivers and all printing are left out. They read from the terminal and write to it.
- Concurrency and time-outs are not modelled: the pipeline is sequential and has none.
