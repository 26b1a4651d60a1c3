/**
 * The three external services the pipeline consumes, passed in explicitly:
 * the Gemini model used by the classifier (absent when it could not be
 * configured), the chat-completion model that writes the revision, the
 * embedding model and the vector store. Each is an arbitrary function, so
 * every property proved holds for whatever the services answer.
 *
 * Every operation that talks to a service also returns the calls it made,
 * in order, so that "this path never calls X" is a statement about the
 * trace.
 */
module Services {
  import opened Wrappers

  /** What a generation call gives back: reply text, or the message of the exception it raised. */
  datatype Reply = Text(text: string) | Failure(message: string)

  /** One call to an external service, with the arguments it was given. */
  datatype Call =
    | AskGemini(prompt: string)
    | Embed(input: string)
    | Search(collection: string, embedding: seq<real>, limit: nat)
    | AskChat(prompt: string)

  datatype Services = Services(
    gemini: Option<string -> Reply>,
    chat: string -> Reply,
    embed: string -> seq<real>,
    search: (string, seq<real>, nat) -> seq<string>)

  /** A result together with the service calls made to compute it. */
  datatype Traced<T> = Traced(value: T, calls: seq<Call>)

  predicate NoGemini(calls: seq<Call>) {
    forall k :: 0 <= k < |calls| ==> !calls[k].AskGemini?
  }

  /** None of the embedding, vector-search and chat services was called. */
  predicate NoRetrieval(calls: seq<Call>) {
    forall k :: 0 <= k < |calls| ==> calls[k].AskGemini?
  }

  /** Neither the vector store nor the chat model was called. */
  predicate NoSearchOrChat(calls: seq<Call>) {
    forall k :: 0 <= k < |calls| ==> !calls[k].Search? && !calls[k].AskChat?
  }

  /** Classifier calls in front of a trace change nothing about search and chat calls. */
  lemma {:induction false} NoSearchOrChatAppend(a: seq<Call>, b: seq<Call>)
    requires NoRetrieval(a)
    ensures NoSearchOrChat(a + b) <==> NoSearchOrChat(b)
  {
    if NoSearchOrChat(b) {
      forall k | 0 <= k < |a + b| ensures !(a + b)[k].Search? && !(a + b)[k].AskChat? {
        if k >= |a| {
          assert (a + b)[k] == b[k - |a|];
        }
      }
    }
    if NoSearchOrChat(a + b) {
      forall k | 0 <= k < |b| ensures !b[k].Search? && !b[k].AskChat? {
        assert (a + b)[|a| + k] == b[k];
      }
    }
  }

  lemma {:induction false} AppendParts<T>(a: seq<T>, b: seq<T>)
    ensures a <= a + b && (a + b)[|a|..] == b
  {
  }
}
