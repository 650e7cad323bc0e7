/**
 * What the two chat widgets (the hero's chat panel and the AI search box)
 * share: a transcript entry, the fixed texts of a failed request, the submit
 * guard, and the reading of a property chain `a ?? b ?? c` as "the first
 * property that is present".
 */
module Chat {
  import opened Wrappers
  import opened JsString
  import opened Wire

  datatype Role = User | Assistant

  /** `{ role, content }`. The content is whatever value the widget stored. */
  datatype ChatMessage = ChatMessage(role: Role, content: Json)

  /** The assistant's entry when the request failed. */
  const ErrorReply := "Sorry, I encountered an error. Please try again or rephrase your question."

  /** The toast text when the server sends no message of its own. */
  const FailedToastText := "Failed to get AI response. Please try again."

  /** `!trimmedQuery || isLoading` is false: the submit handler goes ahead.
      The send button is disabled exactly when this does not hold. */
  predicate CanSubmit(query: string, isLoading: bool) {
    Trim(query) != "" && !isLoading
  }

  /** A query made only of whitespace is never sent, and neither is anything
      while a request is in flight. */
  lemma BlankOrBusyNotSent(query: string, isLoading: bool)
    requires AllWhitespace(query) || isLoading
    ensures !CanSubmit(query, isLoading)
  {
  }

  /** The message that the user's query becomes: the query trimmed. It is
      never empty and has no whitespace at either end. */
  function UserMessage(query: string): (m: ChatMessage)
    requires Trim(query) != ""
    ensures m.role == User && m.content.Str?
    ensures m.content.s != [] && !IsWhitespace(m.content.s[0])
    ensures !IsWhitespace(m.content.s[|m.content.s| - 1])
  {
    ChatMessage(User, Str(Trim(query)))
  }

  /** The value of the first of `keys` whose property on `data` is neither
      `null` nor `undefined`, as `data?.k1 ?? data?.k2 ?? ...` finds it. */
  function FirstPresent(data: Json, keys: seq<string>): (r: Option<Json>)
    ensures r.None? <==> forall i :: 0 <= i < |keys| ==> IsNullish(Get(data, keys[i]))
    ensures r.Some? ==> !IsNullish(r.value)
    ensures r.Some? ==> exists i :: 0 <= i < |keys| && Get(data, keys[i]) == r.value
                          && forall j :: 0 <= j < i ==> IsNullish(Get(data, keys[j]))
  {
    if keys == [] then None
    else if !IsNullish(Get(data, keys[0])) then Some(Get(data, keys[0]))
    else
      var rest := FirstPresent(data, keys[1..]);
      assert forall i :: 1 <= i < |keys| ==> keys[i] == keys[1..][i - 1];
      rest
  }

  /** A value that is not an object has no properties to find. */
  lemma NothingPresentOutsideObjects(data: Json, keys: seq<string>)
    requires !data.Obj?
    ensures FirstPresent(data, keys) == None
  {
  }
}
