/**
 * The hero section's chat panel: the transcript state (`query`, `messages`,
 * `isLoading`), the submit handler split at its `await`, the reset button,
 * and the coercion of the webhook's reply to display text.
 */
module Hero {
  import opened Wrappers
  import opened JsString
  import opened Wire
  import opened ToastContext
  import opened Chat

  /** The properties the panel looks for, in order. */
  const ReplyKeys: seq<string> := ["output", "response", "answer"]

  /** `typeof data === 'string' ? data : (data?.output ?? data?.response ??
      data?.answer ?? data)`. */
  function ReplyValue(data: Json): Json {
    if data.Str? then data
    else Coalesce(Get(data, "output"), Coalesce(Get(data, "response"), Coalesce(Get(data, "answer"), data)))
  }

  /** `typeof raw === 'string' ? raw : JSON.stringify(raw)`, with
      `JSON.stringify` given as `stringify`. */
  function ReplyText(data: Json, stringify: Json -> string): string {
    var raw := ReplyValue(data);
    if raw.Str? then raw.s else stringify(raw)
  }

  /** The chain of `??` is "the first of `output`, `response`, `answer` that
      is present, else the whole body"; a string body is taken as it is. */
  lemma ReplyValueIsFirstPresent(data: Json)
    ensures data.Str? ==> ReplyValue(data) == data
    ensures !data.Str? ==> ReplyValue(data) == FirstPresent(data, ReplyKeys).GetOr(data)
  {
    var keys := ReplyKeys;
    if !data.Str? {
      calc {
        FirstPresent(data, keys);
        { assert keys[1..] == ["response", "answer"]; }
        if !IsNullish(Get(data, "output")) then Some(Get(data, "output"))
        else FirstPresent(data, ["response", "answer"]);
        { assert ["response", "answer"][1..] == ["answer"]; }
        if !IsNullish(Get(data, "output")) then Some(Get(data, "output"))
        else if !IsNullish(Get(data, "response")) then Some(Get(data, "response"))
        else FirstPresent(data, ["answer"]);
        { assert ["answer"][1..] == []; }
        if !IsNullish(Get(data, "output")) then Some(Get(data, "output"))
        else if !IsNullish(Get(data, "response")) then Some(Get(data, "response"))
        else if !IsNullish(Get(data, "answer")) then Some(Get(data, "answer"))
        else None;
      }
    }
  }

  /** What the panel shows: a string body verbatim; otherwise the first
      present property among `output`, `response`, `answer` (the body itself
      when none is), as it is when a string and stringified when not. */
  lemma ReplyTextMeaning(data: Json, stringify: Json -> string)
    ensures data.Str? ==> ReplyText(data, stringify) == data.s
    ensures !data.Str? ==>
      var raw := FirstPresent(data, ReplyKeys).GetOr(data);
      ReplyText(data, stringify) == if raw.Str? then raw.s else stringify(raw)
  {
    ReplyValueIsFirstPresent(data);
  }

  /** `output` wins whenever it is present, even over a `response`. */
  lemma OutputTakesPrecedence(data: Json, stringify: Json -> string)
    requires data.Obj? && "output" in data.props && !IsNullish(data.props["output"])
    ensures ReplyValue(data) == data.props["output"]
  {
  }

  /** An empty-string `output` is kept: `??` only skips `null` and
      `undefined`, so the fallbacks are not consulted. */
  lemma EmptyOutputKept(data: Json, stringify: Json -> string)
    requires data.Obj? && "output" in data.props && data.props["output"] == Str("")
    ensures ReplyText(data, stringify) == ""
  {
  }

  /** With none of the three properties present the whole body is
      stringified. */
  lemma BodyStringifiedWhenNothingPresent(data: Json, stringify: Json -> string)
    requires !data.Str?
    requires forall i :: 0 <= i < |ReplyKeys| ==> IsNullish(Get(data, ReplyKeys[i]))
    ensures ReplyText(data, stringify) == stringify(data)
  {
    ReplyValueIsFirstPresent(data);
  }

  /** A non-string property value is stringified, not shown raw. */
  lemma PresentNonStringStringified(data: Json, stringify: Json -> string)
    requires !data.Str?
    requires FirstPresent(data, ReplyKeys).Some? && !FirstPresent(data, ReplyKeys).value.Str?
    ensures ReplyText(data, stringify) == stringify(FirstPresent(data, ReplyKeys).value)
  {
    ReplyValueIsFirstPresent(data);
  }

  /** `{ output: "hi2" }` is shown as `hi2`. */
  lemma OutputExample(stringify: Json -> string)
    ensures ReplyText(Obj(map["output" := Str("hi2")]), stringify) == "hi2"
  {
    assert Get(Obj(map["output" := Str("hi2")]), "output") == Str("hi2");
  }

  /** Every entry of the panel's transcript holds a string. */
  ghost predicate AllText(messages: seq<ChatMessage>) {
    forall i :: 0 <= i < |messages| ==> messages[i].content.Str?
  }

  /** The component's state and its handlers. */
  class Component {
    var query: string
    var messages: seq<ChatMessage>
    var isLoading: bool
    /** The value `useToast()` returned. */
    const toaster: ToastProvider

    ghost predicate Valid()
      reads this
    {
      AllText(messages)
    }

    constructor (toaster: ToastProvider)
      ensures Valid()
      ensures query == "" && messages == [] && !isLoading && this.toaster == toaster
    {
      query := "";
      messages := [];
      isLoading := false;
      this.toaster := toaster;
    }

    /** `messages.length > 0 || isLoading`: the chat overlay is shown. */
    predicate PanelVisible()
      reads this
    {
      |messages| > 0 || isLoading
    }

    /** The reset button is enabled (`disabled={isLoading}`). */
    predicate ResetEnabled()
      reads this
    {
      !isLoading
    }

    /** The send button is enabled (`disabled={!query.trim() || isLoading}`). */
    predicate SendEnabled()
      reads this
    {
      CanSubmit(query, isLoading)
    }

    /** The input's `onChange`. */
    method SetQuery(value: string)
      modifies this
      ensures query == value && messages == old(messages) && isLoading == old(isLoading)
    {
      query := value;
    }

    /** `handleSubmit` up to the request. A blank query, or a submit while a
        request is in flight, changes nothing and sends nothing. Otherwise the
        query is cleared, the trimmed query is appended as the user's entry,
        loading is set and the trimmed query is what is sent. */
    method BeginSubmit() returns (request: Option<string>)
      requires Valid()
      modifies this
      ensures Valid()
      ensures !CanSubmit(old(query), old(isLoading)) ==>
        && request == None
        && query == old(query) && messages == old(messages) && isLoading == old(isLoading)
      ensures CanSubmit(old(query), old(isLoading)) ==>
        && request == Some(Trim(old(query)))
        && query == ""
        && messages == old(messages) + [UserMessage(old(query))]
        && isLoading
        && PanelVisible()
    {
      var trimmedQuery := Trim(query);
      if trimmedQuery == "" || isLoading {
        return None;
      }
      var entry := UserMessage(query);
      query := "";
      messages := messages + [entry];
      isLoading := true;
      request := Some(trimmedQuery);
    }

    /** `handleSubmit` after the request. Exactly one assistant entry is
        appended: the reply text on success, the fixed apology on failure,
        which also raises one error toast with the server's message or the
        fallback. Loading ends either way. */
    method CompleteSubmit(outcome: Outcome, stringify: Json -> string)
      requires Valid() && toaster.Valid()
      modifies this, toaster
      ensures Valid() && toaster.Valid()
      ensures !isLoading && query == old(query)
      ensures outcome.Resolved? ==>
        && messages == old(messages) + [ChatMessage(Assistant, Str(ReplyText(outcome.body, stringify)))]
        && unchanged(toaster)
      ensures outcome.Rejected? ==>
        && messages == old(messages) + [ChatMessage(Assistant, Str(ErrorReply))]
        && toaster.toasts == old(toaster.toasts)
             + [Toast(old(toaster.nextId), FailureText(outcome.serverMessage, FailedToastText), Error)]
    {
      if outcome.Resolved? {
        var text := ReplyText(outcome.body, stringify);
        messages := messages + [ChatMessage(Assistant, Str(text))];
      } else {
        var _ := toaster.AddToast(FailureText(outcome.serverMessage, FailedToastText), Error);
        messages := messages + [ChatMessage(Assistant, Str(ErrorReply))];
      }
      isLoading := false;
    }

    /** `handleResetChat`: the transcript is emptied; the panel then stays
        open only while a request is in flight. */
    method ResetChat()
      requires Valid()
      modifies this
      ensures Valid()
      ensures messages == [] && query == old(query) && isLoading == old(isLoading)
      ensures PanelVisible() <==> isLoading
    {
      messages := [];
    }
  }
}
