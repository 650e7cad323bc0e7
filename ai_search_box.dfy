/**
 * The AI search box: the same transcript state and two-phase submit as the
 * hero's chat panel, with its own reading of the webhook's reply.
 */
module AISearchBox {
  import opened Wrappers
  import opened JsString
  import opened Wire
  import opened ToastContext
  import opened Chat

  /** The properties the search box looks for, in order; `output` is not
      among them. */
  const ReplyKeys: seq<string> := ["response", "answer"]

  /** `typeof data === 'string' ? data : data?.response ?? data?.answer ??
      JSON.stringify(data)`, with `JSON.stringify` given as `stringify`. The
      result is stored as it is, so a non-string property stays a non-string. */
  function Reply(data: Json, stringify: Json -> string): Json {
    if data.Str? then data
    else Coalesce(Get(data, "response"), Coalesce(Get(data, "answer"), Str(stringify(data))))
  }

  /** A string body verbatim; otherwise the first present property among
      `response` and `answer`, unconverted, or else the stringified body. */
  lemma ReplyIsFirstPresent(data: Json, stringify: Json -> string)
    ensures data.Str? ==> Reply(data, stringify) == data
    ensures !data.Str? ==>
      Reply(data, stringify) == FirstPresent(data, ReplyKeys).GetOr(Str(stringify(data)))
  {
    if !data.Str? {
      calc {
        FirstPresent(data, ReplyKeys);
        { assert ReplyKeys[1..] == ["answer"]; }
        if !IsNullish(Get(data, "response")) then Some(Get(data, "response"))
        else FirstPresent(data, ["answer"]);
        { assert ["answer"][1..] == []; }
        if !IsNullish(Get(data, "response")) then Some(Get(data, "response"))
        else if !IsNullish(Get(data, "answer")) then Some(Get(data, "answer"))
        else None;
      }
    }
  }

  /** `output` plays no part: two bodies that differ only in `output` get the
      same reply unless the fallback stringifies the body itself. */
  lemma OutputIgnored(props: map<string, Json>, v: Json, stringify: Json -> string)
    requires "response" in props && !IsNullish(props["response"])
    ensures Reply(Obj(props["output" := v]), stringify) == Reply(Obj(props), stringify)
  {
    assert Get(Obj(props["output" := v]), "response") == props["response"];
  }

  /** A present `response` or `answer` that is not a string is stored as it
      is, with no stringification. */
  lemma NonStringPassedThrough(data: Json, stringify: Json -> string)
    requires !data.Str? && FirstPresent(data, ReplyKeys).Some?
    ensures Reply(data, stringify) == FirstPresent(data, ReplyKeys).value
  {
    ReplyIsFirstPresent(data, stringify);
  }

  /** When neither property is present the stored reply is the stringified
      body, which is always a string. */
  lemma BodyStringifiedWhenNothingPresent(data: Json, stringify: Json -> string)
    requires !data.Str? && IsNullish(Get(data, "response")) && IsNullish(Get(data, "answer"))
    ensures Reply(data, stringify) == Str(stringify(data))
  {
  }

  /** `{ response: "hi" }` is shown as `hi`; `{ response: 5 }` is stored as
      the number 5. */
  lemma ResponseExamples(stringify: Json -> string)
    ensures Reply(Obj(map["response" := Str("hi")]), stringify) == Str("hi")
    ensures Reply(Obj(map["response" := Num(5)]), stringify) == Num(5)
  {
    assert Get(Obj(map["response" := Str("hi")]), "response") == Str("hi");
    assert Get(Obj(map["response" := Num(5)]), "response") == Num(5);
  }

  /** The component's state and its handlers. */
  class Component {
    var query: string
    var messages: seq<ChatMessage>
    var isLoading: bool
    /** The value `useToast()` returned. */
    const toaster: ToastProvider

    constructor (toaster: ToastProvider)
      ensures query == "" && messages == [] && !isLoading && this.toaster == toaster
    {
      query := "";
      messages := [];
      isLoading := false;
      this.toaster := toaster;
    }

    /** `messages.length === 0 && !isLoading`: the empty-state prompt is
        shown instead of a transcript. */
    predicate ShowsPrompt()
      reads this
    {
      |messages| == 0 && !isLoading
    }

    /** The send button is enabled (`disabled={!query.trim() || isLoading}`). */
    predicate SendEnabled()
      reads this
    {
      CanSubmit(query, isLoading)
    }

    /** The input's `onChange`. */
    method SetQuery(value: string)
      modifies this
      ensures query == value && messages == old(messages) && isLoading == old(isLoading)
    {
      query := value;
    }

    /** `handleSubmit` up to the request: nothing happens for a blank query or
        while loading; otherwise the query is cleared, the trimmed query is
        appended as the user's entry and loading is set. */
    method BeginSubmit() returns (request: Option<string>)
      modifies this
      ensures !CanSubmit(old(query), old(isLoading)) ==>
        && request == None
        && query == old(query) && messages == old(messages) && isLoading == old(isLoading)
      ensures CanSubmit(old(query), old(isLoading)) ==>
        && request == Some(Trim(old(query)))
        && query == ""
        && messages == old(messages) + [UserMessage(old(query))]
        && isLoading
        && !ShowsPrompt()
    {
      var trimmedQuery := Trim(query);
      if trimmedQuery == "" || isLoading {
        return None;
      }
      var entry := UserMessage(query);
      query := "";
      messages := messages + [entry];
      isLoading := true;
      request := Some(trimmedQuery);
    }

    /** `handleSubmit` after the request: exactly one assistant entry, the
        reply on success, the fixed apology plus one error toast on failure;
        loading ends either way. */
    method CompleteSubmit(outcome: Outcome, stringify: Json -> string)
      requires toaster.Valid()
      modifies this, toaster
      ensures toaster.Valid()
      ensures !isLoading && query == old(query)
      ensures outcome.Resolved? ==>
        && messages == old(messages) + [ChatMessage(Assistant, Reply(outcome.body, stringify))]
        && unchanged(toaster)
      ensures outcome.Rejected? ==>
        && messages == old(messages) + [ChatMessage(Assistant, Str(ErrorReply))]
        && toaster.toasts == old(toaster.toasts)
             + [Toast(old(toaster.nextId), FailureText(outcome.serverMessage, FailedToastText), Error)]
    {
      if outcome.Resolved? {
        var responseText := Reply(outcome.body, stringify);
        messages := messages + [ChatMessage(Assistant, responseText)];
      } else {
        var _ := toaster.AddToast(FailureText(outcome.serverMessage, FailedToastText), Error);
        messages := messages + [ChatMessage(Assistant, Str(ErrorReply))];
      }
      isLoading := false;
    }
  }
}

/** The two widgets read the same webhook's reply differently. */
module ReplyPrecedence {
  import opened Wrappers
  import opened Wire
  import opened Chat
  import Hero
  import AISearchBox

  /** With both `output` and `response` set, the hero panel shows `output`
      and the search box shows `response`. */
  lemma PrecedenceDiffers(stringify: Json -> string)
    ensures var data := Obj(map["output" := Str("a"), "response" := Str("b")]);
      && Hero.ReplyText(data, stringify) == "a"
      && AISearchBox.Reply(data, stringify) == Str("b")
  {
    var data := Obj(map["output" := Str("a"), "response" := Str("b")]);
    assert Get(data, "output") == Str("a");
    assert Get(data, "response") == Str("b");
  }

  /** Without an `output`, the two agree whenever the property they find is a
      string. */
  lemma AgreeWithoutOutput(data: Json, stringify: Json -> string)
    requires IsNullish(Get(data, "output"))
    requires FirstPresent(data, AISearchBox.ReplyKeys).Some?
    requires FirstPresent(data, AISearchBox.ReplyKeys).value.Str?
    ensures AISearchBox.Reply(data, stringify) == Str(Hero.ReplyText(data, stringify))
  {
    Hero.ReplyValueIsFirstPresent(data);
    AISearchBox.ReplyIsFirstPresent(data, stringify);
    assert Hero.ReplyKeys[1..] == AISearchBox.ReplyKeys;
  }
}
