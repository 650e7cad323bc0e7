# Consulting website: contact form, notification queue and chat widgets

This project models the small pieces of sequential logic in a React
marketing website. The rest of the site is markup.

- **The contact form** (`ContactForm`). This covers:
  - the validator `validateForm`, as a function from the five-field record to a map from field to message;
  - the component state `form`, `errors` and `isSubmitting`;
  - `handleChange`;
  - `handleSubmit`, split at its `await` into `BeginSubmit` (validate, then either reject or yield the trimmed payload) and `CompleteSubmit` (what follows once the request has an outcome).
- **The notification queue** (`ToastContext`). `ToastProvider` is a class holding the ordered list of toasts:
  - `AddToast` appends a toast;
  - `RemoveToast` (the close button) and `Expire` (the timer that `addToast` schedules) filter the list by id;
  - `UseToast` is the provider check.
- **The two chat widgets** (`Hero` and `AISearchBox`, with what they share in `Chat`). Each is a class with `query`, `messages` and `isLoading`. The submit handler is split the same way: `BeginSubmit` runs the guard and the optimistic append, and `CompleteSubmit` appends exactly one assistant entry. Each widget keeps its own reading of the webhook's reply:
  - the hero panel takes `output`, then `response`, then `answer`, then the body, and stringifies anything that is not a string;
  - the search box takes `response`, then `answer`, then the stringified body, and stores a non-string property as it is.

  `ReplyPrecedence` compares the two readings.
- **Shared helpers.**
  - `JsString`: `trim`, the class `\s`, `replace(/\s/g, '')` and `length` in UTF-16 code units.
  - `Wire`: the JavaScript value a response body parses to, `?.`, `??`, the outcome of one request, and `err.response?.data?.message || fallback`.
  - `Wrappers`: `Option` and `Result`.

Three details of the code are easy to misread, and the model keeps them as written:

- **The service field.** The drop-down offers only the `SERVICES` entries and an empty option (`ContactForm.jsx:232-237`), but `validateForm` rejects only the empty string (`ContactForm.jsx:35`). It does not trim the service and does not look it up in `SERVICES`. `ServiceNotCheckedAgainstList` states this.
- **Which value each check sees.** The emptiness and length checks and the payload use the trimmed fields, but the e-mail pattern is matched against the untrimmed value (`ContactForm.jsx:32`), so an address with surrounding spaces is rejected (`EmailWithSurroundingSpaceRejected`). The phone pattern is matched against the value with all whitespace removed (`ContactForm.jsx:34`), and `service` is never trimmed.
- **No busy guard in the contact form.** `handleSubmit` does not check `isSubmitting`; only the button is disabled while a submission is in flight. `BeginSubmit` has no such guard either, and `SubmitEnabled` states when the button is enabled.

The model treats the two patterns as follows:

- **The e-mail pattern** `/^[^\s@]+@[^\s@]+\.[^\s@]+$/`:
  - `IsValidEmail` is a character-level check read at the first `@`;
  - `EmailCheckIsPattern` proves it equal to the decomposition `A "@" B "." C`, with `A`, `B` and `C` non-empty runs of `[^\s@]`.
- **The phone pattern** `/^[\d\s\-\+\(\)]{10,}$/`:
  - `IsValidPhone` applies the pattern after whitespace is stripped;
  - `PhoneCheckMeaning` proves that it asks for at least ten characters, each a digit or one of `+ - ( )`.

Whitespace is the concrete ECMAScript set of white-space and line-terminator
code points (sections 12.2 and 12.3 of ECMA-262), the same set for `trim`
and `\s`. JavaScript `length` counts UTF-16 code units: a code point outside
the Basic Multilingual Plane counts two.

Toast ids come from a counter `nextId` and are never reused. `pending` is the
set of ids whose expiry timer has been scheduled and has not fired yet.

`JSON.stringify` is a parameter `stringify: Json -> string` about which
nothing is assumed. The network is replaced by an `Outcome` value:
`Resolved(body)` or `Rejected(serverMessage)`.

## Model

| member | source | states |
|---|---|---|
| JsString.Trim | src/components/ContactForm.jsx:29 | `trim` is empty exactly when the string is all whitespace, and otherwise neither starts nor ends with whitespace |
| JsString.TrimStart | src/components/ContactForm.jsx:29 | the result is a suffix of the input, and everything dropped before it is whitespace |
| JsString.TrimEnd | src/components/ContactForm.jsx:29 | the result is a prefix of the input, and everything dropped after it is whitespace |
| JsString.TrimOfUntrimmable | src/components/ContactForm.jsx:69-73 | a string neither starting nor ending with whitespace is its own trim |
| JsString.TrimIdempotent | src/components/ContactForm.jsx:69-73 | trimming twice is trimming once |
| JsString.StripWhitespace | src/components/ContactForm.jsx:34 | `replace(/\s/g, '')` leaves no whitespace and never lengthens the string |
| JsString.StripNoWhitespace | src/components/ContactForm.jsx:34 | stripping a string without whitespace leaves it as it is |
| JsString.StripConcat | src/components/ContactForm.jsx:34 | stripping distributes over concatenation |
| JsString.StripAllWhitespace | src/components/ContactForm.jsx:34 | stripping an all-whitespace string leaves the empty string |
| JsString.StripTrimStart | src/components/ContactForm.jsx:34 | stripping after removing leading whitespace is the same as stripping |
| JsString.StripTrimEnd | src/components/ContactForm.jsx:34 | stripping after removing trailing whitespace is the same as stripping |
| JsString.StripTrim | src/components/ContactForm.jsx:71 | stripping the trimmed phone is the same as stripping the phone as typed |
| JsString.Utf16Length | src/components/ContactForm.jsx:30 | `length` lies between the number of code points and twice that, and is 0 exactly for the empty string |
| JsString.Utf16LengthOfBmp | src/components/ContactForm.jsx:34 | for Basic Multilingual Plane text, `length` is the number of characters |
| Wire.Get | src/components/Hero.jsx:42 | `data?.key` is `undefined` for a non-object and for a missing key |
| Wire.Coalesce | src/components/Hero.jsx:42 | the definition of `a ?? b`: `a` unless `a` is `null` or `undefined`, and `b` then; its use in the reply chains is characterised by `Hero.ReplyValueIsFirstPresent` and `AISearchBox.ReplyIsFirstPresent` |
| Wire.FailureText | src/components/ContactForm.jsx:81 | the server's message when it is a non-empty string, the fallback otherwise; non-empty whenever the fallback is |
| ToastContext.RemoveById | src/context/ToastContext.jsx:17-19 | the filter keeps exactly the toasts whose id differs and never lengthens the list |
| ToastContext.RemoveKeepsOrder | src/context/ToastContext.jsx:18 | the remaining toasts keep their relative order |
| ToastContext.RemoveAbsent | src/context/ToastContext.jsx:17-19 | removing an id that no toast carries changes nothing |
| ToastContext.RemoveIdempotent | src/context/ToastContext.jsx:12-14 | after a removal the id is gone and a second removal (the timer after a dismissal) is a no-op |
| ToastContext.RemoveCommutes | src/context/ToastContext.jsx:13 | removals of two ids give the same list in either order |
| ToastContext.RemoveDistinctCount | src/context/ToastContext.jsx:18 | with distinct ids a removal takes away exactly one toast when the id is present and none otherwise |
| ToastContext.RemoveKeepsDistinct | src/context/ToastContext.jsx:18 | removal keeps the ids distinct |
| ToastContext.SubsequenceKeepsDistinct | src/context/ToastContext.jsx:18 | an order-preserving sublist of a list with distinct ids has distinct ids |
| ToastContext.SubsequenceMembers | src/context/ToastContext.jsx:18 | every toast of an order-preserving sublist is in the list |
| ToastContext.ToastProvider.constructor | src/context/ToastContext.jsx:7 | the provider starts with no toasts and no pending timers |
| ToastContext.ToastProvider.AddToast | src/context/ToastContext.jsx:9-15 | exactly one toast is appended at the end with a fresh id and the given message and type (`Info` by default), and its expiry timer is scheduled; ids stay distinct |
| ToastContext.ToastProvider.RemoveToast | src/context/ToastContext.jsx:17-19 | the list becomes its filter by id; the pending timers are not cancelled |
| ToastContext.ToastProvider.Expire | src/context/ToastContext.jsx:12-14 | the timer's callback applies the same filter as `RemoveToast`, and the timer is no longer pending |
| ToastContext.UseToast | src/context/ToastContext.jsx:42-48 | the definition of the provider check: the context value when a provider is present, the error "useToast must be used within ToastProvider" exactly when it is not |
| ContactForm.Form.With | src/components/ContactForm.jsx:49 | `{ ...prev, [name]: value }` sets the named field and keeps every other |
| ContactForm.IsValidEmail | src/components/ContactForm.jsx:32 | the definition of the e-mail test, read at the first `@`; characterised by `EmailCheckIsPattern` |
| ContactForm.IsValidPhone | src/components/ContactForm.jsx:34 | the definition of the phone test on the whitespace-stripped value, counting UTF-16 code units; characterised by `PhoneCheckMeaning` |
| ContactForm.NameError | src/components/ContactForm.jsx:29-30 | the definition of the name rule; characterised by `NameErrorMeaning` and `NameRule` |
| ContactForm.EmailError | src/components/ContactForm.jsx:31-32 | the definition of the e-mail rule; characterised by `EmailErrorMeaning` and `EmailRule` |
| ContactForm.PhoneError | src/components/ContactForm.jsx:33-34 | the definition of the phone rule; characterised by `PhoneErrorMeaning` and `PhoneRule` |
| ContactForm.ServiceError | src/components/ContactForm.jsx:35 | the definition of the service rule; characterised by `ServiceRule` |
| ContactForm.MessageError | src/components/ContactForm.jsx:36-37 | the definition of the message rule; characterised by `MessageErrorMeaning` and `MessageRule` |
| ContactForm.Validate | src/components/ContactForm.jsx:27-39 | the definition of `validateForm`: the fold of the five rules in field order; characterised by `ValidateEntry`, `ValidateMeaning` and `AcceptedIffEveryRulePasses` |
| ContactForm.IndexOf | src/components/ContactForm.jsx:32 | the position of the first occurrence of a character, or none when it does not occur |
| ContactForm.EmailCheckIsPattern | src/components/ContactForm.jsx:32 | the character-level e-mail check holds exactly when the string is `A "@" B "." C` with non-empty runs of `[^\s@]` |
| ContactForm.PhoneCheckMeaning | src/components/ContactForm.jsx:34 | the phone test holds exactly when the stripped value has at least ten characters, all digits or `+ - ( )` |
| ContactForm.CheckFieldsEntry | src/components/ContactForm.jsx:27-39 | after checking a list of fields, a field has an entry exactly when it was checked and its rule produced a message, and the entry is that message |
| ContactForm.ValidateEntry | src/components/ContactForm.jsx:27-39 | each field has an entry exactly when its own rule yields a message, and the entry is that message |
| ContactForm.EntriesOf | src/components/ContactForm.jsx:27-39 | the entry of each of the five fields, by its own rule |
| ContactForm.AcceptedIffEveryRulePasses | src/components/ContactForm.jsx:56 | the error map is empty exactly when all five rules pass |
| ContactForm.ValidateMeaning | src/components/ContactForm.jsx:27-39 | each field has an entry exactly when it breaks its rule, stated without the validator's branches: trimmed name under 2, e-mail not matching the pattern, phone not accepted, empty service, trimmed message under 10 |
| ContactForm.NameErrorMeaning | src/components/ContactForm.jsx:29-30 | the name rule fails exactly when the trimmed name is shorter than 2 |
| ContactForm.EmailErrorMeaning | src/components/ContactForm.jsx:31-32 | the e-mail rule fails exactly when the value does not match the pattern |
| ContactForm.PhoneErrorMeaning | src/components/ContactForm.jsx:33-34 | the phone rule fails exactly when the value is blank or its stripped form is not ten or more digits or `+ - ( )` |
| ContactForm.MessageErrorMeaning | src/components/ContactForm.jsx:36-37 | the message rule fails exactly when the trimmed message is shorter than 10 |
| ContactForm.NameRule | src/components/ContactForm.jsx:29-30 | trimmed length 0 gives "Name is required", 1 gives "must be at least 2 characters", 2 or more gives no entry |
| ContactForm.EmailRule | src/components/ContactForm.jsx:31-32 | "Email is required" exactly when the trimmed e-mail is empty; otherwise "Please enter a valid email" exactly when the untrimmed value misses the pattern |
| ContactForm.EmailWithSurroundingSpaceRejected | src/components/ContactForm.jsx:32 | an e-mail with whitespace at either end always has an entry |
| ContactForm.PhoneRule | src/components/ContactForm.jsx:33-34 | a blank phone is "required"; otherwise it passes exactly when the stripped value has ten or more characters, all digits or `+ - ( )`, and fails with "Please enter a valid phone number" |
| ContactForm.ServiceRule | src/components/ContactForm.jsx:35 | the service has an entry exactly when it is the empty string, and the entry is "Please select a service" |
| ContactForm.ServiceNotCheckedAgainstList | src/components/ContactForm.jsx:35 | a service outside `SERVICES` (a single space) passes |
| ContactForm.MessageRule | src/components/ContactForm.jsx:36-37 | trimmed length 0 gives "Message is required", 1 to 9 gives "must be at least 10 characters", 10 or more gives no entry |
| ContactForm.FieldsIndependent | src/components/ContactForm.jsx:27-39 | two records that agree on a field get the same verdict on it |
| ContactForm.Payload | src/components/ContactForm.jsx:68-74 | the definition of the posted body: name, e-mail, phone and message trimmed, the service passed through untrimmed; `PayloadStaysValid` states what it preserves |
| ContactForm.MatchingEmailIsTrimmed | src/components/ContactForm.jsx:70 | an address that matches the pattern is unchanged by trimming |
| ContactForm.PhoneAcceptedAfterTrim | src/components/ContactForm.jsx:71 | a phone the rule accepts is still accepted once trimmed |
| ContactForm.PayloadStaysValid | src/components/ContactForm.jsx:68-74 | a record that passes validation still passes once trimmed into the payload |
| ContactForm.Component.HasError | src/components/ContactForm.jsx:50 | the definition of `errors[name]` being truthy: an entry that is not the empty string; `HandleChange` states how it changes |
| ContactForm.Component.SubmitEnabled | src/components/ContactForm.jsx:273 | the definition of the submit button being enabled (`disabled={isSubmitting}`); `BeginSubmit` and `CompleteSubmit` state how `isSubmitting` changes |
| ContactForm.Component.constructor | src/components/ContactForm.jsx:42-44 | the form starts as `initialForm`, with no errors and not submitting |
| ContactForm.Component.HandleChange | src/components/ContactForm.jsx:47-51 | only the named field changes; its error is blanked only if one was shown; other fields, errors and `isSubmitting` are unchanged |
| ContactForm.Component.BeginSubmit | src/components/ContactForm.jsx:53-64 | an invalid record stores the validator's map, raises exactly one "Please fix the form errors." error toast and sends nothing; a valid one clears the errors, sets `isSubmitting` and sends the trimmed payload; the form is unchanged either way |
| ContactForm.Component.CompleteSubmit | src/components/ContactForm.jsx:77-86 | success resets the form to `initialForm` with one success toast; failure keeps the form and raises one error toast with the server's message or the fallback; `isSubmitting` ends false |
| ContactFormExamples.InitialFormAllRequired | src/components/ContactForm.jsx:19-39 | the initial form fails all five fields with their "required" messages |
| ContactFormExamples.DigitsAreDigits | src/components/ContactForm.jsx:34 | a digit string has only digits |
| ContactFormExamples.DigitsPhoneValid | src/components/ContactForm.jsx:34 | ten or more digits pass the phone test |
| ContactFormExamples.ExampleName | src/components/ContactForm.jsx:29-30 | "Al" passes the name rule |
| ContactFormExamples.ExampleShortName | src/components/ContactForm.jsx:30 | "A" is too short |
| ContactFormExamples.ExampleEmailShape | src/components/ContactForm.jsx:32 | "a@b.co" matches the e-mail pattern |
| ContactFormExamples.ExampleEmail | src/components/ContactForm.jsx:31-32 | "a@b.co" passes the e-mail rule |
| ContactFormExamples.ExamplePhone | src/components/ContactForm.jsx:33-34 | "9876543210" passes the phone rule |
| ContactFormExamples.ExampleMessage | src/components/ContactForm.jsx:36-37 | "1234567890" passes the message rule |
| ContactFormExamples.AcceptedExample | src/components/ContactForm.jsx:27-39 | `{Al, a@b.co, 9876543210, Other, 1234567890}` has no errors |
| ContactFormExamples.OnlyNameRejected | src/components/ContactForm.jsx:27-39 | when only the name breaks its rule, its message is the map's only entry |
| ContactFormExamples.ShortNameExample | src/components/ContactForm.jsx:30 | the same record with name "A" has only the "at least 2 characters" entry |
| Chat.CanSubmit | src/components/Hero.jsx:31 | the definition of the submit guard being passed (the query trims to a non-empty string and no request is in flight), shared with src/components/AISearchBox.jsx:23; `BlankOrBusyNotSent` and the two `BeginSubmit` methods state its effect |
| Chat.BlankOrBusyNotSent | src/components/Hero.jsx:30-31 | an all-whitespace query, or any query while loading, does not get past the guard |
| Chat.UserMessage | src/components/Hero.jsx:34 | the user's entry holds the trimmed query: non-empty, with no whitespace at either end |
| Chat.FirstPresent | src/components/Hero.jsx:42 | the value of the first key whose property is neither `null` nor `undefined`, with every earlier key nullish; none exactly when all are |
| Chat.NothingPresentOutsideObjects | src/components/Hero.jsx:42 | a body that is not an object has no property to find |
| Hero.ReplyValue | src/components/Hero.jsx:42 | the definition of the `??` chain over `output`, `response`, `answer` and the body; characterised by `ReplyValueIsFirstPresent` |
| Hero.ReplyText | src/components/Hero.jsx:42-43 | the definition of the displayed text; characterised by `ReplyTextMeaning` |
| Hero.ReplyValueIsFirstPresent | src/components/Hero.jsx:42 | a string body is taken as it is; otherwise the first present of `output`, `response`, `answer`, else the whole body |
| Hero.ReplyTextMeaning | src/components/Hero.jsx:42-43 | the displayed text is that value when a string and its stringification otherwise |
| Hero.OutputTakesPrecedence | src/components/Hero.jsx:42 | a present `output` wins over `response` and `answer` |
| Hero.EmptyOutputKept | src/components/Hero.jsx:42-43 | an empty-string `output` is shown as the empty string, because `??` does not skip it |
| Hero.BodyStringifiedWhenNothingPresent | src/components/Hero.jsx:42-43 | with none of the three properties present, the whole body is stringified |
| Hero.PresentNonStringStringified | src/components/Hero.jsx:43 | a present non-string property is stringified |
| Hero.OutputExample | src/components/Hero.jsx:42-43 | `{ output: "hi2" }` is shown as `hi2` |
| Hero.Component.PanelVisible | src/components/Hero.jsx:116 | the definition of the panel being shown (a non-empty transcript, or a request in flight); `BeginSubmit` and `ResetChat` state when it holds |
| Hero.Component.ResetEnabled | src/components/Hero.jsx:144 | the definition of the reset button being enabled (`disabled={isLoading}`) |
| Hero.Component.SendEnabled | src/components/Hero.jsx:211 | the definition of the send button being enabled (disabled when the query trims to empty or a request is in flight): exactly `CanSubmit`, so `BeginSubmit` does something exactly when the button is enabled |
| Hero.Component.constructor | src/components/Hero.jsx:10-12 | empty query, empty transcript, not loading |
| Hero.Component.SetQuery | src/components/Hero.jsx:203 | the input sets the query and nothing else |
| Hero.Component.BeginSubmit | src/components/Hero.jsx:28-35 | a blank query or a busy panel changes nothing and sends nothing; otherwise the query is cleared, the trimmed query is appended as the last entry, loading is set, the panel is visible and the trimmed query is sent |
| Hero.Component.CompleteSubmit | src/components/Hero.jsx:37-50 | exactly one assistant entry is appended (the reply text on success, the fixed apology on failure, which also raises one error toast with the server's message or the fallback); loading ends; every entry stays a string |
| Hero.Component.ResetChat | src/components/Hero.jsx:24-26 | the transcript becomes empty and the panel stays visible exactly while loading |
| AISearchBox.Reply | src/components/AISearchBox.jsx:35 | the definition of the stored reply; characterised by `ReplyIsFirstPresent` |
| AISearchBox.ReplyIsFirstPresent | src/components/AISearchBox.jsx:35 | a string body verbatim; otherwise the first present of `response`, `answer`, else the stringified body |
| AISearchBox.OutputIgnored | src/components/AISearchBox.jsx:35 | adding or changing `output` does not change the reply when `response` is present |
| AISearchBox.NonStringPassedThrough | src/components/AISearchBox.jsx:35-36 | a present non-string `response` or `answer` is stored as it is |
| AISearchBox.BodyStringifiedWhenNothingPresent | src/components/AISearchBox.jsx:35 | with neither property present the stored reply is the stringified body |
| AISearchBox.ResponseExamples | src/components/AISearchBox.jsx:35 | `{ response: "hi" }` gives `"hi"`, `{ response: 5 }` gives the number 5 |
| AISearchBox.Component.ShowsPrompt | src/components/AISearchBox.jsx:71 | the definition of the empty-state prompt being shown (`messages.length === 0 && !isLoading`); `BeginSubmit` states that a send hides it |
| AISearchBox.Component.SendEnabled | src/components/AISearchBox.jsx:151 | the definition of the send button being enabled: exactly `CanSubmit` |
| AISearchBox.Component.constructor | src/components/AISearchBox.jsx:9-11 | empty query, empty transcript, not loading |
| AISearchBox.Component.SetQuery | src/components/AISearchBox.jsx:141 | the input sets the query and nothing else |
| AISearchBox.Component.BeginSubmit | src/components/AISearchBox.jsx:20-27 | a blank query or a busy box changes nothing and sends nothing; otherwise the query is cleared, the trimmed query is appended, loading is set and the empty-state prompt is hidden |
| AISearchBox.Component.CompleteSubmit | src/components/AISearchBox.jsx:29-42 | exactly one assistant entry is appended (the reply as stored on success, the fixed apology and one error toast on failure); loading ends |
| ReplyPrecedence.PrecedenceDiffers | src/components/Hero.jsx:42 | with both `output` and `response` set, the hero shows `output` and the search box `response` |
| ReplyPrecedence.AgreeWithoutOutput | src/components/AISearchBox.jsx:35 | without `output`, the two widgets agree whenever the property found is a string |

## Left out

- The network. The `axios.post` calls, the webhook URLs, the headers, the 15 s and 60 s timeouts and the HTTP status rules are replaced by an `Outcome` given to `CompleteSubmit`.
- `err.response?.data?.message`: the model carries only an optional string. A truthy non-string value there, which the source would pass to the toast as it is, is not modelled.
- Timers. `setTimeout` and the 5000 ms default `duration` are modelled as the explicit event `Expire`; the duration parameter is not carried. Toast.jsx's own timer and close button reach `removeToast`, which is `RemoveToast` here. Toast.jsx itself is not part of this model.
- Toast ids. `Date.now() + Math.random()` is replaced by a counter, so fresh ids are guaranteed rather than only very likely.
- ToastContext.UseToast: the context value is given as an `Option`; React's context lookup is not modelled.
- `JSON.stringify` is an arbitrary function. Its output format, and the fact that it returns `undefined` for `undefined`, are not modelled.
- Numbers in a response body are integers; floating point is not modelled.
- React's scheduling. State updates take effect at once and in program order; batching and functional-update ordering are not modelled. A reply arriving after `ResetChat` is still appended, as in the source.
- JsString.Trim: its own contract states only the length bound, when the result is empty and that it neither starts nor ends with whitespace. That the result is the untouched middle of the input is stated by the contracts of `TrimStart` and `TrimEnd`, of which `Trim` is the composition.
- Lone UTF-16 surrogates. Dafny strings hold Unicode scalar values, so a JavaScript string containing an unpaired surrogate has no counterpart.
- Scrolling (`scrollIntoView`), refs, animation and styling, and the markup files Button.jsx, Card.jsx, About.jsx and App.jsx, which hold no stateful logic.
- The reset button's `disabled={isLoading}` (src/components/Hero.jsx:144) is the predicate `Hero.Component.ResetEnabled`. `ResetChat` does not require it, because `handleResetChat` itself does not check `isLoading`.
