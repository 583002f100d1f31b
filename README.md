# Newsletter signup: a verified model

This Dafny project models the logic behind a landing page's newsletter signup.

**custom-newsletter.js** drives a small form. It has an email input, a submit button, a success region and an error region. Clicking the button, or pressing Enter in the input, triggers the same handler. The handler:

- hides both regions;
- trims the address and rejects it when it is empty or has no `@`;
- otherwise disables the button and posts `{email}` as JSON to a Cloudflare Worker.

When the request settles, the reply is sorted into one outcome:

- a non-ok HTTP status fails, naming the status;
- a truthy `success` in the parsed body subscribes;
- any other body fails with `error`, else `message`, else a fixed text;
- a rejected fetch or parse fails with that error's message, or `Failed to subscribe` when the message is empty.

The success outcome shows the success region and clears the input. A failure shows the error region with the message. In every case the button is enabled again.

**js/launchpad-signup.js** enhances an embedded MailerLite form:

- an email check with the pattern `^[^\s@]+@[^\s@]+\.[^\s@]+$` that lets an empty value pass and colours the input's border;
- a click gate on the submit button that refuses an invalid address with a feedback box;
- a loading state that a timeout later undoes;
- a relabel of a `Subscribe` button;
- a feedback box that replaces the previous one;
- a `ticking` flag that lets at most one parallax animation frame be pending.

Modules:

- `JsText` holds the JavaScript semantics both scripts rely on. It covers the white-space class shared by `String.prototype.trim` and the escape `\s` (the ECMAScript WhiteSpace and LineTerminator code points), `trim` itself, and the decimal text of an integer.
- `Newsletter` models custom-newsletter.js. The reply is an input value: `NetworkError(reason)`, or `Response(status, body)` whose body is `Unparsable(reason)` or `Json(success, error, message)`. `Classify` is the pure classification. `SignupForm` is a class holding the regions' display, the error markup, the disabled flag, the input value, the requests issued and the number in flight. `Submit` is the handler up to the fetch; `Complete(reply)` is the then/catch/finally callbacks.
- `Launchpad` models js/launchpad-signup.js. `IsValidEmailValue` is the verdict of `validateEmail`. `MailerLiteForm` is a class for the enhanced form's state. `ParallaxTicker` is a class for the frame throttle. Each scheduled timeout or animation frame is an event method: `OnLoadingTimeout`, `OnFeedbackExpired` or `OnAnimationFrame`.

Disabling the button is evidently meant to rule out a second submission while one is in flight. The Enter key path in custom-newsletter.js ignores the disabled button, and the model follows the code; see "## Findings". `response.ok` is derived from the status (200 to 299), as the Fetch standard defines it, rather than taken as a separate input.

## Model

| member | source | states |
|---|---|---|
| `JsText.Trim` | custom-newsletter.js:41 | the trimmed address starts and ends with no white space, and is empty exactly when the whole value is white space |
| `JsText.TrimOfFramed` | custom-newsletter.js:41 | trim removes exactly the white-space margins: white space around an already trimmed core trims to that core |
| `JsText.TrimIdempotent` | custom-newsletter.js:41 | trimming a trimmed value changes nothing |
| `JsText.NatText` | custom-newsletter.js:67 | the status is written as a non-empty string of digits with no leading zero |
| `JsText.NatTextRoundTrip` | custom-newsletter.js:67 | the decimal text of a status reads back as that status |
| `JsText.NatTextInjective` | custom-newsletter.js:67 | distinct statuses give distinct status texts |
| `Newsletter.ToText` | custom-newsletter.js:76 | a truthy field converts to non-empty text |
| `Newsletter.RejectionMessage` | custom-newsletter.js:76 | the message of a reply whose `success` is falsy is never empty |
| `Newsletter.SubscribedExactly` | custom-newsletter.js:64-77 | a reply subscribes if and only if it is an ok response whose parsed `success` is truthy |
| `Newsletter.NotOkNamesStatus` | custom-newsletter.js:64-69 | a non-ok response fails with `Server responded with status: <status>` whatever its body, and the status can be read back from that message |
| `Newsletter.RejectedReplyReason` | custom-newsletter.js:71-77 | an ok reply with falsy `success` fails with the first truthy of `error` and `message`, as text, else `Unknown error occurred`; the reason is never empty |
| `Newsletter.EmptyReasonOnlyFromThrown` | custom-newsletter.js:79-82 | the reason is empty (so `Failed to subscribe` is shown) exactly for a network error or an unparsable ok body whose message is empty |
| `Newsletter.ErrorHtmlShape` | custom-newsletter.js:81 | the error region holds `<div>Error: t</div>` where `t` is the caught message, or `Failed to subscribe` when that is empty |
| `Newsletter.SignupForm.constructor` | custom-newsletter.js:8-19 | a form with a missing element has no listeners; a new form shows neither region, has the button enabled, no request issued, and satisfies the invariant |
| `Newsletter.SignupForm.Submit` | custom-newsletter.js:35-63 | a submission hides the success region. An invalid trimmed address shows exactly the invalid-address markup, leaves the disabled flag alone and sends nothing. A valid one hides both regions, disables the button and appends exactly one POST to the worker with content type JSON and the trimmed address. The no-lockout invariant is kept, and the full invariant too when the button was enabled. |
| `Newsletter.SignupForm.Complete` | custom-newsletter.js:64-87 | a success shows the success region and clears the input; a failure shows the error region with the failure markup; every reply re-enables the button and ends one request; the invariant is kept |
| `Newsletter.SignupForm.Click` | custom-newsletter.js:22 | a click submits only on a wired form with an enabled button, and otherwise changes nothing; it keeps the invariant |
| `Newsletter.SignupForm.KeyPress` | custom-newsletter.js:25-30 | Enter submits on a wired form even when the button is disabled, and other keys change nothing; it keeps the invariant only when the button was enabled |
| `Newsletter.SignupForm.KeyPressGuarded` | custom-newsletter.js:25-30 | the corrected key handler ignores Enter while the button is disabled and keeps the invariant: at most one request in flight, and never both regions shown |
| `Newsletter.EnterTwiceShowsBoth` | custom-newsletter.js:25-30 | a concrete run as written: two Enter presses issue two requests, and a success followed by a network error leaves both regions shown |
| `Newsletter.InvalidEnterDuringFlightShowsBoth` | custom-newsletter.js:25-30 | a second concrete run as written: Enter on a valid address, then Enter on an emptied input while the request is in flight, then a success reply, leaves both regions shown after one request |
| `Newsletter.EnterTwiceGuarded` | custom-newsletter.js:25-30 | the same presses with the corrected handler issue one request, and the reply shows only the success region |
| `Launchpad.EmailPatternTestCorrect` | js/launchpad-signup.js:107-108 | the scanning test accepts a string if and only if it has the form L@D1.D2, with L, D1 and D2 non-empty and free of white space and `@` (D1 may hold dots) |
| `Launchpad.PatternPassesTest` | js/launchpad-signup.js:107-108 | every string of the form L@D1.D2 passes the test |
| `Launchpad.TestPassesPattern` | js/launchpad-signup.js:107-108 | every string that passes the test has the form L@D1.D2 |
| `Launchpad.IsValidEmailValue` | js/launchpad-signup.js:106-116 | `validateEmail` returns true if and only if the value is empty or matches the pattern |
| `Launchpad.MailerLiteForm.ValidateInput` | js/launchpad-signup.js:106-116 | the border is set to the error colour exactly when the verdict is false, and cleared otherwise |
| `Launchpad.MailerLiteForm.OnInput` | js/launchpad-signup.js:74-76 | every edit of the input re-validates it and sets the border from the new value |
| `Launchpad.MailerLiteForm.constructor` | js/launchpad-signup.js:54-96 | enhancing sets the placeholder when there is an input and relabels a `Subscribe` button; from the assumed starting markup (button enabled and not loading, no feedback box) it establishes the invariant |
| `Launchpad.RelabelIdempotent` | js/launchpad-signup.js:92-95 | the relabel gives `Join the Community` exactly to a button whose trimmed text or value is `Subscribe` (or that already had that text), and relabelling again changes nothing |
| `Launchpad.OriginalLabel` | js/launchpad-signup.js:120 | the saved label is the text when there is any, and is empty only when both text and value are |
| `Launchpad.MailerLiteForm.OnSubmitClick` | js/launchpad-signup.js:81-89 | a click on an invalid address cancels the default, shows error feedback `Please enter a valid email address` and leaves the loading state, flag and labels alone; a valid (or absent) input enters the loading state; the invariant is kept |
| `Launchpad.MailerLiteForm.AddLoadingState` | js/launchpad-signup.js:119-126 | the button becomes loading and disabled with label `Joining...`, and a restore of the original label is scheduled |
| `Launchpad.MailerLiteForm.OnLoadingTimeout` | js/launchpad-signup.js:127-134 | the timeout restores the saved label and re-enables the button only if it is still loading; under the invariant the button is enabled afterwards (no permanent lockout) |
| `Launchpad.MailerLiteForm.ShowFeedback` | js/launchpad-signup.js:145-170 | the previous feedback box is removed and, when there is a form container, exactly one box remains, carrying the given message and type |
| `Launchpad.MailerLiteForm.OnFeedbackExpired` | js/launchpad-signup.js:172-178 | the expiry removes that box if it is still present and keeps at most one box |
| `Launchpad.ParallaxTicker.constructor` | js/launchpad-signup.js:235 | `ticking` starts false with no frame pending |
| `Launchpad.ParallaxTicker.OnScroll` | js/launchpad-signup.js:250-255 | a scroll requests a frame only when `ticking` is false, so at most one frame is ever pending |
| `Launchpad.ParallaxTicker.OnAnimationFrame` | js/launchpad-signup.js:237-248 | the frame callback resets `ticking`, leaving no frame pending |

## Left out

- The network round trip is not modelled: `fetch`, the Cloudflare Worker and MailerLite. A reply is an input value, and a request is recorded as its URL, content type and email field.
- `JSON.stringify` and JSON parsing are not modelled. Parsing is reduced to the three fields the script reads.
- Reply fields that are objects, arrays or non-integer numbers are not modelled. Integers are exact in the model: JSON parsing in JavaScript rounds an integer above 2^53 to the nearest double (`9007199254740993` reads as `9007199254740992`), and an integer of 10^21 or more is printed with an exponent; the model keeps and prints the exact digits.
- A parsed body that is `null` makes `data.success` throw. That case is covered by `Unparsable(reason)`.
- `console.error` logging is left out because it has no visible effect on the page.
- `innerHTML` rendering is not modelled: the error region's markup is a plain string.
- Both message regions are assumed hidden when the page loads. The hiding is done by markup or CSS that is not part of this model.
- Both submit buttons are assumed enabled when the page loads, and the MailerLite button not loading. The MailerLite input is assumed to have no border colour set, and no `.form-feedback` element to exist. Neither script sets this starting state; it comes from the page's markup, and both no-lockout invariants rest on it.
- The `setInterval` polling for the MailerLite form and its 10-second cutoff are left out. The model starts at `enhanceMailerLiteForm`.
- The `focused` class set on focus and blur, and inline styles and injected CSS, are left out as cosmetic.
- The form's `submit` listener, `checkForSuccessMessage` and `trackConversion` are left out. They query a third-party widget and call foreign globals.
- The fade-out animation of a feedback box is not modelled. Its two delayed steps are one event, `OnFeedbackExpired`.
- MailerLite's own handling of the submission, including any removal of the `loading` class, is outside the script and not modelled.
- A disabled button receives no click, so `OnSubmitClick` does nothing then. The `pointer-events: none` of `.loading` adds nothing beyond that.
- Parallax offsets and ripple geometry are left out as floating-point pixel arithmetic. The fade-in and performance observers, smooth scroll, the skip link, keyboard-navigation classes and hover transforms are left out too.
- js/launchpad-signup-2.js is left out. It repeats the decorative code of js/launchpad-signup.js, and its `ticking` guard is the one modelled here.

## Findings

| source | as written | input that shows it | evidently intended | confidence | as-written member | corrected member |
|---|---|---|---|---|---|---|
| custom-newsletter.js:25-30 | Enter in the input calls the submit handler even while the button is disabled, so a second request can start while one is in flight; the regions are hidden only when a submission starts, so the two replies can leave both shown | valid address `a@b.com`; Enter, Enter; first reply `{success: true}` with status 200, second reply a network error | Enter, like the disabled button, starts no submission while one is in flight, so the success and error regions are never shown together | medium; not executed | `Newsletter.EnterTwiceShowsBoth` | `Newsletter.SignupForm.KeyPressGuarded` |
