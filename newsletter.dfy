/** The custom newsletter form (custom-newsletter.js): a submit button, an
    email input and two message regions, one for success and one for errors.
    A submission trims and checks the address, disables the button, posts
    `{email}` to the subscription worker and, once the reply is in, shows one
    of the two regions and re-enables the button.

    The network is not modelled: `SignupForm.Submit` records the request it
    issues and `SignupForm.Complete` is handed the reply, as an abstract
    value, when the promise chain settles. */
module Newsletter {
  import opened JsText

  const WorkerUrl := "https://mailerlite-subscribe.romankenric.workers.dev"
  const JsonContentType := "application/json"
  const InvalidEmailHtml := "<div>Please enter a valid email address</div>"
  const StatusPrefix := "Server responded with status: "
  const UnknownError := "Unknown error occurred"
  const SubscribeFailed := "Failed to subscribe"

  /** A field of the parsed JSON reply. A field that is absent reads as
      Undefined; numbers are limited to integers. */
  datatype JsValue = Undefined | Null | JBool(b: bool) | JNum(n: int) | JStr(s: string)

  /** JavaScript's ToBoolean on the values above. */
  predicate Truthy(v: JsValue) {
    match v
    case Undefined => false
    case Null => false
    case JBool(b) => b
    case JNum(n) => n != 0
    case JStr(s) => s != ""
  }

  /** JavaScript's ToString on the values above. */
  function ToText(v: JsValue): (t: string)
    ensures Truthy(v) ==> t != ""
  {
    match v
    case Undefined => "undefined"
    case Null => "null"
    case JBool(b) => if b then "true" else "false"
    case JNum(n) => IntText(n)
    case JStr(s) => s
  }

  /** The body of a reply: either `response.json()` rejects (with the
      reason's message) or it yields an object with these three fields. */
  datatype Body = Unparsable(reason: string) | Json(success: JsValue, error: JsValue, message: JsValue)

  /** How the fetch settles: it rejects (network failure, with the reason's
      message) or it yields a response with an HTTP status and a body. */
  datatype Reply = NetworkError(reason: string) | Response(status: nat, body: Body)

  /** `response.ok` of the Fetch standard: a status in the range 200 to 299. */
  predicate IsOkStatus(status: nat) {
    200 <= status <= 299
  }

  /** What the promise chain ends in: the success branch, or the catch
      branch with the message of the error it caught. */
  datatype Outcome = Subscribed | Failed(reason: string)

  /** The request body of one submission, `{ email: email }`. */
  datatype Request = Post(url: string, contentType: string, email: string)

  /** The address the form accepts: non-empty and containing '@'. */
  predicate IsAcceptedEmail(email: string) {
    email != "" && '@' in email
  }

  function StatusMessage(status: nat): (m: string)
  {
    StatusPrefix + NatText(status)
  }

  /** The message of `new Error(data.error || data.message || 'Unknown error occurred')`:
      the first truthy field, as text, and the fallback when neither is. */
  function RejectionMessage(error: JsValue, message: JsValue): (m: string)
    ensures m != ""
  {
    if Truthy(error) then ToText(error)
    else if Truthy(message) then ToText(message)
    else UnknownError
  }

  /** The outcome of the promise chain for a reply. A response that is not
      ok is rejected before its body is read; an ok response whose parsed
      `success` is truthy subscribes; every other case fails. */
  function Classify(reply: Reply): (o: Outcome)
  {
    match reply
    case NetworkError(reason) => Failed(reason)
    case Response(status, body) =>
      if !IsOkStatus(status) then Failed(StatusMessage(status))
      else
        match body
        case Unparsable(reason) => Failed(reason)
        case Json(success, error, message) =>
          if Truthy(success) then Subscribed else Failed(RejectionMessage(error, message))
  }

  /** The markup the catch branch writes into the error region. */
  function ErrorHtml(reason: string): (h: string)
  {
    "<div>Error: " + (if reason != "" then reason else SubscribeFailed) + "</div>"
  }

  /** Exactly the ok responses whose parsed `success` is truthy subscribe. */
  lemma SubscribedExactly(reply: Reply)
    ensures Classify(reply) == Subscribed
        <==> reply.Response? && IsOkStatus(reply.status) && reply.body.Json? && Truthy(reply.body.success)
  {
  }

  /** A response that is not ok fails with a message that names its status,
      whatever its body holds; the status can be read back from the message. */
  lemma NotOkNamesStatus(status: nat, body: Body)
    requires !IsOkStatus(status)
    ensures Classify(Response(status, body)) == Failed(StatusMessage(status))
    ensures var m := StatusMessage(status);
      |m| > |StatusPrefix| && m[..|StatusPrefix|] == StatusPrefix
      && AllDigits(m[|StatusPrefix|..]) && DigitsValue(m[|StatusPrefix|..]) == status
  {
    var m := StatusMessage(status);
    assert m[|StatusPrefix|..] == NatText(status);
    NatTextRoundTrip(status);
  }

  /** A parsed reply whose `success` is falsy fails with its `error` when
      that is truthy, else with its `message` when that is truthy, else with
      the fallback text; its reason is never empty. */
  lemma RejectedReplyReason(status: nat, success: JsValue, error: JsValue, message: JsValue)
    requires IsOkStatus(status) && !Truthy(success)
    ensures Classify(Response(status, Json(success, error, message))) == Failed(RejectionMessage(error, message))
    ensures Truthy(error) ==> RejectionMessage(error, message) == ToText(error)
    ensures !Truthy(error) && Truthy(message) ==> RejectionMessage(error, message) == ToText(message)
    ensures !Truthy(error) && !Truthy(message) ==> RejectionMessage(error, message) == UnknownError
    ensures RejectionMessage(error, message) != ""
  {
  }

  /** The catch branch shows 'Failed to subscribe' only for a rejection whose
      own message is empty: a network error or an unparsable ok body. */
  lemma EmptyReasonOnlyFromThrown(reply: Reply)
    ensures Classify(reply) == Failed("")
        <==> (|| reply == NetworkError("")
              || (reply.Response? && IsOkStatus(reply.status) && reply.body == Unparsable("")))
  {
  }

  /** The error region always names a non-empty reason, the caught one when
      it has a message and 'Failed to subscribe' when it has none. */
  lemma ErrorHtmlShape(reason: string)
    ensures var h := ErrorHtml(reason);
      exists t :: t != "" && h == "<div>Error: " + t + "</div>"
                && (t == reason || (reason == "" && t == SubscribeFailed))
  {
    var t := if reason != "" then reason else SubscribeFailed;
    assert t != "" && ErrorHtml(reason) == "<div>Error: " + t + "</div>";
  }

  /** The state the script keeps or touches: the display of both regions,
      the error region's markup, the button's disabled flag, the input's
      value and the requests issued. */
  class SignupForm {
    /** Whether all four elements were found; when one is missing the script
        logs and attaches no listener (custom-newsletter.js:16-19). */
    const wired: bool
    var successShown: bool
    var errorShown: bool
    var errorHtml: string
    var buttonDisabled: bool
    var inputValue: string
    /** Every POST issued, oldest first. */
    var sent: seq<Request>
    /** Requests issued whose reply has not been handled yet. */
    var inFlight: nat

    /** No permanent lockout: the button is disabled only while a request
        is in flight, and every reply re-enables it. */
    ghost predicate NoLockout()
      reads this
    {
      buttonDisabled ==> inFlight > 0
    }

    /** The intended discipline: at most one request in flight, exactly
        while the button is disabled; both regions hidden meanwhile; never
        both regions shown. */
    ghost predicate Valid()
      reads this
    {
      && NoLockout()
      && inFlight <= 1
      && (buttonDisabled <==> inFlight == 1)
      && (inFlight == 1 ==> !successShown && !errorShown)
      && !(successShown && errorShown)
    }

    constructor (elementsFound: bool, initialValue: string)
      ensures wired == elementsFound && inputValue == initialValue
      ensures !successShown && !errorShown && errorHtml == "" && !buttonDisabled
      ensures sent == [] && inFlight == 0
      ensures Valid()
    {
      wired := elementsFound;
      successShown, errorShown, errorHtml := false, false, "";
      buttonDisabled := false;
      inputValue := initialValue;
      sent, inFlight := [], 0;
    }

    /** The user edits the input. */
    method Edit(v: string)
      modifies this`inputValue
      ensures inputValue == v
    {
      inputValue := v;
    }

    /** What one run of handleFormSubmit does to the state. */
    twostate predicate SubmitHandled()
      reads this
    {
      var email := Trim(old(inputValue));
      && !successShown
      && inputValue == old(inputValue)
      && if IsAcceptedEmail(email) then
           && !errorShown && errorHtml == old(errorHtml)
           && buttonDisabled
           && sent == old(sent) + [Post(WorkerUrl, JsonContentType, email)]
           && inFlight == old(inFlight) + 1
         else
           && errorShown && errorHtml == InvalidEmailHtml
           && buttonDisabled == old(buttonDisabled)
           && sent == old(sent) && inFlight == old(inFlight)
    }

    /** handleFormSubmit up to the point where it waits for the reply: hide
        both regions, then either report an invalid address or disable the
        button and issue one POST of the trimmed address. */
    method Submit()
      requires wired
      modifies this
      ensures SubmitHandled()
      ensures old(NoLockout()) ==> NoLockout()
      ensures old(Valid()) && !old(buttonDisabled) ==> Valid()
    {
      successShown := false;
      errorShown := false;
      var email := Trim(inputValue);
      if !IsAcceptedEmail(email) {
        errorHtml := InvalidEmailHtml;
        errorShown := true;
        return;
      }
      buttonDisabled := true;
      sent := sent + [Post(WorkerUrl, JsonContentType, email)];
      inFlight := inFlight + 1;
    }

    /** The then/catch/finally callbacks once the fetch settles with `reply`:
        show the success region and clear the input, or show the error
        region with the caught message; in every case re-enable the button. */
    method Complete(reply: Reply)
      requires inFlight > 0
      modifies this
      ensures inFlight == old(inFlight) - 1 && !buttonDisabled && sent == old(sent)
      ensures match Classify(reply)
        case Subscribed =>
          && successShown && inputValue == ""
          && errorShown == old(errorShown) && errorHtml == old(errorHtml)
        case Failed(reason) =>
          && errorShown && errorHtml == ErrorHtml(reason)
          && successShown == old(successShown) && inputValue == old(inputValue)
      ensures old(NoLockout()) ==> NoLockout()
      ensures old(Valid()) ==> Valid()
    {
      match Classify(reply) {
        case Subscribed =>
          successShown := true;
          inputValue := "";
        case Failed(reason) =>
          errorHtml := ErrorHtml(reason);
          errorShown := true;
      }
      buttonDisabled := false;
      inFlight := inFlight - 1;
    }

    /** A click on the submit button; a disabled button receives none. */
    method Click()
      modifies this
      ensures if old(wired && !buttonDisabled) then SubmitHandled() else unchanged(this)
      ensures old(NoLockout()) ==> NoLockout()
      ensures old(Valid()) ==> Valid()
    {
      if wired && !buttonDisabled {
        Submit();
      }
    }

    /** A key press in the email input, as written: Enter submits whether or
        not the button is disabled. */
    method KeyPress(key: string)
      modifies this
      ensures if wired && key == "Enter" then SubmitHandled() else unchanged(this)
      ensures old(NoLockout()) ==> NoLockout()
      ensures old(Valid()) && !old(buttonDisabled) ==> Valid()
    {
      if wired && key == "Enter" {
        Submit();
      }
    }

    /** A key press in the email input, with Enter ignored while the button
        is disabled, as the disabled button is meant to rule out a second
        submission while one is in flight. */
    method KeyPressGuarded(key: string)
      modifies this
      ensures if old(wired && !buttonDisabled) && key == "Enter" then SubmitHandled() else unchanged(this)
      ensures old(NoLockout()) ==> NoLockout()
      ensures old(Valid()) ==> Valid()
    {
      if wired && key == "Enter" && !buttonDisabled {
        Submit();
      }
    }
  }

  /** The sample address has no white space to trim. */
  lemma SampleAddressTrimmed()
    ensures Trim("a@b.com") == "a@b.com"
  {
    TrimOfFramed([], "a@b.com", []);
    assert [] + "a@b.com" + [] == "a@b.com";
  }

  /** As written, Enter pressed twice on a valid address issues two
      requests; if the first subscribes and the second fails to connect,
      the success and the error region are shown together. */
  method EnterTwiceShowsBoth() returns (successShown: bool, errorShown: bool, requests: nat)
    ensures successShown && errorShown && requests == 2
  {
    SampleAddressTrimmed();
    var form := new SignupForm(true, "a@b.com");
    form.KeyPress("Enter");
    form.KeyPress("Enter");
    form.Complete(Response(200, Json(JBool(true), Undefined, Undefined)));
    form.Complete(NetworkError("Failed to fetch"));
    successShown, errorShown, requests := form.successShown, form.errorShown, |form.sent|;
  }

  /** As written, an Enter press with an emptied input while a request is
      in flight shows the invalid-address error; when that request then
      subscribes, the success and the error region are shown together. */
  method InvalidEnterDuringFlightShowsBoth() returns (successShown: bool, errorShown: bool, requests: nat)
    ensures successShown && errorShown && requests == 1
  {
    SampleAddressTrimmed();
    var form := new SignupForm(true, "a@b.com");
    form.KeyPress("Enter");
    form.Edit("");
    form.KeyPress("Enter");
    form.Complete(Response(200, Json(JBool(true), Undefined, Undefined)));
    successShown, errorShown, requests := form.successShown, form.errorShown, |form.sent|;
  }

  /** With Enter ignored while the button is disabled, the same presses
      issue a single request and the one reply shows a single region. */
  method EnterTwiceGuarded() returns (successShown: bool, errorShown: bool, requests: nat)
    ensures successShown && !errorShown && requests == 1
  {
    SampleAddressTrimmed();
    var form := new SignupForm(true, "a@b.com");
    form.KeyPressGuarded("Enter");
    form.KeyPressGuarded("Enter");
    form.Complete(Response(200, Json(JBool(true), Undefined, Undefined)));
    successShown, errorShown, requests := form.successShown, form.errorShown, |form.sent|;
  }
}
