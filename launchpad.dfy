/** The form enhancements of the landing page (js/launchpad-signup.js):
    the email check and its border colour, the submit-click gate, the
    relabelled submit button and its loading state, the single feedback
    box under the form, and the flag that throttles parallax frames.

    Browser timers and animation frames are not modelled as time: each
    callback the script schedules is an event method (`OnLoadingTimeout`,
    `OnFeedbackExpired`, `OnAnimationFrame`) that the environment may call
    once for each time it was scheduled. */
module Launchpad {
  import opened JsText

  const SubscribeLabel := "Subscribe"
  const CommunityLabel := "Join the Community"
  const JoiningLabel := "Joining..."
  const Placeholder := "Enter your email address"
  const InvalidEmailMessage := "Please enter a valid email address"
  const ErrorColor := "var(--color-error)"

  // ---------------------------------------------------------------------
  // validateEmail

  /** The class [^\s@] of the email pattern. */
  predicate IsAddressChar(c: char) {
    !IsJsSpace(c) && c != '@'
  }

  predicate AllAddressChars(t: string) {
    forall k :: 0 <= k < |t| ==> IsAddressChar(t[k])
  }

  /** The language of /^[^\s@]+@[^\s@]+\.[^\s@]+$/: a local part, '@', a
      first domain part, '.', a last domain part, each part non-empty and
      free of white space and '@' (so the first domain part may hold dots). */
  ghost predicate MatchesEmailPattern(s: string) {
    exists local, d1, d2 ::
      && s == local + "@" + d1 + "." + d2
      && local != [] && d1 != [] && d2 != []
      && AllAddressChars(local) && AllAddressChars(d1) && AllAddressChars(d2)
  }

  /** The index of the first '@' of `s`, or |s| when it has none. */
  function IndexOfAt(s: string): (i: nat)
    ensures i <= |s| && forall m :: 0 <= m < i ==> s[m] != '@'
    ensures i < |s| ==> s[i] == '@'
  {
    if s == [] then 0
    else if s[0] == '@' then 0
    else 1 + IndexOfAt(s[1..])
  }

  /** Whether `d` holds a '.' with at least one character on each side. */
  function HasInnerDot(d: string): bool {
    |d| >= 3 && (d[1] == '.' || HasInnerDot(d[1..]))
  }

  /** The test the pattern makes: one '@' after a non-empty local part, and
      after it a domain of address characters with an inner dot. */
  function EmailPatternTest(s: string): bool {
    var i := IndexOfAt(s);
    0 < i < |s| && AllAddressChars(s[..i]) && AllAddressChars(s[i + 1..]) && HasInnerDot(s[i + 1..])
  }

  lemma {:induction false} HasInnerDotAt(d: string)
    ensures HasInnerDot(d) <==> exists j :: 1 <= j < |d| - 1 && d[j] == '.'
  {
    if |d| >= 3 {
      HasInnerDotAt(d[1..]);
      if HasInnerDot(d) && d[1] != '.' {
        var j :| 1 <= j < |d| - 2 && d[1..][j] == '.';
        assert d[j + 1] == '.';
      }
      if !HasInnerDot(d) {
        forall j | 1 <= j < |d| - 1 ensures d[j] != '.' {
          if j > 1 { assert d[j] == d[1..][j - 1]; }
        }
      }
    }
  }

  /** Every string of the pattern passes the test. */
  lemma PatternPassesTest(local: string, d1: string, d2: string)
    requires local != [] && d1 != [] && d2 != []
    requires AllAddressChars(local) && AllAddressChars(d1) && AllAddressChars(d2)
    ensures EmailPatternTest(local + "@" + d1 + "." + d2)
  {
    var s := local + "@" + d1 + "." + d2;
    var k := |local|;
    assert s[k] == '@';
    assert forall m :: 0 <= m < k ==> s[m] == local[m];
    assert IndexOfAt(s) == k;
    assert s[..k] == local;
    var d := s[k + 1..];
    assert d == d1 + "." + d2;
    assert AllAddressChars(d) by {
      forall m | 0 <= m < |d| ensures IsAddressChar(d[m]) {
        if m < |d1| { assert d[m] == d1[m]; }
        else if m > |d1| { assert d[m] == d2[m - |d1| - 1]; }
      }
    }
    assert d[|d1|] == '.';
    HasInnerDotAt(d);
  }

  /** Every string that passes the test has the pattern's shape. */
  lemma TestPassesPattern(s: string)
    requires EmailPatternTest(s)
    ensures MatchesEmailPattern(s)
  {
    var i := IndexOfAt(s);
    var d := s[i + 1..];
    HasInnerDotAt(d);
    var j :| 1 <= j < |d| - 1 && d[j] == '.';
    var local, d1, d2 := s[..i], d[..j], d[j + 1..];
    assert d == d1 + "." + d2;
    assert s == local + "@" + d1 + "." + d2;
    assert AllAddressChars(d1) by {
      forall m | 0 <= m < |d1| ensures IsAddressChar(d1[m]) { assert d1[m] == d[m]; }
    }
    assert AllAddressChars(d2) by {
      forall m | 0 <= m < |d2| ensures IsAddressChar(d2[m]) { assert d2[m] == d[j + 1 + m]; }
    }
  }

  /** The scanning test decides exactly the language of the pattern. */
  lemma EmailPatternTestCorrect(s: string)
    ensures EmailPatternTest(s) <==> MatchesEmailPattern(s)
  {
    if MatchesEmailPattern(s) {
      var local, d1, d2 :| && s == local + "@" + d1 + "." + d2
                            && local != [] && d1 != [] && d2 != []
                            && AllAddressChars(local) && AllAddressChars(d1) && AllAddressChars(d2);
      PatternPassesTest(local, d1, d2);
    }
    if EmailPatternTest(s) {
      TestPassesPattern(s);
    }
  }

  /** validateEmail's verdict: an empty value passes, any other value must
      match the pattern. */
  function IsValidEmailValue(value: string): (ok: bool)
    ensures ok <==> value == [] || MatchesEmailPattern(value)
  {
    EmailPatternTestCorrect(value);
    value == [] || EmailPatternTest(value)
  }

  // ---------------------------------------------------------------------
  // The submit button's label

  /** enhanceMailerLiteForm's relabel of the submit button: a button whose
      trimmed text or whose value is exactly 'Subscribe' gets 'Join the
      Community' as both; any other button keeps its text and value. */
  function RelabelledButton(text: string, value: string): (r: (string, string))
  {
    if Trim(text) == SubscribeLabel || value == SubscribeLabel then (CommunityLabel, CommunityLabel)
    else (text, value)
  }

  /** Neither new label reads 'Subscribe', so relabelling a relabelled
      button changes nothing. */
  lemma RelabelIdempotent(text: string, value: string)
    ensures var (t, v) := RelabelledButton(text, value);
      RelabelledButton(t, v) == (t, v)
      && (t == CommunityLabel <==> (Trim(text) == SubscribeLabel || value == SubscribeLabel || text == CommunityLabel))
  {
  }

  /** The label addLoadingState saves: the text, or the value when the text
      is empty (an input element has no text). */
  function OriginalLabel(text: string, value: string): (l: string)
    ensures l == [] ==> text == [] && value == []
    ensures text != [] ==> l == text
  {
    if text != [] then text else value
  }

  // ---------------------------------------------------------------------
  // Feedback under the form

  /** One `div.form-feedback` element; `id` tells the elements apart. */
  datatype Feedback = Feedback(id: nat, message: string, kind: string)

  /** `elements` without the element `id`. */
  function Without(elements: seq<Feedback>, id: nat): (r: seq<Feedback>)
    ensures |r| <= |elements|
    ensures forall f :: f in r <==> f in elements && f.id != id
  {
    if elements == [] then []
    else if elements[0].id == id then Without(elements[1..], id)
    else [elements[0]] + Without(elements[1..], id)
  }

  // ---------------------------------------------------------------------
  // The enhanced MailerLite form

  /** The state enhanceMailerLiteForm and its listeners keep or touch. The
      input, the submit button and the form container may each be absent. */
  class MailerLiteForm {
    const hasInput: bool
    const hasButton: bool
    const hasContainer: bool
    var inputValue: string
    var placeholder: string
    var borderColor: string
    var buttonText: string
    var buttonValue: string
    var disabled: bool
    /** Whether the button's class list holds 'loading'. */
    var loading: bool
    /** The label each pending loading timeout will restore, oldest first. */
    var restores: seq<string>
    /** The feedback elements in the document, in document order. */
    var feedback: seq<Feedback>
    var nextFeedback: nat

    /** The button is disabled exactly while it is loading, and then one
        timeout that will restore it is pending (no permanent lockout); at
        most one feedback box exists, and only inside a form container. */
    ghost predicate Valid()
      reads this
    {
      && |restores| <= 1
      && (loading <==> |restores| == 1)
      && (disabled <==> loading)
      && |feedback| <= 1
      && (!hasContainer ==> feedback == [])
      && (forall k :: 0 <= k < |feedback| ==> feedback[k].id < nextFeedback)
    }

    /** enhanceMailerLiteForm on a form with the given elements: set the
        placeholder and relabel a 'Subscribe' button. */
    constructor (input: bool, button: bool, container: bool, value: string, text: string, buttonVal: string)
      ensures hasInput == input && hasButton == button && hasContainer == container
      ensures inputValue == value && borderColor == ""
      ensures placeholder == if input then Placeholder else ""
      ensures (buttonText, buttonValue) == if button then RelabelledButton(text, buttonVal) else (text, buttonVal)
      ensures !disabled && !loading && restores == [] && feedback == []
      ensures Valid()
    {
      hasInput, hasButton, hasContainer := input, button, container;
      inputValue, borderColor := value, "";
      placeholder := "";
      if input {
        placeholder := Placeholder;
      }
      buttonText, buttonValue := text, buttonVal;
      if button && (Trim(text) == SubscribeLabel || buttonVal == SubscribeLabel) {
        buttonText := CommunityLabel;
        buttonValue := CommunityLabel;
      }
      disabled, loading, restores := false, false, [];
      feedback, nextFeedback := [], 0;
    }

    /** validateEmail on the input: set the error border exactly when the
        value fails, clear it otherwise. */
    method ValidateInput() returns (ok: bool)
      requires hasInput
      modifies this`borderColor
      ensures ok == IsValidEmailValue(inputValue)
      ensures borderColor == if ok then "" else ErrorColor
    {
      ok := inputValue == [] || EmailPatternTest(inputValue);
      if !ok {
        borderColor := ErrorColor;
      } else {
        borderColor := "";
      }
    }

    /** The input listener: the user edits the value, which is validated. */
    method OnInput(v: string)
      requires hasInput
      modifies this`inputValue, this`borderColor
      ensures inputValue == v
      ensures borderColor == if IsValidEmailValue(v) then "" else ErrorColor
    {
      inputValue := v;
      var _ := ValidateInput();
    }

    /** showFormFeedback: remove the first feedback element, then append a
        new one carrying `message` and `kind` to the form container (when
        there is none, appending throws and nothing is added). */
    method ShowFeedback(message: string, kind: string)
      modifies this`feedback, this`nextFeedback
      ensures nextFeedback == old(nextFeedback) + 1
      ensures feedback == (if old(feedback) == [] then [] else old(feedback)[1..])
                          + (if hasContainer then [Feedback(old(nextFeedback), message, kind)] else [])
      ensures old(Valid()) ==> Valid()
      ensures old(Valid()) && hasContainer ==> feedback == [Feedback(old(nextFeedback), message, kind)]
    {
      if feedback != [] {
        feedback := feedback[1..];
      }
      var box := Feedback(nextFeedback, message, kind);
      nextFeedback := nextFeedback + 1;
      if hasContainer {
        feedback := feedback + [box];
      }
    }

    /** The removal timeout of feedback element `id`: it goes if it is still
        in the document. */
    method OnFeedbackExpired(id: nat)
      modifies this`feedback
      ensures feedback == Without(old(feedback), id)
      ensures old(Valid()) ==> Valid()
    {
      feedback := Without(feedback, id);
    }

    /** addLoadingState: mark the button loading, disable it, relabel it
        'Joining...', and schedule the restore of its original label. */
    method AddLoadingState()
      requires hasButton
      modifies this`loading, this`disabled, this`buttonText, this`buttonValue, this`restores
      ensures loading && disabled && buttonText == JoiningLabel && buttonValue == JoiningLabel
      ensures restores == old(restores) + [OriginalLabel(old(buttonText), old(buttonValue))]
      ensures old(Valid()) && !old(disabled) ==> Valid()
    {
      var originalText := OriginalLabel(buttonText, buttonValue);
      loading := true;
      disabled := true;
      buttonText := JoiningLabel;
      buttonValue := JoiningLabel;
      restores := restores + [originalText];
    }

    /** The loading timeout: a button still loading leaves that state, is
        enabled again and gets back the label saved for this timeout; a
        button no longer loading is left alone. */
    method OnLoadingTimeout()
      requires restores != []
      modifies this`loading, this`disabled, this`buttonText, this`buttonValue, this`restores
      ensures restores == old(restores)[1..]
      ensures if old(loading) then
                && !loading && !disabled
                && buttonText == old(restores)[0] && buttonValue == old(restores)[0]
              else
                && !loading && disabled == old(disabled)
                && buttonText == old(buttonText) && buttonValue == old(buttonValue)
      ensures old(Valid()) ==> Valid() && !disabled
    {
      var originalText := restores[0];
      restores := restores[1..];
      if loading {
        loading := false;
        disabled := false;
        buttonText := originalText;
        buttonValue := originalText;
      }
    }

    /** The click listener of the submit button (a disabled button receives
        no click): an input whose value fails validateEmail cancels the
        click and shows the error feedback; otherwise the button enters its
        loading state. */
    method OnSubmitClick() returns (prevented: bool)
      requires hasButton
      modifies this`inputValue, this`borderColor, this`feedback, this`nextFeedback
      modifies this`loading, this`disabled, this`buttonText, this`buttonValue, this`restores
      ensures old(disabled) ==> unchanged(this) && !prevented
      ensures !old(disabled) ==>
        var rejected := hasInput && !IsValidEmailValue(old(inputValue));
        && prevented == rejected
        && inputValue == old(inputValue)
        && (hasInput ==> borderColor == if rejected then ErrorColor else "")
        && (!hasInput ==> borderColor == old(borderColor))
        && if rejected then
             && nextFeedback == old(nextFeedback) + 1
             && feedback == (if old(feedback) == [] then [] else old(feedback)[1..])
                            + (if hasContainer then [Feedback(old(nextFeedback), InvalidEmailMessage, "error")] else [])
             && loading == old(loading) && disabled == old(disabled) && restores == old(restores)
             && buttonText == old(buttonText) && buttonValue == old(buttonValue)
           else
             && feedback == old(feedback) && nextFeedback == old(nextFeedback)
             && loading && disabled && buttonText == JoiningLabel && buttonValue == JoiningLabel
             && restores == old(restores) + [OriginalLabel(old(buttonText), old(buttonValue))]
      ensures old(Valid()) ==> Valid()
    {
      prevented := false;
      if disabled {
        return;
      }
      if hasInput {
        var ok := ValidateInput();
        if !ok {
          prevented := true;
          ShowFeedback(InvalidEmailMessage, "error");
          return;
        }
      }
      AddLoadingState();
    }
  }

  // ---------------------------------------------------------------------
  // Parallax frame throttling

  /** The `ticking` flag of initializeInteractiveEffects and the animation
      frames requested through it. */
  class ParallaxTicker {
    var ticking: bool
    /** Frames requested whose callback has not run yet. */
    var pendingFrames: nat

    /** At most one frame is pending, exactly while `ticking` is set. */
    ghost predicate Valid()
      reads this
    {
      pendingFrames <= 1 && (ticking <==> pendingFrames == 1)
    }

    constructor ()
      ensures !ticking && pendingFrames == 0 && Valid()
    {
      ticking, pendingFrames := false, 0;
    }

    /** requestTick, the scroll listener: request a frame unless one is
        already pending. */
    method OnScroll()
      modifies this
      ensures ticking
      ensures pendingFrames == if old(ticking) then old(pendingFrames) else old(pendingFrames) + 1
      ensures old(Valid()) ==> Valid()
    {
      if !ticking {
        pendingFrames := pendingFrames + 1;
        ticking := true;
      }
    }

    /** updateParallax, the frame callback: move the decorations (not
        modelled) and clear `ticking`, so the next scroll requests a frame. */
    method OnAnimationFrame()
      requires pendingFrames > 0
      modifies this
      ensures !ticking && pendingFrames == old(pendingFrames) - 1
      ensures old(Valid()) ==> Valid() && pendingFrames == 0
    {
      pendingFrames := pendingFrames - 1;
      ticking := false;
    }
  }
}
