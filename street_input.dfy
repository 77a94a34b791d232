/** The street field of the registration form's address block: an error span
    whose text and class list follow the input's validity. The browser computes
    the validity flags; they are inputs here. */
module StreetInput {
  import opened Strings

  /** The flags of `input.validity` that the view reads. */
  datatype Validity = Validity(valid: bool, valueMissing: bool, tooShort: bool)

  /** The error span's text and class list. */
  datatype ErrorSpan = ErrorSpan(text: string, classes: set<string>)

  /** The two classes the view adds: the active-error class and the plain one. */
  datatype Styles = Styles(active: string, inactive: string)

  /** One `input` event: the validity then, and the length of the value entered. */
  datatype InputEvent = InputEvent(validity: Validity, entered: nat)

  const MissingMessage: string := "Enter street name"
  const TooShortHead: string := "Street name should be at least "
  const TooShortMiddle: string := " characters long; you entered "

  /** The too-short message for the input's `minLength` and the entered length. */
  function TooShortMessage(minLength: nat, entered: nat): string
  {
    TooShortHead + NatToString(minLength) + TooShortMiddle + NatToString(entered)
  }

  /** `showError`: the text follows the first flag set among `valueMissing` and
      `tooShort`, and is kept when neither is; the active class is always added. */
  function ErrorShown(span: ErrorSpan, v: Validity, minLength: nat, entered: nat, styles: Styles): (after: ErrorSpan)
    ensures span.classes <= after.classes && styles.active in after.classes
    ensures after.text == span.text || after.text == MissingMessage || after.text == TooShortMessage(minLength, entered)
  {
    var text :=
      if v.valueMissing then MissingMessage
      else if v.tooShort then TooShortMessage(minLength, entered)
      else span.text;
    ErrorSpan(text, span.classes + {styles.active})
  }

  /** The `input` listener: a valid value clears the text and adds the plain
      class; an invalid one shows the error. */
  function AfterInput(span: ErrorSpan, e: InputEvent, minLength: nat, styles: Styles): (after: ErrorSpan)
    ensures span.classes <= after.classes
    ensures e.validity.valid ==> after.text == "" && styles.inactive in after.classes
    ensures !e.validity.valid ==> styles.active in after.classes
  {
    if e.validity.valid then ErrorSpan("", span.classes + {styles.inactive})
    else ErrorShown(span, e.validity, minLength, e.entered, styles)
  }

  /** The validity of the freshly created input: required and empty. */
  const EmptyRequired: Validity := Validity(false, true, false)

  /** The span when the constructor returns: created with `classes`, then
      `showError` on the empty required input. */
  function Constructed(classes: set<string>, minLength: nat, styles: Styles): ErrorSpan
  {
    ErrorShown(ErrorSpan("", classes), EmptyRequired, minLength, 0, styles)
  }

  /** The span after a run of `input` events, in order. */
  function Replay(span: ErrorSpan, events: seq<InputEvent>, minLength: nat, styles: Styles): ErrorSpan
    decreases |events|
  {
    if events == [] then span
    else Replay(AfterInput(span, events[0], minLength, styles), events[1..], minLength, styles)
  }

  // ---------------------------------------------------------------------------
  // properties

  /** The constructor leaves the missing-value message and the active class. */
  lemma ConstructorShowsMissing(classes: set<string>, minLength: nat, styles: Styles)
    ensures Constructed(classes, minLength, styles) == ErrorSpan(MissingMessage, classes + {styles.active})
  {
  }

  /** `valueMissing` wins over `tooShort`; `tooShort` alone reports both numbers;
      with neither the text is kept; the active class is added in every case and
      no class is removed. */
  lemma ShowErrorCases(span: ErrorSpan, v: Validity, minLength: nat, entered: nat, styles: Styles)
    ensures var after := ErrorShown(span, v, minLength, entered, styles);
      && (v.valueMissing ==> after.text == MissingMessage)
      && (!v.valueMissing && v.tooShort ==> after.text == TooShortMessage(minLength, entered))
      && (!v.valueMissing && !v.tooShort ==> after.text == span.text)
      && after.classes == span.classes + {styles.active}
  {
  }

  /** Classes are only ever added: across any run of input events the class set
      only grows, and every class added stays. */
  lemma {:induction false} ClassesOnlyGrow(span: ErrorSpan, events: seq<InputEvent>, minLength: nat, styles: Styles)
    ensures span.classes <= Replay(span, events, minLength, styles).classes
    decreases |events|
  {
    if events != [] {
      var next := AfterInput(span, events[0], minLength, styles);
      ClassesOnlyGrow(next, events[1..], minLength, styles);
    }
  }

  /** After the last event: a valid value leaves an empty text and the plain class;
      an invalid one leaves the active class. */
  lemma {:induction false} LastEventDecides(span: ErrorSpan, events: seq<InputEvent>, minLength: nat, styles: Styles)
    requires events != []
    ensures var after, last := Replay(span, events, minLength, styles), events[|events| - 1];
      && (last.validity.valid ==> after.text == "" && styles.inactive in after.classes)
      && (!last.validity.valid ==> styles.active in after.classes)
    decreases |events|
  {
    if |events| > 1 {
      LastEventDecides(AfterInput(span, events[0], minLength, styles), events[1..], minLength, styles);
    }
  }

  /** The texts the span can hold: empty, the missing-value message, or a too-short
      message for the input's `minLength`. */
  ghost predicate IsErrorText(text: string, minLength: nat)
  {
    text == "" || text == MissingMessage || exists n: nat :: text == TooShortMessage(minLength, n)
  }

  /** From construction on, the span's text is always one of the error texts. */
  lemma {:induction false} TextStaysAnErrorText(classes: set<string>, events: seq<InputEvent>, minLength: nat, styles: Styles)
    ensures IsErrorText(Replay(Constructed(classes, minLength, styles), events, minLength, styles).text, minLength)
  {
    ReplayKeepsErrorText(Constructed(classes, minLength, styles), events, minLength, styles);
  }

  lemma {:induction false} ReplayKeepsErrorText(span: ErrorSpan, events: seq<InputEvent>, minLength: nat, styles: Styles)
    requires IsErrorText(span.text, minLength)
    ensures IsErrorText(Replay(span, events, minLength, styles).text, minLength)
    decreases |events|
  {
    if events != [] {
      var e := events[0];
      var next := AfterInput(span, e, minLength, styles);
      if !e.validity.valid && !e.validity.valueMissing && e.validity.tooShort {
        assert next.text == TooShortMessage(minLength, e.entered);
      }
      ReplayKeepsErrorText(next, events[1..], minLength, styles);
    }
  }

  /** Once a valid value follows construction, both classes are on the span for
      good, whatever comes after. */
  lemma BothClassesOnceValid(classes: set<string>, before: seq<InputEvent>, e: InputEvent,
                             after: seq<InputEvent>, minLength: nat, styles: Styles)
    requires e.validity.valid
    ensures var span := Replay(Constructed(classes, minLength, styles), before + [e] + after, minLength, styles);
      styles.active in span.classes && styles.inactive in span.classes
  {
    var start := Constructed(classes, minLength, styles);
    ReplayConcat(start, before + [e], after, minLength, styles);
    ReplayConcat(start, before, [e], minLength, styles);
    var mid := Replay(start, before, minLength, styles);
    ClassesOnlyGrow(start, before, minLength, styles);
    var afterE := Replay(mid, [e], minLength, styles);
    assert afterE == AfterInput(mid, e, minLength, styles);
    ClassesOnlyGrow(afterE, after, minLength, styles);
  }

  lemma {:induction false} ReplayConcat(span: ErrorSpan, xs: seq<InputEvent>, ys: seq<InputEvent>, minLength: nat, styles: Styles)
    ensures Replay(span, xs + ys, minLength, styles) == Replay(Replay(span, xs, minLength, styles), ys, minLength, styles)
    decreases |xs|
  {
    if xs != [] {
      assert (xs + ys)[0] == xs[0];
      assert (xs + ys)[1..] == xs[1..] + ys;
      ReplayConcat(AfterInput(span, xs[0], minLength, styles), xs[1..], ys, minLength, styles);
    } else {
      assert xs + ys == ys;
    }
  }

  /** The too-short message reports both numbers recoverably: two messages are
      equal only for the same `minLength` and the same entered length. */
  lemma TooShortMessageReportsBoth(m1: nat, n1: nat, m2: nat, n2: nat)
    requires TooShortMessage(m1, n1) == TooShortMessage(m2, n2)
    ensures m1 == m2 && n1 == n2
  {
    var a, b := NatToString(m1), NatToString(m2);
    var s := TooShortMessage(m1, n1);
    var h := |TooShortHead|;
    assert s == TooShortHead + a + TooShortMiddle + NatToString(n1);
    assert s == TooShortHead + b + TooShortMiddle + NatToString(n2);
    if |a| < |b| {
      SeparatorAt(a, b, TooShortMiddle, NatToString(n1), NatToString(n2));
      assert false;
    }
    if |b| < |a| {
      SeparatorAt(b, a, TooShortMiddle, NatToString(n2), NatToString(n1));
      assert false;
    }
    assert a == s[h..h + |a|] == b;
    var tail := h + |a| + |TooShortMiddle|;
    assert NatToString(n1) == s[tail..] == NatToString(n2);
    DecimalRoundTrip(m1);
    DecimalRoundTrip(m2);
    DecimalRoundTrip(n1);
    DecimalRoundTrip(n2);
  }

  /** In two spellings of one message with runs `a` and `b` between the head and
      the separator, the shorter run meets the separator where the longer run
      still goes on. */
  lemma SeparatorAt(a: string, b: string, sep: string, x: string, y: string)
    requires |a| < |b| && sep != []
    requires TooShortHead + a + sep + x == TooShortHead + b + sep + y
    ensures b[|a|] == sep[0]
  {
    var s := TooShortHead + a + sep + x;
    assert s[|TooShortHead| + |a|] == sep[0];
    assert (TooShortHead + b + sep + y)[|TooShortHead| + |a|] == b[|a|];
  }

  // ---------------------------------------------------------------------------
  // the view

  class StreetInputView {
    const minLength: nat
    const styles: Styles
    /** The error span's `textContent` and `classList`. */
    var text: string
    var classes: set<string>

    function Span(): ErrorSpan
      reads this
    {
      ErrorSpan(text, classes)
    }

    /** Creates the error span with `classes`, then shows the error of the empty
        required input. */
    constructor (minLength: nat, classes: set<string>, styles: Styles)
      ensures this.minLength == minLength && this.styles == styles
      ensures Span() == Constructed(classes, minLength, styles)
    {
      this.minLength := minLength;
      this.styles := styles;
      text := "";
      this.classes := classes;
      new;
      ShowError(EmptyRequired, 0);
    }

    /** `showError` for the input's current validity and entered length. */
    method ShowError(v: Validity, entered: nat)
      modifies this
      ensures Span() == ErrorShown(old(Span()), v, minLength, entered, styles)
      ensures old(classes) <= classes && styles.active in classes
    {
      if v.valueMissing {
        text := MissingMessage;
      } else if v.tooShort {
        text := TooShortMessage(minLength, entered);
      }
      classes := classes + {styles.active};
    }

    /** The `input` listener. */
    method OnInput(e: InputEvent)
      modifies this
      ensures Span() == AfterInput(old(Span()), e, minLength, styles)
      ensures old(classes) <= classes
    {
      if e.validity.valid {
        text := "";
        classes := classes + {styles.inactive};
      } else {
        ShowError(e.validity, e.entered);
      }
    }
  }
}
