/** The contact form's submit handler in js/main.js: every required field
    whose trimmed value is empty gets a red border, and the submission is
    stopped exactly when there is one; the status line says which. The
    network submission itself is not part of the model. */
module ContactForm {
  import opened JsText

  /** The border colour of a blank required field. */
  const InvalidBorder: string := "#f87171"

  const ErrorMessage: string := "Please fill in all required fields."
  const ErrorClass: string := "error"
  const SendingMessage: string := "Sending message..."

  /** Milliseconds before the error message is cleared. */
  const ErrorClearDelay: nat := 4000

  /** The timer a submission leaves behind: none, or ClearStatus after a delay. */
  datatype StatusTimer = NoTimer | ClearAfter(delay: nat)

  /** `!field.value.trim()`: the trimmed value is the empty string. */
  predicate Blank(value: string) {
    Trim(value) == ""
  }

  /** The two loops over the required fields, in document order: reset every
      border, then mark each blank field red and clear isValid. */
  method CheckFields(values: seq<string>) returns (isValid: bool, borders: seq<string>)
    ensures isValid <==> forall k :: 0 <= k < |values| ==> !AllWhitespace(values[k])
    ensures |borders| == |values|
    ensures forall k :: 0 <= k < |values| ==>
      borders[k] == if AllWhitespace(values[k]) then InvalidBorder else ""
  {
    borders := [];
    for k := 0 to |values|
      invariant |borders| == k
      invariant forall m :: 0 <= m < k ==> borders[m] == ""
    {
      borders := borders + [""];
    }
    isValid := true;
    for k := 0 to |values|
      invariant |borders| == |values|
      invariant isValid <==> forall m :: 0 <= m < k ==> !AllWhitespace(values[m])
      invariant forall m :: 0 <= m < k ==>
        borders[m] == if AllWhitespace(values[m]) then InvalidBorder else ""
      invariant forall m :: k <= m < |values| ==> borders[m] == ""
    {
      if Blank(values[k]) {
        isValid := false;
        borders := borders[k := InvalidBorder];
      }
    }
  }

  /** A field of spaces, tabs or line breaks is as blank as an empty one; a
      field with one visible character is not. */
  lemma BlankExamples()
    ensures Blank("") && Blank(" \t\n")
    ensures !Blank(" a ")
  {
    assert AllWhitespace(" \t\n");
    assert !IsWhitespace(" a "[1]);
  }

  /** The form's state: the values and borders of the required fields and
      the status line. */
  class Form {
    var values: seq<string>
    var borders: seq<string>
    var statusText: string
    var statusClass: string

    ghost predicate Valid()
      reads this`values, this`borders
    {
      |borders| == |values|
    }

    constructor (values: seq<string>)
      ensures Valid() && this.values == values
      ensures statusText == "" && statusClass == ""
      ensures forall k :: 0 <= k < |borders| ==> borders[k] == ""
    {
      this.values := values;
      borders := seq(|values|, _ => "");
      statusText, statusClass := "", "";
    }

    /** The submit handler. The results are whether preventDefault was
        called, which stops the submission, and the timer it sets. */
    method Submit() returns (prevented: bool, timer: StatusTimer)
      requires Valid()
      modifies this`borders, this`statusText, this`statusClass
      ensures Valid() && values == old(values)
      ensures prevented <==> exists k :: 0 <= k < |values| && AllWhitespace(values[k])
      ensures forall k :: 0 <= k < |values| ==>
        borders[k] == if AllWhitespace(values[k]) then InvalidBorder else ""
      ensures prevented ==> statusText == ErrorMessage && statusClass == ErrorClass
      ensures !prevented ==> statusText == SendingMessage && statusClass == ""
      ensures timer == if prevented then ClearAfter(ErrorClearDelay) else NoTimer
    {
      statusText, statusClass := "", "";
      var isValid;
      isValid, borders := CheckFields(values);
      if !isValid {
        prevented := true;
        statusText, statusClass := ErrorMessage, ErrorClass;
        timer := ClearAfter(ErrorClearDelay);
      } else {
        prevented := false;
        statusText, statusClass := SendingMessage, "";
        timer := NoTimer;
      }
    }

    /** The timeout set after a failed submission: clear the status line. */
    method ClearStatus()
      modifies this`statusText, this`statusClass
      ensures statusText == "" && statusClass == ""
    {
      statusText, statusClass := "", "";
    }
  }
}
