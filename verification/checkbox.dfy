/**
 * The questionnaire page's form helpers: collecting the checked boxes of a
 * list question into one text field before submission, and showing or
 * clearing the free-text input that goes with an "other" answer.
 */
module Checkbox {
  import Text

  /**
   * `getCheckboxValues`: appends the values of the checked boxes, in page
   * order and separated by `", "`, to the current value of the target field.
   * With nothing checked the field keeps its value. Starting from an empty
   * field, the servlet's `split(", ")` recovers the checked values, provided
   * none contains the separator and the last is not an empty value after others.
   */
  method AppendCheckedValues(field: string, checked: seq<string>) returns (value: string)
    ensures checked == [] ==> value == field
    ensures checked != [] ==> value == field + Text.Join(checked)
    ensures field <= value
    ensures field == "" && checked != []
            && (forall i :: 0 <= i < |checked| ==> Text.NoSeparator(checked[i]))
            && (|checked| == 1 || checked[|checked| - 1] != "")
            ==> Text.JavaSplit(value) == checked
  {
    value := field;
    if |checked| > 0 {
      var i := 0;
      while i < |checked| - 1
        invariant 0 <= i <= |checked| - 1
        invariant field <= value
        invariant value + Text.Join(checked[i..]) == field + Text.Join(checked)
      {
        Text.JoinCons(checked[i], checked[i + 1..]);
        assert checked[i..] == [checked[i]] + checked[i + 1..];
        value := value + checked[i] + Text.Separator;
        i := i + 1;
      }
      assert checked[i..] == [checked[|checked| - 1]];
      value := value + checked[|checked| - 1];
      if field == "" && (forall i :: 0 <= i < |checked| ==> Text.NoSeparator(checked[i]))
         && (|checked| == 1 || checked[|checked| - 1] != "")
      {
        assert value == Text.Join(checked);
        Text.SplitJoinRoundTrip(checked);
      }
    }
  }

  /** The free-text input offered for an "other" answer to question `question`. */
  function OtherTextInput(question: string): (html: string) {
    "Other: <input type =\"text\" name=\"" + question + "Other\" id=\"" + question + "Other\"/>"
  }

  /** The element a `checkForOther` call writes, and the markup it writes there. */
  datatype OtherSlot = OtherSlot(elementId: string, html: string)

  /**
   * `checkForOther`: the slot `other-input-<question>` receives the free-text
   * input exactly when the chosen value is "other" in any letter case, and is
   * cleared otherwise.
   */
  function CheckForOther(val: string, question: string): (r: OtherSlot)
    ensures r.elementId == "other-input-" + question
    ensures Text.Lower(val) == "other" ==> r.html == OtherTextInput(question)
    ensures Text.Lower(val) != "other" ==> r.html == ""
    ensures r.html != "" <==> |val| == 5 && val[0] in "oO" && val[1] in "tT" && val[2] in "hH"
                                          && val[3] in "eE" && val[4] in "rR"
  {
    var otherId := "other-input-" + question;
    if Text.Lower(val) == "other" then OtherSlot(otherId, OtherTextInput(question))
    else OtherSlot(otherId, "")
  }
}
