/** The presence check run when the contact form is submitted: every required
    field whose trimmed value is empty gets a red border and blocks the success
    branch (the form is hidden, thanked and reset only when all are filled),
    every other required field gets the neutral gray border. */
module ContactForm {
  import opened Text

  /** The border colour a required field is given by the check. */
  datatype Border = Red | Gray

  /** A field counts as empty when nothing is left after trimming. */
  predicate Blank(value: string) {
    Trim(value) == []
  }

  /** Every required field holds something. */
  predicate AllFilled(values: seq<string>) {
    forall i :: 0 <= i < |values| ==> !Blank(values[i])
  }

  /** The borders the check leaves on the fields, field by field. */
  function Borders(values: seq<string>): (r: seq<Border>)
    ensures |r| == |values|
    ensures forall i :: 0 <= i < |values| ==> (r[i] == Red <==> Blank(values[i]))
    decreases |values|
  {
    if values == [] then []
    else [if Blank(values[0]) then Red else Gray] + Borders(values[1..])
  }

  /** The form is accepted (hidden, thanked and reset) exactly when no field
      was marked red. */
  lemma AllFilledIffNoRed(values: seq<string>)
    ensures AllFilled(values) <==> Red !in Borders(values)
  {
    var b := Borders(values);
    if Red in b {
      var i :| 0 <= i < |b| && b[i] == Red;
      assert Blank(values[i]);
    }
  }

  /** Borders given field by field are the borders of the whole form. */
  lemma BordersPointwise(values: seq<string>, b: seq<Border>)
    requires |b| == |values|
    requires forall k :: 0 <= k < |b| ==> b[k] == if Blank(values[k]) then Red else Gray
    ensures b == Borders(values)
  {
  }

  /** The submit handler's loop: visits every required field in order, never
      stopping early, marks each one and returns whether all were filled. */
  method CheckRequired(values: array<string>, borders: array<Border>) returns (isValid: bool)
    requires borders.Length == values.Length
    modifies borders
    ensures isValid <==> AllFilled(values[..])
    ensures borders[..] == Borders(values[..])
  {
    isValid := true;
    var i := 0;
    while i < values.Length
      invariant 0 <= i <= values.Length
      invariant isValid <==> forall k :: 0 <= k < i ==> !Blank(values[k])
      invariant forall k :: 0 <= k < i ==> borders[k] == if Blank(values[k]) then Red else Gray
    {
      if Trim(values[i]) == "" {
        isValid := false;
        borders[i] := Red;
      } else {
        borders[i] := Gray;
      }
      i := i + 1;
    }
    BordersPointwise(values[..], borders[..]);
  }
}
