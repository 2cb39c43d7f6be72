/** Access to the fields of one split CSV row, the way every parser does
    it: `row[i].strip()`, optionally followed by `int(...)`. */
module Rows {
  import opened Results
  import opened PyStr
  import opened IntText

  /** A measurement the source converts with `float()`, kept as its
      trimmed text. */
  datatype FloatText = FloatText(text: string)

  /** One element of a record tuple, as handed to the database driver. */
  datatype Value =
    | IntValue(n: int)
    | TextValue(text: string)
    | FloatValue(number: FloatText)

  /** The exceptions a row parser can raise. */
  datatype ParseError =
    | MissingField(index: nat)               // `IndexError` from `row[index]`
    | NotAnInteger(index: nat, text: string) // `ValueError` from `int(text)`

  /** Field `i` holds an integer literal once stripped. */
  predicate IntReadable(row: seq<string>, i: nat) {
    i < |row| && IsIntLiteral(Strip(row[i]))
  }

  /** The stripped text of field `i`. */
  function TextAt(row: seq<string>, i: nat): string
    requires i < |row|
  {
    Strip(row[i])
  }

  /** The integer field `i` holds. */
  function IntAt(row: seq<string>, i: nat): int
    requires IntReadable(row, i)
  {
    IntOf(Strip(row[i]))
  }

  /** `row[i].strip()`. */
  function Field(row: seq<string>, i: nat): (r: Result<string, ParseError>)
    ensures r.Success? <==> i < |row|
    ensures r.Success? ==> r.value == TextAt(row, i)
    ensures r.Failure? ==> r.error == MissingField(i)
  {
    if i < |row| then Success(Strip(row[i])) else Failure(MissingField(i))
  }

  /** `int(row[i].strip())`: the index is checked before the text. */
  function IntField(row: seq<string>, i: nat): (r: Result<int, ParseError>)
    ensures r.Success? <==> IntReadable(row, i)
    ensures r.Success? ==> r.value == IntAt(row, i)
    ensures i >= |row| ==> r == Failure(MissingField(i))
    ensures i < |row| && !IntReadable(row, i) ==> r == Failure(NotAnInteger(i, Strip(row[i])))
  {
    var t :- Field(row, i);
    match ParseInt(t)
    case Some(n) => Success(n)
    case None => Failure(NotAnInteger(i, t))
  }

  /** `float(row[i].strip())`, with the number kept as text. */
  function FloatField(row: seq<string>, i: nat): (r: Result<FloatText, ParseError>)
    ensures r.Success? <==> i < |row|
    ensures r.Success? ==> r.value == FloatText(TextAt(row, i))
    ensures r.Failure? ==> r.error == MissingField(i)
  {
    var t :- Field(row, i);
    Success(FloatText(t))
  }
}
