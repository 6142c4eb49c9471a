/**
 * The input validator of the expense tracker: a raw text value is usable
 * when it parses to a number and that number is strictly positive.
 *
 * JavaScript's `parseFloat` is not modelled; it is the abstract parameter
 * `parse`, a total function from text to an optional real (`None` standing
 * for `NaN`). Both the validator and the calculators are written against it,
 * so whatever `parse` answers, they agree with each other about it.
 */
module Validation {
  import opened Wrappers

  /** The shape of `parseFloat`: text in, a number or "not a number" out. */
  type Parser = string -> Option<real>

  /** True exactly when `text` parses (is not NaN) to a number above zero. */
  function ValidateInput(parse: Parser, text: string): (ok: bool)
    ensures ok <==> exists x: real :: x > 0.0 && parse(text) == Some(x)
  {
    var n := parse(text);
    n.Some? && n.value > 0.0
  }

  /**
   * The definition of `ValidateInput` spelled out case by case: the three
   * rejected kinds of input (not a number, zero, negative) and the accepted one.
   */
  lemma ValidateInputRejects(parse: Parser, text: string)
    ensures parse(text) == None ==> !ValidateInput(parse, text)
    ensures parse(text) == Some(0.0) ==> !ValidateInput(parse, text)
    ensures parse(text).Some? && parse(text).value < 0.0 ==> !ValidateInput(parse, text)
    ensures parse(text).Some? && parse(text).value > 0.0 ==> ValidateInput(parse, text)
  {
  }
}
