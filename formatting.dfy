/** How a numeric result becomes the text on the display (normalizeResult,
    script.js lines 50-61), and the two JavaScript conversions between text and
    numbers that the calculator relies on. */
module Formatting {
  import opened Arithmetic

  /** The JavaScript conversions the handlers use, taken as given:
      `toNumber` is `Number(text)` applied to what the display holds, and
      `toText` is `String(number)`. Their internals (shortest round-trip
      formatting, exponent notation) are not part of this model. */
  datatype Conversions = Conversions(toNumber: string -> real, toText: real -> string)

  /** 10^8: results are rounded to eight decimal places. */
  const Scale: real := 100000000.0

  /** `Math.round(x * 1e8) / 1e8` on exact reals. `Math.round` rounds halves up,
      that is, it is `floor(y + 0.5)`. The result lies on the grid of multiples
      of 10^-8 and is the grid point nearest to x, halves rounding up. */
  function Round8(x: real): (r: real)
    ensures (r * Scale).Floor as real == r * Scale
    ensures x - 0.5 / Scale < r <= x + 0.5 / Scale
  {
    (x * Scale + 0.5).Floor as real / Scale
  }

  /** A value already on the grid, in particular an integer, is left unchanged. */
  lemma Round8KeepsGridPoints(x: real)
    requires (x * Scale).Floor as real == x * Scale
    ensures Round8(x) == x
  {
    var k := (x * Scale).Floor;
    assert x * Scale + 0.5 == k as real + 0.5;
    assert (k as real + 0.5).Floor == k;
    assert x == k as real / Scale;
  }

  /** Rounding twice is rounding once. */
  lemma Round8Idempotent(x: real)
    ensures Round8(Round8(x)) == Round8(x)
  {
    Round8KeepsGridPoints(Round8(x));
  }

  /** Integers are never changed by the rounding. */
  lemma Round8KeepsIntegers(n: int)
    ensures Round8(n as real) == n as real
  {
    assert ((n as real) * Scale).Floor == n * 100000000;
    Round8KeepsGridPoints(n as real);
  }

  /** normalizeResult: a message is shown as it is; a number is rounded to eight
      decimal places and converted to text. (Both arms of the source's
      integer test call `String` alike.) */
  function NormalizeResult(result: Outcome, conv: Conversions): (text: string)
  {
    match result
    case Err(message) => message
    case Num(x) => conv.toText(Round8(x))
  }

  /** What normalizeResult shows: a message verbatim; a result with at most
      eight decimal places exactly as `String` writes it; and normalizing a
      result again after rounding it shows the same text. */
  lemma NormalizedText(result: Outcome, conv: Conversions)
    ensures result.Err? ==> NormalizeResult(result, conv) == result.message
    ensures result.Num? && (result.value * Scale).Floor as real == result.value * Scale ==>
              NormalizeResult(result, conv) == conv.toText(result.value)
    ensures result.Num? ==> NormalizeResult(Num(Round8(result.value)), conv) == NormalizeResult(result, conv)
  {
    if result.Num? {
      Round8Idempotent(result.value);
      if (result.value * Scale).Floor as real == result.value * Scale {
        Round8KeepsGridPoints(result.value);
      }
    }
  }
}
