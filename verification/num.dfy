/**
 * Numbers as the scrapers see them.
 *
 * Python floats are kept opaque: a `Float` is only its `repr` text and
 * whether it is finite, which is all that the dump writer asks of it.
 * Fares are the exception: every fare the pattern can capture has at most
 * three integer digits and two decimals, so fares are exact integer
 * hundredths here, and their `repr` is written out.
 */
module Num {
  import opened Strings

  /** A Python float: its `repr` text, and whether it is finite (neither
      NaN nor an infinity). */
  datatype Float = Float(repr: string, finite: bool)

  predicate AllDigits(s: string) {
    forall k :: 0 <= k < |s| ==> IsDigit(s[k])
  }

  /** Hundredths denoted by the decimal `whole` or `whole.frac`, with at
      most two fraction digits (`frac` empty means no fraction). */
  function DecimalHundredths(whole: string, frac: string): (h: nat)
    requires AllDigits(whole) && AllDigits(frac) && |frac| <= 2
    ensures h / 100 == DigitsValue(whole)
  {
    DigitsValue(whole) * 100 + FracHundredths(frac)
  }

  function FracHundredths(frac: string): (h: nat)
    requires AllDigits(frac) && |frac| <= 2
    ensures h < 100
  {
    if |frac| == 0 then 0
    else if |frac| == 1 then DigitValue(frac[0]) * 10
    else DigitValue(frac[0]) * 10 + DigitValue(frac[1])
  }

  /** The fraction digits of `repr` for `f` hundredths: one digit when the
      second is zero, otherwise both. */
  function FracDigits(f: nat): (r: string)
    requires f < 100
    ensures 1 <= |r| <= 2 && AllDigits(r)
    ensures FracHundredths(r) == f
  {
    if f % 10 == 0 then [DigitChar(f / 10)]
    else [DigitChar(f / 10), DigitChar(f % 10)]
  }

  /** Python's `repr(h / 100)`: the shortest text that reads back as the
      same double. For the values a fare can take (below 10^5 hundredths)
      that is the integer part, a dot, and the fraction without a trailing
      zero, keeping at least one digit ("13.0", "13.5", "13.25"). */
  function HundredthsRepr(h: nat): string {
    NatToString(h / 100) + "." + FracDigits(h % 100)
  }

  /** The float for `h` hundredths. */
  function FromHundredths(h: nat): (f: Float)
    ensures f.finite
  {
    Float(HundredthsRepr(h), true)
  }

  /** `repr` reads back: split at the dot, the two pieces denote `h`. */
  lemma HundredthsReprRoundTrip(h: nat)
    ensures var whole := NatToString(h / 100);
            var frac := FracDigits(h % 100);
            && HundredthsRepr(h) == whole + "." + frac
            && AllDigits(whole)
            && DecimalHundredths(whole, frac) == h
  {
    NatToStringRoundTrip(h / 100);
  }

  lemma DotAfterDigits(w: string, f: string)
    requires AllDigits(w)
    ensures (w + "." + f)[|w|] == '.'
    ensures forall k :: 0 <= k < |w| ==> IsDigit((w + "." + f)[k])
  {
  }

  /** A digit string before the dot is recovered from the joined text. */
  lemma DotSplit(w1: string, f1: string, w2: string, f2: string)
    requires AllDigits(w1) && AllDigits(w2)
    requires w1 + "." + f1 == w2 + "." + f2
    ensures w1 == w2 && f1 == f2
  {
    var t := w1 + "." + f1;
    DotAfterDigits(w1, f1);
    DotAfterDigits(w2, f2);
    assert !IsDigit('.');
    assert w1 == t[..|w1|] && w2 == t[..|w2|];
    assert f1 == t[|w1| + 1..] && f2 == t[|w2| + 1..];
  }

  /** Distinct fares render as distinct texts. */
  lemma HundredthsReprInjective(a: nat, b: nat)
    requires HundredthsRepr(a) == HundredthsRepr(b)
    ensures a == b
  {
    HundredthsReprRoundTrip(a);
    HundredthsReprRoundTrip(b);
    DotSplit(NatToString(a / 100), FracDigits(a % 100), NatToString(b / 100), FracDigits(b % 100));
  }
}
