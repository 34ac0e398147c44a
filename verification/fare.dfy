/**
 * `parse_fare_from_text`: find a fare range, or else a single fare, in a
 * paragraph of guide text.
 *
 * The two regular expressions are written out by hand. Each is a fixed
 * concatenation of pieces (an optional currency marker, a run of spaces,
 * one to three digits, …), and each piece lists the end positions it can
 * reach from a start position in the order Python's backtracking engine
 * tries them: greedy repetitions longest first, alternatives left to
 * right, an optional group before its omission. Matching a pattern at a
 * start position takes the first combination in that order that gets
 * through every piece; searching takes the leftmost start that matches.
 *
 * A match is the sequence of its piece boundaries: `pos[0]` is where it
 * starts and `pos[j]` where piece `j - 1` ends.
 *
 * Fares are integer hundredths of a peso.
 */
module Fares {
  import opened Wrappers
  import opened Strings
  import opened Text
  import opened Num
  import Backtrack

  const PESO: char := '₱'
  const EN_DASH: char := '–'

  // ---------------------------------------------------------------------
  // Pieces
  // ---------------------------------------------------------------------

  datatype Piece =
    | Currency(ignoreCase: bool)   // (?:₱|PHP|Php|php|P)?
    | Spaces                       // \s*
    | IntDigits                    // \d{1,3}
    | Fraction                     // (?:\.\d{1,2})?
    | Separator                    // (?:-|to|–)
    | NonDigits                    // [^0-9]{0,20}
    | Keyword                      // (?:minimum fare|fare|pamasahe), ignoring case

  /** The range pattern of `parse_fare_from_text`. Positions 2..4 delimit
      the first number, 9..11 the second. */
  const RangePattern: seq<Piece> := [
    Currency(false), Spaces, IntDigits, Fraction, Spaces, Separator,
    Spaces, Currency(false), Spaces, IntDigits, Fraction]

  /** The single-value pattern (compiled with IGNORECASE). Positions 4..6
      delimit the number. */
  const SinglePattern: seq<Piece> := [
    Keyword, NonDigits, Currency(true), Spaces, IntDigits, Fraction]

  /** ASCII lower case, the case folding IGNORECASE applies here. */
  function Lower(c: char): char {
    if 'A' <= c <= 'Z' then (c as int + 32) as char else c
  }

  /** `w` spelled at `s[p..]`, exactly or ignoring case. */
  predicate SpelledAt(s: string, p: nat, w: string, ignoreCase: bool) {
    && p + |w| <= |s|
    && forall k :: 0 <= k < |w| ==> (if ignoreCase then Lower(s[p + k]) == w[k] else s[p + k] == w[k])
  }

  /** The three-letter currency words: PHP, Php or php (any case when
      ignoring case). */
  predicate PhpAt(s: string, p: nat, ignoreCase: bool) {
    if ignoreCase then SpelledAt(s, p, "php", true)
    else SpelledAt(s, p, "PHP", false) || SpelledAt(s, p, "Php", false) || SpelledAt(s, p, "php", false)
  }

  predicate PAt(s: string, p: nat, ignoreCase: bool) {
    p < |s| && (s[p] == 'P' || (ignoreCase && s[p] == 'p'))
  }

  /** `s[p..q]` is all in the class `c`. */
  predicate AllIn(s: string, p: nat, q: nat, c: char -> bool)
    requires p <= q <= |s|
  {
    forall k :: p <= k < q ==> c(s[k])
  }

  predicate NotDigit(c: char) { !IsDigit(c) }

  /** The piece can take `s[p..q]`. This is the language of the piece,
      independent of the order in which the engine tries ends. */
  predicate Valid(piece: Piece, s: string, p: nat, q: nat) {
    p <= q <= |s| &&
    match piece
    case Currency(ci) =>
      || q == p
      || (q == p + 1 && (s[p] == PESO || PAt(s, p, ci)))
      || (q == p + 3 && PhpAt(s, p, ci))
    case Spaces => AllIn(s, p, q, IsSpace)
    case IntDigits => p < q <= p + 3 && AllIn(s, p, q, IsDigit)
    case Fraction => q == p || (p + 2 <= q <= p + 3 && s[p] == '.' && AllIn(s, p + 1, q, IsDigit))
    case Separator =>
      || (q == p + 1 && s[p] == '-')
      || (q == p + 2 && SpelledAt(s, p, "to", false))
      || (q == p + 1 && s[p] == EN_DASH)
    case NonDigits => q <= p + 20 && AllIn(s, p, q, NotDigit)
    case Keyword =>
      || (q == p + 12 && SpelledAt(s, p, "minimum fare", true))
      || (q == p + 4 && SpelledAt(s, p, "fare", true))
      || (q == p + 8 && SpelledAt(s, p, "pamasahe", true))
  }

  /** End of the longest run from `p`, at most `limit` long, of characters
      in class `c`. */
  function RunEnd(s: string, p: nat, limit: nat, c: char -> bool): (q: nat)
    requires p <= |s|
    ensures p <= q <= |s| && q <= p + limit
    ensures AllIn(s, p, q, c)
    ensures q < p + limit && q < |s| ==> !c(s[q])
    decreases limit
  {
    if limit > 0 && p < |s| && c(s[p]) then RunEnd(s, p + 1, limit - 1, c) else p
  }

  /** `hi, hi - 1, …, lo`: the ends of a greedy repetition. */
  function Countdown(hi: nat, lo: nat): (r: seq<nat>)
    requires lo <= hi
    ensures forall k :: 0 <= k < |r| ==> lo <= r[k] <= hi
    ensures forall x :: lo <= x <= hi ==> x in r
    ensures |r| > 0 && r[0] == hi
    decreases hi - lo
  {
    if hi == lo then [lo] else [hi] + Countdown(hi - 1, lo)
  }

  /** The ends the engine tries for `piece` at `p`, in its order. */
  function Ends(piece: Piece, s: string, p: nat): seq<nat> {
    if p > |s| then []
    else
      match piece
      case Currency(ci) =>
        // With IGNORECASE the three spellings of PHP coincide; trying the
        // same end again cannot change the outcome, so it is listed once.
        (if p < |s| && s[p] == PESO then [p + 1] else [])
        + (if PhpAt(s, p, ci) then [p + 3] else [])
        + (if PAt(s, p, ci) then [p + 1] else [])
        + [p]
      case Spaces => Countdown(RunEnd(s, p, |s| - p, IsSpace), p)
      case IntDigits =>
        var e := RunEnd(s, p, 3, IsDigit);
        if e == p then [] else Countdown(e, p + 1)
      case Fraction =>
        if p < |s| && s[p] == '.' && RunEnd(s, p + 1, 2, IsDigit) >= p + 2
        then Countdown(RunEnd(s, p + 1, 2, IsDigit), p + 2) + [p]
        else [p]
      case Separator =>
        (if p < |s| && s[p] == '-' then [p + 1] else [])
        + (if SpelledAt(s, p, "to", false) then [p + 2] else [])
        + (if p < |s| && s[p] == EN_DASH then [p + 1] else [])
      case NonDigits => Countdown(RunEnd(s, p, 20, NotDigit), p)
      case Keyword =>
        (if SpelledAt(s, p, "minimum fare", true) then [p + 12] else [])
        + (if SpelledAt(s, p, "fare", true) then [p + 4] else [])
        + (if SpelledAt(s, p, "pamasahe", true) then [p + 8] else [])
  }

  /** A run that holds up to `e` holds up to any earlier point. */
  lemma AllInPrefix(s: string, p: nat, x: nat, e: nat, c: char -> bool)
    requires p <= x <= e <= |s| && AllIn(s, p, e, c)
    ensures AllIn(s, p, x, c)
  {
  }

  /** Every end the engine tries is one the piece can take. */
  lemma EndsSound(piece: Piece, s: string, p: nat, q: nat)
    requires q in Ends(piece, s, p)
    ensures Valid(piece, s, p, q)
  {
    match piece
    case Spaces =>
      var e := RunEnd(s, p, |s| - p, IsSpace);
      AllInPrefix(s, p, q, e, IsSpace);
    case IntDigits =>
      var e := RunEnd(s, p, 3, IsDigit);
      AllInPrefix(s, p, q, e, IsDigit);
    case Fraction =>
      if q != p {
        var e := RunEnd(s, p + 1, 2, IsDigit);
        AllInPrefix(s, p + 1, q, e, IsDigit);
      }
    case NonDigits =>
      var e := RunEnd(s, p, 20, NotDigit);
      AllInPrefix(s, p, q, e, NotDigit);
    case Currency(_) =>
    case Separator =>
    case Keyword =>
  }

  /** Every end the piece can take is one the engine tries. */
  lemma EndsComplete(piece: Piece, s: string, p: nat, q: nat)
    requires Valid(piece, s, p, q)
    ensures q in Ends(piece, s, p)
  {
    match piece
    case Spaces => RunsComplete(Spaces, s, p, q);
    case IntDigits => RunsComplete(IntDigits, s, p, q);
    case NonDigits => RunsComplete(NonDigits, s, p, q);
    case Fraction => FractionComplete(s, p, q);
    case Currency(ci) => CurrencyComplete(ci, s, p, q);
    case Separator =>
    case Keyword =>
  }

  lemma RunsComplete(piece: Piece, s: string, p: nat, q: nat)
    requires piece.Spaces? || piece.IntDigits? || piece.NonDigits?
    requires Valid(piece, s, p, q)
    ensures q in Ends(piece, s, p)
  {
    match piece
    case Spaces =>
      var e := RunEnd(s, p, |s| - p, IsSpace);
    case IntDigits =>
      var e := RunEnd(s, p, 3, IsDigit);
      assert e > p by {
        assert IsDigit(s[p]);
      }
    case NonDigits =>
      var e := RunEnd(s, p, 20, NotDigit);
  }

  lemma FractionComplete(s: string, p: nat, q: nat)
    requires Valid(Fraction, s, p, q)
    ensures q in Ends(Fraction, s, p)
  {
    if q != p {
      var e := RunEnd(s, p + 1, 2, IsDigit);
      assert e >= p + 2 by {
        assert IsDigit(s[p + 1]);
      }
    }
  }

  lemma CurrencyComplete(ci: bool, s: string, p: nat, q: nat)
    requires Valid(Currency(ci), s, p, q)
    ensures q in Ends(Currency(ci), s, p)
  {
    if q == p + 3 {
      assert PhpAt(s, p, ci);
    }
  }

  /** The pieces meet what the backtracking engine needs of them. */
  lemma EnginePieces()
    ensures Backtrack.Sound(Valid, Ends) && Backtrack.Complete(Valid, Ends)
  {
    forall piece, s, p, k | 0 <= k < |Ends(piece, s, p)| ensures Valid(piece, s, p, Ends(piece, s, p)[k]) {
      EndsSound(piece, s, p, Ends(piece, s, p)[k]);
    }
    forall piece, s, p, q | Valid(piece, s, p, q) ensures q in Ends(piece, s, p) {
      EndsComplete(piece, s, p, q);
    }
  }

  // ---------------------------------------------------------------------
  // Matching and searching
  // ---------------------------------------------------------------------

  /** `pos` is a match of `pat` in `s`. */
  ghost predicate IsMatch(pat: seq<Piece>, s: string, pos: seq<nat>) {
    Backtrack.IsMatch(Valid, pat, s, pos)
  }

  /** `m` is a match and no match starts further left. */
  ghost predicate Leftmost(pat: seq<Piece>, s: string, m: seq<nat>) {
    IsMatch(pat, s, m) && forall pos :: IsMatch(pat, s, pos) ==> m[0] <= pos[0]
  }

  /** `pattern.search(s)`. */
  function Search(pat: seq<Piece>, s: string): Option<seq<nat>> {
    Backtrack.Search(Ends, pat, s)
  }

  /** `Search` finds a match exactly when the pattern matches somewhere,
      and then the leftmost one. */
  lemma SearchSpec(pat: seq<Piece>, s: string)
    ensures Search(pat, s).Some? <==> exists pos :: IsMatch(pat, s, pos)
    ensures Search(pat, s).Some? ==> Leftmost(pat, s, Search(pat, s).value)
  {
    EnginePieces();
    Backtrack.SearchSpec(Valid, Ends, pat, s);
    if exists pos :: IsMatch(pat, s, pos) {
      var pos :| IsMatch(pat, s, pos);
      assert Backtrack.IsMatch(Valid, pat, s, pos);
    }
    if Search(pat, s).Some? {
      assert IsMatch(pat, s, Search(pat, s).value);
    }
  }

  /** The first end the engine tries for a piece is the longest it can
      take. */
  lemma FirstEndLongest(piece: Piece, s: string, p: nat, q: nat)
    requires piece == IntDigits || piece == Fraction
    requires Valid(piece, s, p, q)
    ensures |Ends(piece, s, p)| > 0 && q <= Ends(piece, s, p)[0]
  {
    EndsComplete(piece, s, p, q);
  }

  /** `piece` at `p` cannot take anything beyond `e`. */
  ghost predicate Longest(piece: Piece, s: string, p: nat, e: nat) {
    forall q: nat :: Valid(piece, s, p, q) ==> q <= e
  }

  lemma FirstEndIsLongest(piece: Piece, s: string, p: nat)
    requires piece == IntDigits || piece == Fraction
    requires |Ends(piece, s, p)| > 0
    ensures Longest(piece, s, p, Ends(piece, s, p)[0])
  {
    forall q | Valid(piece, s, p, q) ensures q <= Ends(piece, s, p)[0] {
      FirstEndLongest(piece, s, p, q);
    }
  }

  /** The fraction piece always has an end to try: its omission. */
  lemma FractionEnds(s: string, p: nat)
    requires p <= |s|
    ensures |Ends(Fraction, s, p)| > 0
  {
  }

  /** A found match of a pattern ending in a number reads that number as
      far as it goes: as many integer digits as are present (up to 3),
      then the longest fraction. */
  lemma SearchGreedy(pat: seq<Piece>, s: string)
    requires |pat| >= 2 && pat[|pat| - 2] == IntDigits && pat[|pat| - 1] == Fraction
    requires Search(pat, s).Some?
    ensures var m := Search(pat, s).value;
      && |m| == |pat| + 1
      && Longest(IntDigits, s, m[|pat| - 2], m[|pat| - 1])
      && Longest(Fraction, s, m[|pat| - 1], m[|pat|])
  {
    var n := |pat|;
    var m := Search(pat, s).value;
    EnginePieces();
    Backtrack.SearchSpec(Valid, Ends, pat, s);
    assert [m[0]][..1] == [m[0]];
    Backtrack.MatchRestThrough(Ends, pat, s, [m[0]], n - 1);
    var pos := m[..n - 1];
    assert Backtrack.MatchRest(Ends, pat, s, pos) == Some(m);
    LastNumberGreedy(pat, s, m, pos);
  }

  lemma LastNumberGreedy(pat: seq<Piece>, s: string, m: seq<nat>, pos: seq<nat>)
    requires |pat| >= 2 && pat[|pat| - 2] == IntDigits && pat[|pat| - 1] == Fraction
    requires IsMatch(pat, s, m) && pos == m[..|pat| - 1]
    requires Backtrack.MatchRest(Ends, pat, s, pos) == Some(m)
    ensures Longest(IntDigits, s, m[|pat| - 2], m[|pat| - 1])
    ensures Longest(Fraction, s, m[|pat| - 1], m[|pat|])
  {
    var n := |pat|;
    var p := m[n - 2];
    assert pos[|pos| - 1] == p;
    assert Valid(IntDigits, s, p, m[n - 1]);
    FirstEndLongest(IntDigits, s, p, m[n - 1]);
    var e := Ends(IntDigits, s, p)[0];
    EndsSound(IntDigits, s, p, e);
    FractionEnds(s, e);
    Backtrack.LastTwo(Ends, pat, s, pos);
    assert m == pos + [e, Ends(Fraction, s, e)[0]];
    FirstEndIsLongest(IntDigits, s, p);
    FirstEndIsLongest(Fraction, s, e);
  }

  // ---------------------------------------------------------------------
  // parse_fare_from_text
  // ---------------------------------------------------------------------

  /** The boundaries of a match never go back, and stay inside the text. */
  lemma {:induction false} MatchMonotone(pat: seq<Piece>, s: string, m: seq<nat>, i: nat, j: nat)
    requires IsMatch(pat, s, m) && i <= j <= |pat|
    ensures m[i] <= m[j] <= |s|
    decreases j - i
  {
    if i < j {
      MatchMonotone(pat, s, m, i + 1, j);
      assert Valid(pat[i], s, m[i], m[i + 1]);
    } else if j > 0 {
      assert Valid(pat[j - 1], s, m[j - 1], m[j]);
    }
  }

  function Pow10(n: nat): (r: nat)
    ensures r >= 1
  {
    if n == 0 then 1 else 10 * Pow10(n - 1)
  }

  /** `n` decimal digits denote less than 10^n. */
  lemma {:induction false} DigitsBelow(w: string)
    requires AllDigits(w)
    ensures DigitsValue(w) < Pow10(|w|)
    decreases |w|
  {
    if |w| > 0 {
      var init := w[..|w| - 1];
      assert AllDigits(init) by {
        forall k | 0 <= k < |init| ensures IsDigit(init[k]) {
          assert init[k] == w[k];
        }
      }
      DigitsBelow(init);
    }
  }

  lemma SliceDigits(s: string, p: nat, q: nat)
    requires p <= q <= |s| && AllIn(s, p, q, IsDigit)
    ensures AllDigits(s[p..q])
  {
    forall k | 0 <= k < q - p ensures IsDigit(s[p..q][k]) {
      assert s[p..q][k] == s[p + k];
    }
  }

  /** The captured number whose integer digits run from `m[j]` to
      `m[j + 1]` and whose fraction ends at `m[j + 2]`, in hundredths:
      `float(m.group(n))`. At most 999.99. */
  function NumberAt(s: string, m: seq<nat>, j: nat): (h: nat)
    requires j + 2 < |m|
    requires Valid(IntDigits, s, m[j], m[j + 1]) && Valid(Fraction, s, m[j + 1], m[j + 2])
    ensures h < 100000
  {
    var whole := s[m[j]..m[j + 1]];
    SliceDigits(s, m[j], m[j + 1]);
    DigitsBelow(whole);
    if m[j + 2] == m[j + 1] then DecimalHundredths(whole, "")
    else
      SliceDigits(s, m[j + 1] + 1, m[j + 2]);
      DecimalHundredths(whole, s[m[j + 1] + 1..m[j + 2]])
  }

  /** `(fare_min_php, fare_max_php, fare_text)`, or three `None`s. */
  datatype FareResult = NoFare | Found(min: nat, max: nat, text: string)

  /** A range match gives the smaller and the larger of its two numbers
      and the whole matched span. */
  function RangeFare(s: string, m: seq<nat>): (r: FareResult)
    requires IsMatch(RangePattern, s, m)
    ensures r.Found? && r.min <= r.max < 100000
    ensures {r.min, r.max} == {NumberAt(s, m, 2), NumberAt(s, m, 9)}
    ensures m[0] <= m[11] <= |s| && r.text == s[m[0]..m[11]]
  {
    assert Valid(RangePattern[2], s, m[2], m[3]) && Valid(RangePattern[3], s, m[3], m[4]);
    assert Valid(RangePattern[9], s, m[9], m[10]) && Valid(RangePattern[10], s, m[10], m[11]);
    MatchMonotone(RangePattern, s, m, 0, 11);
    var a := NumberAt(s, m, 2);
    var b := NumberAt(s, m, 9);
    Found(if a <= b then a else b, if a <= b then b else a, s[m[0]..m[11]])
  }

  /** A single-value match gives its number as both bounds. */
  function SingleFare(s: string, m: seq<nat>): (r: FareResult)
    requires IsMatch(SinglePattern, s, m)
    ensures r.Found? && r.min == r.max == NumberAt(s, m, 4)
    ensures m[0] <= m[6] <= |s| && r.text == s[m[0]..m[6]]
  {
    assert Valid(SinglePattern[4], s, m[4], m[5]) && Valid(SinglePattern[5], s, m[5], m[6]);
    MatchMonotone(SinglePattern, s, m, 0, 6);
    var v := NumberAt(s, m, 4);
    Found(v, v, s[m[0]..m[6]])
  }

  /** `parse_fare_from_text(text)`: nothing for an empty text, otherwise
      the fare found in its normalised form. */
  function ParseFare(text: string): (r: FareResult)
    ensures text == "" ==> r == NoFare
    ensures r.Found? ==> r.min <= r.max < 100000
  {
    if text == "" then NoFare else FareIn(NormalizeText(text))
  }

  /** The range pattern first; the single-value pattern only when the
      range pattern matches nowhere. */
  function FareIn(flat: string): (r: FareResult)
    ensures r.Found? ==> r.min <= r.max < 100000
  {
    SearchSpec(RangePattern, flat);
    SearchSpec(SinglePattern, flat);
    match Search(RangePattern, flat)
    case Some(m) => RangeFare(flat, m)
    case None =>
      match Search(SinglePattern, flat)
      case Some(m) => SingleFare(flat, m)
      case None => NoFare
  }

  /** No fare exactly when the text is empty or neither pattern matches
      its normalised form anywhere. */
  lemma ParseFareNone(text: string)
    ensures ParseFare(text) == NoFare <==>
      text == "" ||
      var flat := NormalizeText(text);
      (forall m :: !IsMatch(RangePattern, flat, m)) && (forall m :: !IsMatch(SinglePattern, flat, m))
  {
    if text != "" {
      var flat := NormalizeText(text);
      SearchSpec(RangePattern, flat);
      SearchSpec(SinglePattern, flat);
    }
  }

  /** When the range pattern matches anywhere, the fare comes from its
      leftmost match and the single-value pattern is never consulted. */
  lemma ParseFareRange(text: string, some: seq<nat>)
    requires text != "" && IsMatch(RangePattern, NormalizeText(text), some)
    ensures var flat := NormalizeText(text);
      && Search(RangePattern, flat).Some?
      && Leftmost(RangePattern, flat, Search(RangePattern, flat).value)
      && ParseFare(text) == RangeFare(flat, Search(RangePattern, flat).value)
  {
    SearchSpec(RangePattern, NormalizeText(text));
  }

  /** Otherwise the fare comes from the leftmost single-value match. */
  lemma ParseFareSingle(text: string, some: seq<nat>)
    requires text != "" && IsMatch(SinglePattern, NormalizeText(text), some)
    requires forall m :: !IsMatch(RangePattern, NormalizeText(text), m)
    ensures var flat := NormalizeText(text);
      && Search(SinglePattern, flat).Some?
      && Leftmost(SinglePattern, flat, Search(SinglePattern, flat).value)
      && ParseFare(text) == SingleFare(flat, Search(SinglePattern, flat).value)
  {
    var flat := NormalizeText(text);
    SearchSpec(RangePattern, flat);
    SearchSpec(SinglePattern, flat);
  }

  /** The single-value match the search finds starts with the keyword,
      has no digit between the keyword and its number, and reads the
      number as far as it goes. */
  lemma SingleMatchShape(s: string)
    requires Search(SinglePattern, s).Some?
    ensures var m := Search(SinglePattern, s).value;
      && IsMatch(SinglePattern, s, m)
      && Valid(Keyword, s, m[0], m[1])
      && m[1] <= m[4] < |s| && IsDigit(s[m[4]])
      && (forall k :: m[1] <= k < m[4] ==> !IsDigit(s[k]))
      && Longest(IntDigits, s, m[4], m[5])
      && Longest(Fraction, s, m[5], m[6])
  {
    var m := Search(SinglePattern, s).value;
    SearchSpec(SinglePattern, s);
    assert Valid(SinglePattern[0], s, m[0], m[1]);
    SearchGreedy(SinglePattern, s);
    NoDigitBeforeNumber(s, m);
  }

  /** Between the keyword and the number of a single-value match there are
      only non-digits: the up-to-20 skipped characters, the currency
      marker and the spaces. */
  lemma NoDigitBeforeNumber(s: string, m: seq<nat>)
    requires IsMatch(SinglePattern, s, m)
    ensures m[1] <= m[4] < |s| && IsDigit(s[m[4]])
    ensures forall k :: m[1] <= k < m[4] ==> !IsDigit(s[k])
  {
    assert Valid(SinglePattern[1], s, m[1], m[2]);
    assert Valid(SinglePattern[2], s, m[2], m[3]);
    assert Valid(SinglePattern[3], s, m[3], m[4]);
    assert Valid(SinglePattern[4], s, m[4], m[5]);
    forall k | m[1] <= k < m[4] ensures !IsDigit(s[k]) {
      if k < m[2] {
        assert NotDigit(s[k]);
      } else if k >= m[3] {
        assert IsSpace(s[k]);
      } else if m[3] == m[2] + 3 {
        assert Lower(s[k]) == "php"[k - m[2]];
      }
    }
  }
}
