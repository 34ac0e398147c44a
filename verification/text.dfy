/**
 * Text clean-up shared by the scrapers and parsers:
 * `normalize_text`, `split_stops` and `unique_in_order`.
 */
module Text {
  import opened Strings

  const NBSP: char := '\U{A0}'

  /** Characters `split_stops` trims from both ends of each stop. */
  const StopTrim: set<char> := {' ', '.'}

  /** A normalised text: no whitespace at either end, and every whitespace
      character is a plain space followed by a non-whitespace character.
      In particular it holds no NBSP and no two adjacent whitespace
      characters. */
  ghost predicate IsNormal(r: string) {
    && (|r| > 0 ==> !IsSpace(r[0]) && !IsSpace(r[|r| - 1]))
    && (forall k :: 0 <= k < |r| && IsSpace(r[k]) ==> r[k] == ' ')
    && (forall j, k :: 0 <= j < k < |r| && k == j + 1 ==> !(IsSpace(r[j]) && IsSpace(r[k])))
  }

  /** `normalize_text`: NBSP becomes a space, whitespace runs collapse to one
      space, and the ends are trimmed. */
  function NormalizeText(s: string): (r: string)
    ensures s == "" ==> r == ""
    ensures IsNormal(r)
  {
    if s == "" then ""
    else
      var ws := Words(Replace(s, NBSP, ' '));
      JoinNormal(ws);
      Join(" ", ws)
  }

  lemma {:induction false} JoinNormal(ws: seq<string>)
    requires forall i :: 0 <= i < |ws| ==> IsWord(ws[i])
    ensures IsNormal(Join(" ", ws))
    ensures |ws| > 0 ==> |Join(" ", ws)| > 0
    decreases |ws|
  {
    if |ws| > 1 {
      var w := ws[0];
      var tail := ws[1..];
      assert forall i :: 0 <= i < |tail| ==> IsWord(tail[i]) by {
        forall i | 0 <= i < |tail| ensures IsWord(tail[i]) {
          assert tail[i] == ws[i + 1];
        }
      }
      JoinNormal(tail);
      var j := Join(" ", tail);
      var r := Join(" ", ws);
      JoinCons(" ", ws);
      assert r == w + (" " + j);
      forall k | 0 <= k < |r|
        ensures IsSpace(r[k]) ==> r[k] == ' '
      {
        if k < |w| {
          assert r[k] == w[k];
        } else if k > |w| {
          assert r[k] == j[k - |w| - 1];
        }
      }
      forall i, k | 0 <= i < k < |r| && k == i + 1
        ensures !(IsSpace(r[i]) && IsSpace(r[k]))
      {
        if k < |w| {
          assert r[i] == w[i] && r[k] == w[k];
        } else if k == |w| {
          assert r[i] == w[i];
        } else if k == |w| + 1 {
          assert r[k] == j[0];
        } else {
          assert r[i] == j[i - |w| - 1] && r[k] == j[k - |w| - 1];
        }
      }
      assert r[|r| - 1] == j[|j| - 1];
    }
  }

  /** `normalize_text` is empty exactly for all-whitespace input. */
  lemma NormalizeEmpty(s: string)
    ensures NormalizeText(s) == "" <==> forall k :: 0 <= k < |s| ==> IsSpace(s[k])
  {
    if s != "" {
      var t := Replace(s, NBSP, ' ');
      WordsEmpty(t);
      JoinNormal(Words(t));
      assert (forall k :: 0 <= k < |t| ==> IsSpace(t[k])) <==> (forall k :: 0 <= k < |s| ==> IsSpace(s[k])) by {
        forall k | 0 <= k < |s| ensures IsSpace(t[k]) <==> IsSpace(s[k]) {
        }
      }
    }
  }

  /** Normalising twice is normalising once. */
  lemma NormalizeIdempotent(s: string)
    ensures NormalizeText(NormalizeText(s)) == NormalizeText(s)
  {
    var n := NormalizeText(s);
    if n != "" {
      var ws := Words(Replace(s, NBSP, ' '));
      assert n == Join(" ", ws);
      assert Replace(n, NBSP, ' ') == n;
      WordsOfJoin(ws);
    }
  }

  /** Normalising keeps the words of the text, in order, with the
      non-breaking space counted as a separator. */
  lemma NormalizeWords(s: string)
    ensures Words(NormalizeText(s)) == Words(Replace(s, NBSP, ' '))
  {
    if s != "" {
      WordsOfJoin(Words(Replace(s, NBSP, ' ')));
    }
  }

  /** Free of the two characters `split_stops` splits on. */
  predicate NoSeparator(s: string) {
    forall k :: 0 <= k < |s| ==> s[k] != ',' && s[k] != ';'
  }

  lemma NoSeparatorSlice(s: string, a: int, b: int)
    requires NoSeparator(s) && 0 <= a <= b <= |s|
    ensures NoSeparator(s[a..b])
  {
    forall k | 0 <= k < b - a ensures s[a..b][k] != ',' && s[a..b][k] != ';' {
      assert s[a..b][k] == s[a + k];
    }
  }

  /** Normalisation adds only spaces, so it introduces no separator. */
  lemma NormalizeNoSeparator(s: string)
    requires NoSeparator(s)
    ensures NoSeparator(NormalizeText(s))
  {
    if s != "" {
      var t := Replace(s, NBSP, ' ');
      WordsNoSeparator(t);
      JoinNoSeparator(Words(t));
    }
  }

  lemma {:induction false} WordsNoSeparator(s: string)
    requires NoSeparator(s)
    ensures forall i :: 0 <= i < |Words(s)| ==> NoSeparator(Words(s)[i])
    decreases |s|
  {
    var t := DropSpace(s);
    if |t| > 0 {
      var w := TakeWord(t);
      var rest := t[|w|..];
      assert NoSeparator(t) by {
        NoSeparatorSlice(s, |s| - |t|, |s|);
        assert s[|s| - |t|..|s|] == t;
      }
      assert NoSeparator(w) by {
        NoSeparatorSlice(t, 0, |w|);
        assert t[0..|w|] == w;
      }
      assert NoSeparator(rest) by {
        NoSeparatorSlice(t, |w|, |t|);
        assert t[|w|..|t|] == rest;
      }
      WordsNoSeparator(rest);
      assert Words(s) == [w] + Words(rest);
      AllNoSeparatorCons(w, Words(rest));
    }
  }

  lemma AllNoSeparatorCons(w: string, ws: seq<string>)
    requires NoSeparator(w)
    requires forall i :: 0 <= i < |ws| ==> NoSeparator(ws[i])
    ensures forall i :: 0 <= i < |[w] + ws| ==> NoSeparator(([w] + ws)[i])
  {
    forall i | 0 <= i < |[w] + ws| ensures NoSeparator(([w] + ws)[i]) {
      if i > 0 {
        assert ([w] + ws)[i] == ws[i - 1];
      }
    }
  }

  lemma {:induction false} JoinNoSeparator(parts: seq<string>)
    requires forall i :: 0 <= i < |parts| ==> NoSeparator(parts[i])
    ensures NoSeparator(Join(" ", parts))
    decreases |parts|
  {
    if |parts| > 1 {
      var tail := parts[1..];
      assert forall i :: 0 <= i < |tail| ==> NoSeparator(tail[i]) by {
        forall i | 0 <= i < |tail| ensures NoSeparator(tail[i]) {
          assert tail[i] == parts[i + 1];
        }
      }
      JoinNoSeparator(tail);
      JoinCons(" ", parts);
      var j := Join(" ", tail);
      var r := Join(" ", parts);
      forall k | 0 <= k < |r| ensures r[k] != ',' && r[k] != ';' {
        if k < |parts[0]| {
          assert r[k] == parts[0][k];
        } else if k > |parts[0]| {
          assert r[k] == j[k - |parts[0]| - 1];
        }
      }
    } else if |parts| == 1 {
      assert Join(" ", parts) == parts[0];
    }
  }

  // ---------------------------------------------------------------------
  // split_stops
  // ---------------------------------------------------------------------

  /** Python's `s.lstrip(cs)`. */
  function TrimStart(s: string, cs: set<char>): (r: string)
    ensures |r| <= |s| && r == s[|s| - |r|..]
    ensures |r| > 0 ==> r[0] !in cs
    decreases |s|
  {
    if |s| > 0 && s[0] in cs then TrimStart(s[1..], cs) else s
  }

  /** Python's `s.rstrip(cs)`. */
  function TrimEnd(s: string, cs: set<char>): (r: string)
    ensures |r| <= |s| && r == s[..|r|]
    ensures |r| > 0 ==> r[|r| - 1] !in cs
    decreases |s|
  {
    if |s| > 0 && s[|s| - 1] in cs then TrimEnd(s[..|s| - 1], cs) else s
  }

  /** Python's `s.strip(cs)`: a contiguous piece of `s` that neither starts
      nor ends with a character of `cs`. */
  function Strip(s: string, cs: set<char>): (r: string)
    ensures |r| > 0 ==> r[0] !in cs && r[|r| - 1] !in cs
    ensures StripOffset(s, cs) + |r| <= |s|
    ensures r == s[StripOffset(s, cs)..StripOffset(s, cs) + |r|]
  {
    TrimEnd(TrimStart(s, cs), cs)
  }

  /** Where the stripped text starts inside `s`. */
  function StripOffset(s: string, cs: set<char>): (a: nat)
    ensures a <= |s| && a + |TrimEnd(TrimStart(s, cs), cs)| <= |s|
  {
    |s| - |TrimStart(s, cs)|
  }

  /** One stop of `split_stops`: normalise, then strip spaces and dots. */
  function CleanStop(part: string): string {
    Strip(NormalizeText(part), StopTrim)
  }

  /** What every stop of `split_stops` looks like. */
  predicate IsStop(t: string) {
    && |t| > 0
    && t[0] !in StopTrim && t[|t| - 1] !in StopTrim
    && NoSeparator(t)
  }

  lemma CleanStopIsStop(part: string)
    requires NoSeparator(part)
    ensures CleanStop(part) != "" ==> IsStop(CleanStop(part))
  {
    NormalizeNoSeparator(part);
    StripStop(NormalizeText(part));
  }

  lemma StripStop(n: string)
    requires NoSeparator(n)
    ensures Strip(n, StopTrim) != "" ==> IsStop(Strip(n, StopTrim))
  {
    var a := StripOffset(n, StopTrim);
    NoSeparatorSlice(n, a, a + |Strip(n, StopTrim)|);
  }

  /** The parts after `clean`, with the empty ones dropped, in order. */
  function KeepCleaned(parts: seq<string>, clean: string -> string): seq<string>
    decreases |parts|
  {
    if |parts| == 0 then []
    else
      var c := clean(parts[0]);
      (if c == "" then [] else [c]) + KeepCleaned(parts[1..], clean)
  }

  lemma {:induction false} KeepCleanedAppend(a: seq<string>, b: seq<string>, clean: string -> string)
    ensures KeepCleaned(a + b, clean) == KeepCleaned(a, clean) + KeepCleaned(b, clean)
    decreases |a|
  {
    if |a| == 0 {
      assert a + b == b;
    } else {
      assert (a + b)[1..] == a[1..] + b;
      KeepCleanedAppend(a[1..], b, clean);
    }
  }

  /** The cleaned, non-empty parts, in order. */
  function KeepStops(parts: seq<string>): seq<string> {
    KeepCleaned(parts, CleanStop)
  }

  /** Every kept item is the non-empty cleaning of some part. */
  lemma {:induction false} KeepCleanedFrom(parts: seq<string>, clean: string -> string)
    ensures forall i :: 0 <= i < |KeepCleaned(parts, clean)| ==>
      KeepCleaned(parts, clean)[i] != "" &&
      exists j :: 0 <= j < |parts| && KeepCleaned(parts, clean)[i] == clean(parts[j])
    decreases |parts|
  {
    if |parts| > 0 {
      var tail := parts[1..];
      KeepCleanedFrom(tail, clean);
      var c := clean(parts[0]);
      var head := if c == "" then [] else [c];
      var rest := KeepCleaned(tail, clean);
      var r := KeepCleaned(parts, clean);
      forall i | 0 <= i < |r|
        ensures r[i] != "" && exists j :: 0 <= j < |parts| && r[i] == clean(parts[j])
      {
        if i < |head| {
          assert r[i] == clean(parts[0]);
        } else {
          assert r[i] == rest[i - |head|];
          var j :| 0 <= j < |tail| && rest[i - |head|] == clean(tail[j]);
          assert tail[j] == parts[j + 1];
        }
      }
    }
  }

  lemma KeepStopsAreStops(parts: seq<string>)
    requires forall i :: 0 <= i < |parts| ==> NoSeparator(parts[i])
    ensures forall i :: 0 <= i < |KeepStops(parts)| ==> IsStop(KeepStops(parts)[i])
  {
    var r := KeepStops(parts);
    KeepCleanedFrom(parts, CleanStop);
    forall i | 0 <= i < |r| ensures IsStop(r[i]) {
      var j :| 0 <= j < |parts| && r[i] == CleanStop(parts[j]);
      CleanStopIsStop(parts[j]);
    }
  }

  /** `split_stops`: semicolons count as commas, every comma-separated
      part is normalised and stripped of spaces and dots, and empty
      parts are dropped. */
  function SplitStops(description: string): (r: seq<string>)
    ensures description == "" ==> r == []
    ensures forall i :: 0 <= i < |r| ==> IsStop(r[i])
  {
    if description == "" then []
    else
      var t := Replace(description, ';', ',');
      SplitNoSeparator(t);
      KeepStopsAreStops(Split(t, ','));
      StopsOf(description)
  }

  function StopsOf(description: string): seq<string> {
    KeepStops(Split(Replace(description, ';', ','), ','))
  }

  /** Splitting on commas a text without semicolons leaves parts with
      neither. */
  lemma {:induction false} SplitNoSeparator(s: string)
    requires forall k :: 0 <= k < |s| ==> s[k] != ';'
    ensures forall i :: 0 <= i < |Split(s, ',')| ==> NoSeparator(Split(s, ',')[i])
    decreases |s|
  {
    if |s| > 0 {
      var rest := Split(s[1..], ',');
      SplitNoSeparator(s[1..]);
      var r := Split(s, ',');
      if s[0] == ',' {
        assert r == [""] + rest;
        forall i | 0 <= i < |r| ensures NoSeparator(r[i]) {
          if i > 0 {
            assert r[i] == rest[i - 1];
          }
        }
      } else {
        assert r == [[s[0]] + rest[0]] + rest[1..];
        forall i | 0 <= i < |r| ensures NoSeparator(r[i]) {
          if i > 0 {
            assert r[i] == rest[i];
          } else {
            assert NoSeparator(rest[0]);
            forall k | 0 <= k < |r[0]| ensures r[0][k] != ',' && r[0][k] != ';' {
              if k > 0 {
                assert r[0][k] == rest[0][k - 1];
              }
            }
          }
        }
      }
    }
  }

  lemma SplitStopsIsStopsOf(d: string)
    ensures SplitStops(d) == StopsOf(d)
  {
    if d == "" {
      assert Split(Replace(d, ';', ','), ',') == [""];
      assert CleanStop("") == "";
    }
  }

  /** Splitting on commas after turning semicolons into commas is
      splitting on both at once. */
  lemma {:induction false} SplitReplaced(s: string)
    ensures Split(Replace(s, ';', ','), ',') == SplitAny(s, {',', ';'})
    decreases |s|
  {
    if |s| > 0 {
      var t := Replace(s, ';', ',');
      assert t[1..] == Replace(s[1..], ';', ',');
      SplitReplaced(s[1..]);
    }
  }

  /** The stops are the cleaned, non-empty parts of the description
      between commas and semicolons. */
  lemma SplitStopsEither(d: string)
    ensures SplitStops(d) == KeepStops(SplitAny(d, {',', ';'}))
  {
    SplitStopsIsStopsOf(d);
    SplitReplaced(d);
  }

  /** Stops keep source order: the stops of the text on either side of a
      comma or semicolon are the stops of each side, concatenated. */
  lemma SplitStopsAppend(a: string, sep: char, b: string)
    requires sep == ',' || sep == ';'
    ensures SplitStops(a + [sep] + b) == SplitStops(a) + SplitStops(b)
  {
    SplitStopsIsStopsOf(a + [sep] + b);
    SplitStopsIsStopsOf(a);
    SplitStopsIsStopsOf(b);
    StopsOfAppend(a, sep, b);
  }

  lemma StopsOfAppend(a: string, sep: char, b: string)
    requires sep == ',' || sep == ';'
    ensures StopsOf(a + [sep] + b) == StopsOf(a) + StopsOf(b)
  {
    var ra := Replace(a, ';', ',');
    var rb := Replace(b, ';', ',');
    assert Replace(a + [sep] + b, ';', ',') == ra + [','] + rb;
    SplitAppend(ra, rb, ',');
    KeepCleanedAppend(Split(ra, ','), Split(rb, ','), CleanStop);
  }

  /** Text without separators is one stop, or none if it cleans to "". */
  lemma SplitStopsSingle(d: string)
    requires forall k :: 0 <= k < |d| ==> d[k] != ',' && d[k] != ';'
    ensures SplitStops(d) == if CleanStop(d) == "" then [] else [CleanStop(d)]
  {
    SplitStopsIsStopsOf(d);
    var rd := Replace(d, ';', ',');
    assert rd == d;
    SplitWithout(d, ',');
    KeepCleanedSingle(d, CleanStop);
  }

  lemma KeepCleanedSingle(p: string, clean: string -> string)
    ensures KeepCleaned([p], clean) == if clean(p) == "" then [] else [clean(p)]
  {
    assert [p][1..] == [];
  }

  lemma {:induction false} SplitWithout(s: string, c: char)
    requires forall k :: 0 <= k < |s| ==> s[k] != c
    ensures Split(s, c) == [s]
    decreases |s|
  {
    if |s| > 0 {
      SplitWithout(s[1..], c);
      assert s == [s[0]] + s[1..];
    }
  }

  // ---------------------------------------------------------------------
  // unique_in_order
  // ---------------------------------------------------------------------

  /** Index of the first occurrence of `x` in `s`. */
  function FirstIndex(s: seq<string>, x: string): (i: nat)
    requires x in s
    ensures i < |s| && s[i] == x
    ensures forall k :: 0 <= k < i ==> s[k] != x
  {
    if s[0] == x then 0 else 1 + FirstIndex(s[1..], x)
  }

  /** Appending the item at `n`, met for the first time, keeps the
      output in order of first occurrence. */
  lemma FirstOccurrenceAppend(items: seq<string>, out: seq<string>, n: nat)
    requires n < |items| && items[n] != "" && items[n] !in out
    requires forall i :: 0 <= i < |out| ==> out[i] != "" && out[i] in items && FirstIndex(items, out[i]) < n
    requires forall i, j :: 0 <= i < j < |out| ==> FirstIndex(items, out[i]) < FirstIndex(items, out[j])
    requires forall k :: 0 <= k < n && items[k] != "" ==> items[k] in out
    ensures forall i :: 0 <= i < |out| + 1 ==> (out + [items[n]])[i] != "" && (out + [items[n]])[i] in items && FirstIndex(items, (out + [items[n]])[i]) < n + 1
    ensures forall i, j :: 0 <= i < j < |out| + 1 ==> FirstIndex(items, (out + [items[n]])[i]) < FirstIndex(items, (out + [items[n]])[j])
  {
    FirstIndexAt(items, n);
    FirstOccurrenceNext(items, out, out + [items[n]], n);
  }

  /** An item not seen before position `n` is first seen at `n`. */
  lemma FirstIndexAt(items: seq<string>, n: nat)
    requires n < |items|
    requires forall k :: 0 <= k < n ==> items[k] != items[n]
    ensures FirstIndex(items, items[n]) == n
  {
  }

  lemma FirstOccurrenceNext(items: seq<string>, out: seq<string>, next: seq<string>, n: nat)
    requires n < |items| && items[n] != "" && FirstIndex(items, items[n]) == n
    requires next == out + [items[n]]
    requires forall i :: 0 <= i < |out| ==> out[i] != "" && out[i] in items && FirstIndex(items, out[i]) < n
    requires forall i, j :: 0 <= i < j < |out| ==> FirstIndex(items, out[i]) < FirstIndex(items, out[j])
    ensures forall i :: 0 <= i < |next| ==> next[i] != "" && next[i] in items && FirstIndex(items, next[i]) < n + 1
    ensures forall i, j :: 0 <= i < j < |next| ==> FirstIndex(items, next[i]) < FirstIndex(items, next[j])
  {
    forall i | 0 <= i < |next|
      ensures next[i] != "" && next[i] in items && FirstIndex(items, next[i]) < n + 1
    {
      if i < |out| {
        assert next[i] == out[i];
      }
    }
    forall i, j | 0 <= i < j < |next|
      ensures FirstIndex(items, next[i]) < FirstIndex(items, next[j])
    {
      NextPair(items, out, next, n, i, j);
    }
  }

  lemma NextPair(items: seq<string>, out: seq<string>, next: seq<string>, n: nat, i: nat, j: nat)
    requires n < |items| && FirstIndex(items, items[n]) == n
    requires next == out + [items[n]] && i < j < |next|
    requires forall i :: 0 <= i < |out| ==> out[i] in items && FirstIndex(items, out[i]) < n
    requires forall i, j :: 0 <= i < j < |out| ==> FirstIndex(items, out[i]) < FirstIndex(items, out[j])
    ensures next[i] in items && next[j] in items
    ensures FirstIndex(items, next[i]) < FirstIndex(items, next[j])
  {
    assert next[i] == out[i];
    if j < |out| {
      assert next[j] == out[j];
    } else {
      assert next[j] == items[n];
    }
  }

  /** `unique_in_order`: the truthy (non-empty) items without repeats, in
      order of first occurrence. */
  method UniqueInOrder(items: seq<string>) returns (out: seq<string>)
    ensures forall i :: 0 <= i < |out| ==> out[i] != "" && out[i] in items
    ensures forall i, j :: 0 <= i < j < |out| ==> out[i] != out[j]
    ensures forall k :: 0 <= k < |items| && items[k] != "" ==> items[k] in out
    ensures forall i, j :: 0 <= i < j < |out| ==> FirstIndex(items, out[i]) < FirstIndex(items, out[j])
  {
    var seen: set<string> := {};
    out := [];
    var n := 0;
    while n < |items|
      invariant 0 <= n <= |items|
      invariant UniqueSoFar(items, seen, out, n)
    {
      UniqueStep(items, seen, out, n);
      var item := items[n];
      if item != "" && item !in seen {
        seen := seen + {item};
        out := out + [item];
      }
      n := n + 1;
    }
    OrderedDistinct(items, out);
  }

  /** The loop invariant of `unique_in_order` after `n` items. */
  ghost predicate UniqueSoFar(items: seq<string>, seen: set<string>, out: seq<string>, n: nat) {
    && (forall x :: x in seen <==> x in out)
    && (forall i :: 0 <= i < |out| ==> out[i] != "" && out[i] in items && FirstIndex(items, out[i]) < n)
    && (forall i, j :: 0 <= i < j < |out| ==> FirstIndex(items, out[i]) < FirstIndex(items, out[j]))
    && (forall k :: 0 <= k < n && k < |items| && items[k] != "" ==> items[k] in seen)
  }

  /** One turn of the loop keeps the invariant. */
  lemma UniqueStep(items: seq<string>, seen: set<string>, out: seq<string>, n: nat)
    requires n < |items| && UniqueSoFar(items, seen, out, n)
    ensures var item := items[n];
      if item != "" && item !in seen then UniqueSoFar(items, seen + {item}, out + [item], n + 1)
      else UniqueSoFar(items, seen, out, n + 1)
  {
    var item := items[n];
    if item != "" && item !in seen {
      UniqueAdd(items, seen, out, n);
    } else {
      UniqueSkip(items, seen, out, n);
    }
  }

  lemma UniqueAdd(items: seq<string>, seen: set<string>, out: seq<string>, n: nat)
    requires n < |items| && items[n] != "" && items[n] !in seen
    requires UniqueSoFar(items, seen, out, n)
    ensures UniqueSoFar(items, seen + {items[n]}, out + [items[n]], n + 1)
  {
    var item := items[n];
    var next := out + [item];
    assert item !in out;
    FirstOccurrenceAppend(items, out, n);
    forall x ensures x in seen + {item} <==> x in next {
      assert x in next <==> x in out || x == item;
    }
    forall k | 0 <= k < n + 1 && k < |items| && items[k] != ""
      ensures items[k] in seen + {item}
    {
    }
  }

  lemma UniqueSkip(items: seq<string>, seen: set<string>, out: seq<string>, n: nat)
    requires n < |items| && (items[n] == "" || items[n] in seen)
    requires UniqueSoFar(items, seen, out, n)
    ensures UniqueSoFar(items, seen, out, n + 1)
  {
  }

  /** Outputs in strictly increasing order of first occurrence are
      distinct. */
  lemma OrderedDistinct(items: seq<string>, out: seq<string>)
    requires forall i :: 0 <= i < |out| ==> out[i] in items
    requires forall i, j :: 0 <= i < j < |out| ==> FirstIndex(items, out[i]) < FirstIndex(items, out[j])
    ensures forall i, j :: 0 <= i < j < |out| ==> out[i] != out[j]
  {
  }
}
