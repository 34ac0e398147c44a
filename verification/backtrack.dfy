/**
 * A backtracking matcher for patterns that are a fixed concatenation of
 * pieces, the way Python's `re` engine runs `search` on such a pattern.
 *
 * The matcher is generic in what a piece is. It is given two things:
 * `valid(piece, s, p, q)`, whether the piece can take `s[p..q]` (its
 * language), and `ends(piece, s, p)`, the end positions the engine tries
 * for the piece at `p`, in the engine's order. Matching at a start takes
 * the first combination of ends, in that order, that gets through every
 * piece; searching takes the leftmost start that matches.
 *
 * A match is the sequence of its piece boundaries: `pos[0]` is where it
 * starts and `pos[j]` where piece `j - 1` ends.
 *
 * When every end tried is valid (`Sound`) and every valid end is tried
 * (`Complete`), the search finds a match exactly when one exists, and
 * then the leftmost one.
 */
module Backtrack {
  import opened Wrappers

  type Valid<!P> = (P, string, nat, nat) -> bool
  type Ends<!P> = (P, string, nat) -> seq<nat>

  /** Every end the engine tries is one the piece can take. */
  ghost predicate Sound<P(!new)>(valid: Valid<P>, ends: Ends<P>) {
    forall piece, s, p, k :: 0 <= k < |ends(piece, s, p)| ==> valid(piece, s, p, ends(piece, s, p)[k])
  }

  /** Every end the piece can take is one the engine tries. */
  ghost predicate Complete<P(!new)>(valid: Valid<P>, ends: Ends<P>) {
    forall piece, s, p, q :: valid(piece, s, p, q) ==> q in ends(piece, s, p)
  }

  /** `pos` is a complete match of `pat`: one boundary more than pieces,
      and every piece takes the text between its two boundaries. */
  ghost predicate IsMatch<P>(valid: Valid<P>, pat: seq<P>, s: string, pos: seq<nat>) {
    && |pos| == |pat| + 1
    && pos[0] <= |s|
    && forall j :: 0 <= j < |pat| ==> valid(pat[j], s, pos[j], pos[j + 1])
  }

  /** `m` completes the prefix `pos`: it extends it, and every piece from
      the last boundary of `pos` on takes its text. */
  ghost predicate Completes<P>(valid: Valid<P>, pat: seq<P>, s: string, pos: seq<nat>, m: seq<nat>)
    requires 1 <= |pos|
  {
    && |m| == |pat| + 1
    && |pos| <= |m|
    && m[..|pos|] == pos
    && forall j :: |pos| - 1 <= j < |pat| ==> valid(pat[j], s, m[j], m[j + 1])
  }

  /** The pieces before `|pos| - 1` have been matched with boundaries
      `pos`; try the ends of the next piece in order. */
  function MatchRest<P>(ends: Ends<P>, pat: seq<P>, s: string, pos: seq<nat>): Option<seq<nat>>
    requires 1 <= |pos| <= |pat| + 1
    decreases |pat| + 1 - |pos|, 1, 0
  {
    if |pos| == |pat| + 1 then Some(pos)
    else TryEnds(ends, pat, s, pos, ends(pat[|pos| - 1], s, pos[|pos| - 1]))
  }

  /** The first candidate end, in order, from which the rest matches. */
  function TryEnds<P>(ends: Ends<P>, pat: seq<P>, s: string, pos: seq<nat>, cands: seq<nat>): Option<seq<nat>>
    requires 1 <= |pos| <= |pat|
    decreases |pat| + 1 - |pos|, 0, |cands|
  {
    if |cands| == 0 then None
    else
      match MatchRest(ends, pat, s, pos + [cands[0]])
      case Some(m) => Some(m)
      case None => TryEnds(ends, pat, s, pos, cands[1..])
  }

  /** `pat` matched at `start`. */
  function MatchAt<P>(ends: Ends<P>, pat: seq<P>, s: string, start: nat): Option<seq<nat>> {
    MatchRest(ends, pat, s, [start])
  }

  /** `pattern.search(s)` from position `i` on: the leftmost start that
      matches. */
  function SearchFrom<P>(ends: Ends<P>, pat: seq<P>, s: string, i: nat): Option<seq<nat>>
    decreases |s| + 1 - i
  {
    if i > |s| then None
    else
      match MatchAt(ends, pat, s, i)
      case Some(m) => Some(m)
      case None => SearchFrom(ends, pat, s, i + 1)
  }

  function Search<P>(ends: Ends<P>, pat: seq<P>, s: string): Option<seq<nat>> {
    SearchFrom(ends, pat, s, 0)
  }

  // ---------------------------------------------------------------------
  // Soundness
  // ---------------------------------------------------------------------

  /** A match found from a prefix completes that prefix. */
  lemma {:induction false} MatchRestSound<P(!new)>(valid: Valid<P>, ends: Ends<P>, pat: seq<P>, s: string, pos: seq<nat>)
    requires Sound(valid, ends)
    requires 1 <= |pos| <= |pat| + 1
    ensures MatchRest(ends, pat, s, pos).Some? ==> Completes(valid, pat, s, pos, MatchRest(ends, pat, s, pos).value)
    decreases |pat| + 1 - |pos|, 1, 0
  {
    if |pos| == |pat| + 1 {
      assert pos[..|pos|] == pos;
    } else {
      var cands := ends(pat[|pos| - 1], s, pos[|pos| - 1]);
      TryEndsSound(valid, ends, pat, s, pos, cands);
    }
  }

  lemma {:induction false} TryEndsSound<P(!new)>(valid: Valid<P>, ends: Ends<P>, pat: seq<P>, s: string, pos: seq<nat>, cands: seq<nat>)
    requires Sound(valid, ends)
    requires 1 <= |pos| <= |pat|
    requires forall k :: 0 <= k < |cands| ==> valid(pat[|pos| - 1], s, pos[|pos| - 1], cands[k])
    ensures TryEnds(ends, pat, s, pos, cands).Some? ==> Completes(valid, pat, s, pos, TryEnds(ends, pat, s, pos, cands).value)
    decreases |pat| + 1 - |pos|, 0, |cands|
  {
    if |cands| > 0 {
      var q := cands[0];
      var r := MatchRest(ends, pat, s, pos + [q]);
      if r.Some? {
        MatchRestSound(valid, ends, pat, s, pos + [q]);
        CompletesStep(valid, pat, s, pos, q, r.value);
        assert TryEnds(ends, pat, s, pos, cands) == r;
      } else {
        TryEndsSound(valid, ends, pat, s, pos, cands[1..]);
        assert TryEnds(ends, pat, s, pos, cands) == TryEnds(ends, pat, s, pos, cands[1..]);
      }
    }
  }

  /** Completing `pos + [q]`, where the next piece takes `q`, completes
      `pos`. */
  lemma CompletesStep<P>(valid: Valid<P>, pat: seq<P>, s: string, pos: seq<nat>, q: nat, m: seq<nat>)
    requires 1 <= |pos| <= |pat|
    requires valid(pat[|pos| - 1], s, pos[|pos| - 1], q)
    requires Completes(valid, pat, s, pos + [q], m)
    ensures Completes(valid, pat, s, pos, m)
  {
    assert m[..|pos|] == (pos + [q])[..|pos|] == pos;
    assert m[|pos| - 1] == pos[|pos| - 1] && m[|pos|] == q by {
      assert m[..|pos| + 1] == pos + [q];
    }
  }

  /** A match found at `start` is a match starting there. */
  lemma MatchAtSound<P(!new)>(valid: Valid<P>, ends: Ends<P>, pat: seq<P>, s: string, start: nat)
    requires Sound(valid, ends) && start <= |s|
    ensures MatchAt(ends, pat, s, start).Some? ==>
      IsMatch(valid, pat, s, MatchAt(ends, pat, s, start).value) && MatchAt(ends, pat, s, start).value[0] == start
  {
    MatchRestSound(valid, ends, pat, s, [start]);
    if MatchAt(ends, pat, s, start).Some? {
      var m := MatchAt(ends, pat, s, start).value;
      assert m[..1] == [start];
      assert m[0] == m[..1][0];
    }
  }

  /** The search finds a match at or after `i`, and none of the starts it
      passed over matched. */
  lemma {:induction false} SearchFromSound<P(!new)>(valid: Valid<P>, ends: Ends<P>, pat: seq<P>, s: string, i: nat)
    requires Sound(valid, ends)
    ensures SearchFrom(ends, pat, s, i).Some? ==>
      && IsMatch(valid, pat, s, SearchFrom(ends, pat, s, i).value)
      && i <= SearchFrom(ends, pat, s, i).value[0]
      && (forall j :: i <= j < SearchFrom(ends, pat, s, i).value[0] ==> MatchAt(ends, pat, s, j).None?)
      && MatchAt(ends, pat, s, SearchFrom(ends, pat, s, i).value[0]) == SearchFrom(ends, pat, s, i)
    decreases |s| + 1 - i
  {
    if i <= |s| {
      MatchAtSound(valid, ends, pat, s, i);
      if MatchAt(ends, pat, s, i).None? {
        SearchFromSound(valid, ends, pat, s, i + 1);
        assert SearchFrom(ends, pat, s, i) == SearchFrom(ends, pat, s, i + 1);
      } else {
        assert SearchFrom(ends, pat, s, i) == MatchAt(ends, pat, s, i);
      }
    }
  }

  // ---------------------------------------------------------------------
  // Completeness
  // ---------------------------------------------------------------------

  /** Whatever valid match extends a prefix, the matcher finds one. */
  lemma {:induction false} MatchRestComplete<P(!new)>(valid: Valid<P>, ends: Ends<P>, pat: seq<P>, s: string, pos: seq<nat>, full: seq<nat>)
    requires Complete(valid, ends)
    requires 1 <= |pos| <= |pat| + 1
    requires IsMatch(valid, pat, s, full) && full[..|pos|] == pos
    ensures MatchRest(ends, pat, s, pos).Some?
    decreases |pat| + 1 - |pos|, 1, 0
  {
    if |pos| <= |pat| {
      var j := |pos| - 1;
      assert full[j] == pos[j];
      assert valid(pat[j], s, full[j], full[j + 1]);
      TryEndsComplete(valid, ends, pat, s, pos, ends(pat[j], s, pos[j]), full);
    }
  }

  lemma {:induction false} TryEndsComplete<P(!new)>(valid: Valid<P>, ends: Ends<P>, pat: seq<P>, s: string, pos: seq<nat>, cands: seq<nat>, full: seq<nat>)
    requires Complete(valid, ends)
    requires 1 <= |pos| <= |pat|
    requires IsMatch(valid, pat, s, full) && full[..|pos|] == pos
    requires full[|pos|] in cands
    ensures TryEnds(ends, pat, s, pos, cands).Some?
    decreases |pat| + 1 - |pos|, 0, |cands|
  {
    var q := cands[0];
    if MatchRest(ends, pat, s, pos + [q]).None? {
      if q == full[|pos|] {
        assert full[..|pos| + 1] == pos + [q];
        MatchRestComplete(valid, ends, pat, s, pos + [q], full);
      } else {
        assert full[|pos|] in cands[1..];
        TryEndsComplete(valid, ends, pat, s, pos, cands[1..], full);
      }
    }
  }

  /** Any match starting at `start` means the matcher finds one there. */
  lemma MatchAtComplete<P(!new)>(valid: Valid<P>, ends: Ends<P>, pat: seq<P>, s: string, full: seq<nat>)
    requires Complete(valid, ends) && IsMatch(valid, pat, s, full)
    ensures MatchAt(ends, pat, s, full[0]).Some?
  {
    MatchRestComplete(valid, ends, pat, s, [full[0]], full);
  }

  lemma {:induction false} SearchFromComplete<P(!new)>(valid: Valid<P>, ends: Ends<P>, pat: seq<P>, s: string, i: nat, full: seq<nat>)
    requires Complete(valid, ends)
    requires IsMatch(valid, pat, s, full) && i <= full[0]
    ensures SearchFrom(ends, pat, s, i).Some?
    decreases |s| + 1 - i
  {
    MatchAtComplete(valid, ends, pat, s, full);
    if i < full[0] && MatchAt(ends, pat, s, i).None? {
      SearchFromComplete(valid, ends, pat, s, i + 1, full);
    }
  }

  /** `m` is a match and no match starts further left. */
  ghost predicate Leftmost<P>(valid: Valid<P>, pat: seq<P>, s: string, m: seq<nat>) {
    && IsMatch(valid, pat, s, m)
    && forall pos :: IsMatch(valid, pat, s, pos) ==> m[0] <= pos[0]
  }

  /** The search finds a match exactly when the pattern matches somewhere,
      and then the leftmost one, which is also what the matcher gives at
      that start. */
  lemma SearchSpec<P(!new)>(valid: Valid<P>, ends: Ends<P>, pat: seq<P>, s: string)
    requires Sound(valid, ends) && Complete(valid, ends)
    ensures Search(ends, pat, s).Some? <==> exists pos :: IsMatch(valid, pat, s, pos)
    ensures Search(ends, pat, s).Some? ==>
      && Leftmost(valid, pat, s, Search(ends, pat, s).value)
      && MatchAt(ends, pat, s, Search(ends, pat, s).value[0]) == Search(ends, pat, s)
  {
    SearchFromSound(valid, ends, pat, s, 0);
    forall pos | IsMatch(valid, pat, s, pos) ensures Search(ends, pat, s).Some? {
      SearchFromComplete(valid, ends, pat, s, 0, pos);
    }
    if Search(ends, pat, s).Some? {
      var m := Search(ends, pat, s).value;
      forall pos | IsMatch(valid, pat, s, pos) ensures m[0] <= pos[0] {
        if pos[0] < m[0] {
          MatchAtComplete(valid, ends, pat, s, pos);
        }
      }
    }
  }

  // ---------------------------------------------------------------------
  // How backtracking settles the boundaries
  // ---------------------------------------------------------------------

  /** The match found from a prefix is also what is found from any longer
      prefix of it: backtracking settles each boundary once and for all. */
  lemma {:induction false} MatchRestThrough<P>(ends: Ends<P>, pat: seq<P>, s: string, pos: seq<nat>, k: nat)
    requires 1 <= |pos| <= k <= |pat| + 1
    requires MatchRest(ends, pat, s, pos).Some?
    ensures var m := MatchRest(ends, pat, s, pos).value;
      k <= |m| && MatchRest(ends, pat, s, m[..k]) == Some(m)
    decreases |pat| + 1 - |pos|, 1, 0
  {
    if |pos| == |pat| + 1 {
      assert pos[..k] == pos;
    } else {
      TryEndsThrough(ends, pat, s, pos, ends(pat[|pos| - 1], s, pos[|pos| - 1]), k);
    }
  }

  lemma {:induction false} TryEndsThrough<P>(ends: Ends<P>, pat: seq<P>, s: string, pos: seq<nat>, cands: seq<nat>, k: nat)
    requires 1 <= |pos| <= |pat| && |pos| <= k <= |pat| + 1
    requires TryEnds(ends, pat, s, pos, cands).Some?
    requires MatchRest(ends, pat, s, pos) == TryEnds(ends, pat, s, pos, cands)
    ensures var m := TryEnds(ends, pat, s, pos, cands).value;
      k <= |m| && MatchRest(ends, pat, s, m[..k]) == Some(m)
    decreases |pat| + 1 - |pos|, 0, |cands|
  {
    var q := cands[0];
    var r := MatchRest(ends, pat, s, pos + [q]);
    if r.Some? {
      var m := r.value;
      assert TryEnds(ends, pat, s, pos, cands) == r;
      MatchRestPrefix(ends, pat, s, pos + [q]);
      if k == |pos| {
        assert m[..k] == (pos + [q])[..|pos|] == pos by {
          assert m[..|pos| + 1] == pos + [q];
        }
      } else {
        MatchRestThrough(ends, pat, s, pos + [q], k);
      }
    } else {
      assert TryEnds(ends, pat, s, pos, cands) == TryEnds(ends, pat, s, pos, cands[1..]);
      TryEndsThrough(ends, pat, s, pos, cands[1..], k);
    }
  }

  /** A match found from a prefix extends it. */
  lemma {:induction false} MatchRestPrefix<P>(ends: Ends<P>, pat: seq<P>, s: string, pos: seq<nat>)
    requires 1 <= |pos| <= |pat| + 1
    ensures MatchRest(ends, pat, s, pos).Some? ==>
      |MatchRest(ends, pat, s, pos).value| == |pat| + 1 && MatchRest(ends, pat, s, pos).value[..|pos|] == pos
    decreases |pat| + 1 - |pos|, 1, 0
  {
    if |pos| == |pat| + 1 {
      assert pos[..|pos|] == pos;
    } else {
      TryEndsPrefix(ends, pat, s, pos, ends(pat[|pos| - 1], s, pos[|pos| - 1]));
    }
  }

  lemma {:induction false} TryEndsPrefix<P>(ends: Ends<P>, pat: seq<P>, s: string, pos: seq<nat>, cands: seq<nat>)
    requires 1 <= |pos| <= |pat|
    ensures TryEnds(ends, pat, s, pos, cands).Some? ==>
      |TryEnds(ends, pat, s, pos, cands).value| == |pat| + 1 && TryEnds(ends, pat, s, pos, cands).value[..|pos|] == pos
    decreases |pat| + 1 - |pos|, 0, |cands|
  {
    if |cands| > 0 {
      var q := cands[0];
      var r := MatchRest(ends, pat, s, pos + [q]);
      if r.Some? {
        MatchRestPrefix(ends, pat, s, pos + [q]);
        assert r.value[..|pos|] == (pos + [q])[..|pos|] by {
          assert r.value[..|pos| + 1] == pos + [q];
        }
        assert TryEnds(ends, pat, s, pos, cands) == r;
      } else {
        TryEndsPrefix(ends, pat, s, pos, cands[1..]);
        assert TryEnds(ends, pat, s, pos, cands) == TryEnds(ends, pat, s, pos, cands[1..]);
      }
    }
  }

  /** When only the last two pieces are left, the first end of the first
      is tried with the first end of the second, and when both lists are
      non-empty that is the match. */
  lemma LastTwo<P>(ends: Ends<P>, pat: seq<P>, s: string, pos: seq<nat>)
    requires |pat| >= 2 && |pos| == |pat| - 1 >= 1
    requires |ends(pat[|pat| - 2], s, pos[|pos| - 1])| > 0
    requires |ends(pat[|pat| - 1], s, ends(pat[|pat| - 2], s, pos[|pos| - 1])[0])| > 0
    ensures var e := ends(pat[|pat| - 2], s, pos[|pos| - 1])[0];
      MatchRest(ends, pat, s, pos) == Some(pos + [e, ends(pat[|pat| - 1], s, e)[0]])
  {
    var e := ends(pat[|pat| - 2], s, pos[|pos| - 1])[0];
    var f := ends(pat[|pat| - 1], s, e)[0];
    assert (pos + [e])[|pos + [e]| - 1] == e;
    assert pos + [e] + [f] == pos + [e, f];
    assert MatchRest(ends, pat, s, pos + [e] + [f]) == Some(pos + [e, f]);
    assert TryEnds(ends, pat, s, pos + [e], ends(pat[|pat| - 1], s, e)) == Some(pos + [e, f]);
    assert MatchRest(ends, pat, s, pos + [e]) == Some(pos + [e, f]);
  }
}
