/** The two PHP string built-ins the customizer layer relies on: `str_replace`
    with one search string, and `strtolower` restricted to ASCII. */
module Strings {

  /** `pat` occurs in `s` starting at index `i`. */
  predicate MatchAt(s: string, i: int, pat: string) {
    0 <= i && i + |pat| <= |s| && s[i..i + |pat|] == pat
  }

  /** `pat` occurs nowhere in `s`. */
  predicate NoMatch(s: string, pat: string) {
    forall i :: 0 <= i <= |s| ==> !MatchAt(s, i, pat)
  }

  /** When `p` is followed by `pat`, the leftmost occurrence of `pat` is that
      one: no occurrence starts inside `p`. */
  predicate Clean(p: string, pat: string) {
    forall i :: 0 <= i < |p| ==> !MatchAt(p + pat, i, pat)
  }

  /** `implode(sep, parts)`. */
  function Join(parts: seq<string>, sep: string): string
    decreases |parts|
  {
    if |parts| == 0 then ""
    else if |parts| == 1 then parts[0]
    else parts[0] + sep + Join(parts[1..], sep)
  }

  /** PHP `str_replace($search, $replacement, $subject)` for one search string:
      scans left to right, replaces each occurrence it meets and resumes after
      it, so occurrences never overlap and inserted text is never rescanned.
      An empty search string leaves the subject as it is. */
  function ReplaceAll(subject: string, search: string, replacement: string): string
    decreases |subject|
  {
    if |search| == 0 || |subject| < |search| then subject
    else if subject[..|search|] == search then
      replacement + ReplaceAll(subject[|search|..], search, replacement)
    else [subject[0]] + ReplaceAll(subject[1..], search, replacement)
  }

  /** What the scan emits first. */
  lemma ReplaceAllHead(s: string, pat: string, rep: string)
    requires |pat| > 0 && |rep| > 0 && |s| > 0
    ensures |ReplaceAll(s, pat, rep)| > 0
    ensures ReplaceAll(s, pat, rep)[0] == if MatchAt(s, 0, pat) then rep[0] else s[0]
  {
  }

  /** A subject in which the search string does not occur is returned
      unchanged, and so is every subject when the search string is empty. */
  lemma {:induction false} ReplaceAllNoMatch(s: string, pat: string, rep: string)
    requires |pat| == 0 || NoMatch(s, pat)
    ensures ReplaceAll(s, pat, rep) == s
    decreases |s|
  {
    if |pat| == 0 || |s| < |pat| {
    } else {
      assert !MatchAt(s, 0, pat);
      forall i | 0 <= i <= |s[1..]|
        ensures !MatchAt(s[1..], i, pat)
      {
        assert !MatchAt(s, i + 1, pat);
        if i + |pat| <= |s[1..]| {
          assert s[1..][i..i + |pat|] == s[i + 1..i + 1 + |pat|];
        }
      }
      ReplaceAllNoMatch(s[1..], pat, rep);
    }
  }

  /** A clean piece followed by the search string: the piece is copied, the
      occurrence is replaced, and the scan resumes right after it. */
  lemma {:induction false} ReplaceAllCleanPiece(p: string, pat: string, rep: string, t: string)
    requires |pat| > 0 && Clean(p, pat)
    ensures ReplaceAll(p + pat + t, pat, rep) == p + rep + ReplaceAll(t, pat, rep)
    decreases |p|
  {
    var s := p + pat + t;
    if |p| == 0 {
      assert s == pat + t;
      assert s[..|pat|] == pat;
      assert s[|pat|..] == t;
    } else {
      assert !MatchAt(p + pat, 0, pat);
      assert s[..|pat|] == (p + pat)[..|pat|];
      assert s[1..] == p[1..] + pat + t;
      assert ReplaceAll(s, pat, rep) == [p[0]] + ReplaceAll(p[1..] + pat + t, pat, rep);
      CleanTail(p, pat);
      ReplaceAllCleanPiece(p[1..], pat, rep, t);
      assert [p[0]] + p[1..] == p;
    }
  }

  /** Dropping the first character of a clean piece leaves it clean. */
  lemma CleanTail(p: string, pat: string)
    requires |p| > 0 && Clean(p, pat)
    ensures Clean(p[1..], pat)
  {
    forall i | 0 <= i < |p[1..]|
      ensures !MatchAt(p[1..] + pat, i, pat)
    {
      assert !MatchAt(p + pat, i + 1, pat);
      assert (p[1..] + pat)[i..i + |pat|] == (p + pat)[i + 1..i + 1 + |pat|];
    }
  }

  /** The characterisation of `str_replace`: cut the subject at the
      occurrences the left-to-right scan finds, and the result is the same
      pieces glued with the replacement instead. In particular every
      character outside an occurrence survives, in order, and whatever the
      replacement contains is left as it is. */
  lemma {:induction false} ReplaceAllJoin(parts: seq<string>, pat: string, rep: string)
    requires |pat| > 0 && |parts| > 0
    requires forall k :: 0 <= k < |parts| - 1 ==> Clean(parts[k], pat)
    requires NoMatch(parts[|parts| - 1], pat)
    ensures ReplaceAll(Join(parts, pat), pat, rep) == Join(parts, rep)
    decreases |parts|
  {
    if |parts| == 1 {
      ReplaceAllNoMatch(parts[0], pat, rep);
    } else {
      ReplaceAllJoin(parts[1..], pat, rep);
      ReplaceAllCleanPiece(parts[0], pat, rep, Join(parts[1..], pat));
    }
  }

  /** A replacement as long as the search string keeps the length. */
  lemma {:induction false} ReplaceAllSameLength(s: string, pat: string, rep: string)
    requires |rep| == |pat|
    ensures |ReplaceAll(s, pat, rep)| == |s|
    decreases |s|
  {
    if |pat| == 0 || |s| < |pat| {
    } else if s[..|pat|] == pat {
      ReplaceAllSameLength(s[|pat|..], pat, rep);
    } else {
      ReplaceAllSameLength(s[1..], pat, rep);
    }
  }

  /** `explode($pat, $s)` for a non-empty search string: the pieces between
      the occurrences the left-to-right scan finds. */
  function Split(s: string, pat: string): (parts: seq<string>)
    requires |pat| > 0
    ensures |parts| > 0
    decreases |s|
  {
    if |s| < |pat| then [s]
    else if s[..|pat|] == pat then [""] + Split(s[|pat|..], pat)
    else
      var rest := Split(s[1..], pat);
      [[s[0]] + rest[0]] + rest[1..]
  }

  /** The pieces rebuild `s`, each piece but the last is clean and the last
      holds no occurrence. */
  predicate SplitsAs(s: string, pat: string, parts: seq<string>) {
    && |parts| > 0
    && Join(parts, pat) == s
    && (forall k :: 0 <= k < |parts| - 1 ==> Clean(parts[k], pat))
    && NoMatch(parts[|parts| - 1], pat)
  }

  /** Every subject is cut by `Split` into pieces that rebuild it, each but
      the last clean and the last free of occurrences. */
  lemma {:induction false} SplitJoin(s: string, pat: string)
    requires |pat| > 0
    ensures SplitsAs(s, pat, Split(s, pat))
    decreases |s|
  {
    if |s| < |pat| {
      forall i | 0 <= i <= |s| ensures !MatchAt(s, i, pat) { }
    } else if s[..|pat|] == pat {
      var t := s[|pat|..];
      SplitJoin(t, pat);
      assert s == pat + t;
      SplitsAfterMatch(pat, Split(t, pat), t);
    } else {
      var t := s[1..];
      SplitJoin(t, pat);
      assert s == [s[0]] + t;
      assert !MatchAt(s, 0, pat);
      SplitsAfterChar(s[0], pat, Split(t, pat), t);
    }
  }

  /** An occurrence in front of a split subject adds an empty first piece. */
  lemma SplitsAfterMatch(pat: string, rest: seq<string>, t: string)
    requires |pat| > 0 && SplitsAs(t, pat, rest)
    ensures SplitsAs(pat + t, pat, [""] + rest)
  {
    var parts := [""] + rest;
    assert parts[1..] == rest;
    assert Join(parts, pat) == "" + pat + Join(rest, pat);
    assert "" + pat + t == pat + t;
    forall k | 1 <= k < |parts| ensures parts[k] == rest[k - 1] { }
  }

  /** A character in front of a split subject, not starting an occurrence,
      joins the first piece. */
  lemma SplitsAfterChar(c: char, pat: string, rest: seq<string>, t: string)
    requires |pat| > 0 && SplitsAs(t, pat, rest) && !MatchAt([c] + t, 0, pat)
    ensures SplitsAs([c] + t, pat, [[c] + rest[0]] + rest[1..])
  {
    var first := [c] + rest[0];
    if |rest| == 1 {
      assert Join([first], pat) == first;
      forall i | 0 <= i <= |first| ensures !MatchAt(first, i, pat) {
        if 1 <= i && i + |pat| <= |first| {
          assert first[i..i + |pat|] == rest[0][i - 1..i - 1 + |pat|];
          assert !MatchAt(rest[0], i - 1, pat);
        }
      }
    } else {
      var tail := Join(rest[1..], pat);
      assert t == rest[0] + pat + tail;
      assert [c] + t == first + pat + tail;
      assert Join([first] + rest[1..], pat) == first + pat + tail by {
        assert ([first] + rest[1..])[1..] == rest[1..];
      }
      FirstPieceClean(c, pat, rest[0], tail);
      var parts := [first] + rest[1..];
      forall k | 1 <= k < |parts| ensures parts[k] == rest[k] { }
    }
  }

  /** The piece-level fact behind SplitsAfterChar. */
  lemma FirstPieceClean(c: char, pat: string, p: string, tail: string)
    requires |pat| > 0 && Clean(p, pat) && !MatchAt([c] + p + pat + tail, 0, pat)
    ensures Clean([c] + p, pat)
  {
    var q := [c] + p;
    forall i | 0 <= i < |q| ensures !MatchAt(q + pat, i, pat) {
      if i == 0 {
        assert ([c] + p + pat + tail)[..|pat|] == (q + pat)[..|pat|];
      } else {
        assert !MatchAt(p + pat, i - 1, pat);
        if i + |pat| <= |q + pat| {
          assert (q + pat)[i..i + |pat|] == (p + pat)[i - 1..i - 1 + |pat|];
        }
      }
    }
  }

  /** Together with ReplaceAllJoin: `str_replace` on ANY subject is the
      subject's pieces glued with the replacement. */
  lemma {:induction false} ReplaceAllSplit(s: string, pat: string, rep: string)
    requires |pat| > 0
    ensures ReplaceAll(s, pat, rep) == Join(Split(s, pat), rep)
  {
    SplitJoin(s, pat);
    ReplaceAllJoin(Split(s, pat), pat, rep);
  }

  /** For a single-character search string the replacement acts character by
      character, so it distributes over concatenation. */
  lemma {:induction false} ReplaceAllCharConcat(a: string, b: string, pat: string, rep: string)
    requires |pat| == 1
    ensures ReplaceAll(a + b, pat, rep) == ReplaceAll(a, pat, rep) + ReplaceAll(b, pat, rep)
    decreases |a|
  {
    if |a| == 0 {
      assert a + b == b;
    } else {
      ReplaceAllCharConcat(a[1..], b, pat, rep);
      assert (a + b)[1..] == a[1..] + b;
      assert (a + b)[..1] == a[..1];
    }
  }

  /** Replacing a character by text that lacks it removes the character. */
  lemma {:induction false} ReplaceAllRemovesChar(s: string, c: char, rep: string)
    requires c !in rep
    ensures c !in ReplaceAll(s, [c], rep)
    decreases |s|
  {
    if |s| == 0 {
    } else if s[..1] == [c] {
      ReplaceAllRemovesChar(s[1..], c, rep);
    } else {
      assert s[0] != c;
      ReplaceAllRemovesChar(s[1..], c, rep);
    }
  }

  /** Replacing one character by one character works position by position:
      each occurrence of `c` becomes `d`, every other character stays. */
  lemma {:induction false} ReplaceAllCharAt(s: string, c: char, d: char)
    ensures |ReplaceAll(s, [c], [d])| == |s|
    ensures forall i :: 0 <= i < |s| ==> ReplaceAll(s, [c], [d])[i] == if s[i] == c then d else s[i]
    decreases |s|
  {
    if |s| > 0 {
      ReplaceAllCharAt(s[1..], c, d);
      assert s[..1] == [c] <==> s[0] == c;
      var r := ReplaceAll(s, [c], [d]);
      assert r == [if s[0] == c then d else s[0]] + ReplaceAll(s[1..], [c], [d]);
      forall i | 0 < i < |s| ensures r[i] == if s[i] == c then d else s[i] {
        assert s[1..][i - 1] == s[i];
      }
    }
  }

  /** An occurrence of a two-character search string is two adjacent characters. */
  lemma PairMatch(s: string, i: int, pat: string)
    requires |pat| == 2
    ensures MatchAt(s, i, pat) <==> 0 <= i && i + 2 <= |s| && s[i] == pat[0] && s[i + 1] == pat[1]
  {
    if 0 <= i && i + 2 <= |s| && s[i] == pat[0] && s[i + 1] == pat[1] {
      assert s[i..i + 2] == pat;
    }
  }

  /** A two-character search string is gone after replacement, provided the
      replacement neither contains it nor can join with a neighbour to form
      it. */
  lemma {:induction false} ReplaceAllRemovesPair(s: string, pat: string, rep: string)
    requires |pat| == 2 && |rep| > 0
    requires NoMatch(rep, pat) && rep[0] != pat[1] && rep[|rep| - 1] != pat[0]
    ensures NoMatch(ReplaceAll(s, pat, rep), pat)
    decreases |s|
  {
    var r := ReplaceAll(s, pat, rep);
    if |s| < 2 {
      forall i | 0 <= i <= |r| ensures !MatchAt(r, i, pat) { }
    } else if s[..2] == pat {
      var t := ReplaceAll(s[2..], pat, rep);
      ReplaceAllRemovesPair(s[2..], pat, rep);
      assert r == rep + t;
      forall i | 0 <= i <= |r|
        ensures !MatchAt(r, i, pat)
      {
        PairMatch(r, i, pat);
        if i + 2 <= |rep| {
          PairMatch(rep, i, pat);
        } else if i + 1 == |rep| {
          assert r[i] == rep[|rep| - 1];
        } else if i + 2 <= |r| {
          PairMatch(t, i - |rep|, pat);
          assert t[i - |rep|] == r[i] && t[i - |rep| + 1] == r[i + 1];
        }
      }
    } else {
      var t := ReplaceAll(s[1..], pat, rep);
      ReplaceAllRemovesPair(s[1..], pat, rep);
      assert r == [s[0]] + t;
      ReplaceAllHead(s[1..], pat, rep);
      PairMatch(s, 0, pat);
      PairMatch(s[1..], 0, pat);
      forall i | 0 <= i <= |r|
        ensures !MatchAt(r, i, pat)
      {
        PairMatch(r, i, pat);
        if i == 0 {
          assert s[..2] == [s[0], s[1]];
        } else if i + 2 <= |r| {
          PairMatch(t, i - 1, pat);
          assert t[i - 1] == r[i] && t[i] == r[i + 1];
        }
      }
    }
  }

  /** A search string cannot occur where its first character is absent. */
  lemma NoMatchWithoutFirstChar(s: string, pat: string)
    requires |pat| > 0 && pat[0] !in s
    ensures NoMatch(s, pat)
  {
    forall i | 0 <= i <= |s| ensures !MatchAt(s, i, pat) {
      if i + |pat| <= |s| {
        assert s[i..i + |pat|][0] == s[i];
      }
    }
  }

  /** Nor can it start inside a piece that lacks its first character. */
  lemma CleanWithoutFirstChar(p: string, pat: string)
    requires |pat| > 0 && pat[0] !in p
    ensures Clean(p, pat)
  {
    forall i | 0 <= i < |p| ensures !MatchAt(p + pat, i, pat) {
      if i + |pat| <= |p + pat| {
        assert (p + pat)[i..i + |pat|][0] == p[i];
      }
    }
  }

  /** For a search string of two different characters, a piece in which it
      does not occur is clean. */
  lemma CleanPair(p: string, pat: string)
    requires |pat| == 2 && pat[0] != pat[1] && NoMatch(p, pat)
    ensures Clean(p, pat)
  {
    forall i | 0 <= i < |p| ensures !MatchAt(p + pat, i, pat) {
      PairMatch(p + pat, i, pat);
      if i + 1 < |p| {
        PairMatch(p, i, pat);
        assert (p + pat)[i] == p[i] && (p + pat)[i + 1] == p[i + 1];
      } else {
        assert (p + pat)[i + 1] == pat[0];
      }
    }
  }

  /** `strtolower` on one character, ASCII letters only. */
  function LowerChar(c: char): char {
    if 'A' <= c <= 'Z' then (c as int + 32) as char else c
  }

  predicate IsLowerAscii(s: string) {
    forall i :: 0 <= i < |s| ==> !('A' <= s[i] <= 'Z')
  }

  /** PHP `strtolower`, ASCII letters only. */
  function Lower(s: string): string {
    seq(|s|, i requires 0 <= i < |s| => LowerChar(s[i]))
  }

  /** `strtolower` leaves no upper-case letter, maps a space to itself and
      nothing else to a space. */
  lemma LowerProperties(s: string)
    ensures |Lower(s)| == |s| && IsLowerAscii(Lower(s))
    ensures forall i :: 0 <= i < |s| ==> (Lower(s)[i] == ' ' <==> s[i] == ' ')
    ensures (' ' in Lower(s)) <==> (' ' in s)
  {
    if ' ' in Lower(s) {
      var i :| 0 <= i < |s| && Lower(s)[i] == ' ';
      assert s[i] == ' ';
    }
    if ' ' in s {
      var i :| 0 <= i < |s| && s[i] == ' ';
      assert Lower(s)[i] == ' ';
    }
  }

  /** Text that is already lower case is left alone. */
  lemma LowerFixed(s: string)
    requires IsLowerAscii(s)
    ensures Lower(s) == s
  {
  }

  lemma LowerConcat(a: string, b: string)
    ensures Lower(a + b) == Lower(a) + Lower(b)
  {
  }
}
