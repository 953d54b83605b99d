/** String operations the pipeline relies on: Python's `str.split(sep)` with a
    one-character separator, `str.replace(' ', '')`, Python's literal
    substring test `phrase in s`, and the part of polars' regular-expression
    `str.contains` that the pipeline's patterns use (`.` as the only
    metacharacter, optionally with the `(?i)` case-insensitive flag). */
module Text {
  import opened Wrappers
  import opened Seqs

  // ---------------------------------------------------------------- split

  /** `s.split(sep)` for a single-character separator: every occurrence of
      `sep` ends a piece, so there is always one more piece than separators
      and empty pieces are kept. */
  function Split(s: string, sep: char): (r: seq<string>)
    ensures |r| >= 1
    decreases |s|
  {
    if s == [] then [""]
    else
      var rest := Split(s[1..], sep);
      if s[0] == sep then [""] + rest else [[s[0]] + rest[0]] + rest[1..]
  }

  /** `sep.join(pieces)`. */
  function Join(pieces: seq<string>, sep: char): string
    requires |pieces| >= 1
    decreases |pieces|
  {
    if |pieces| == 1 then pieces[0] else pieces[0] + [sep] + Join(pieces[1..], sep)
  }

  /** No piece contains the separator, and joining the pieces gives back the string. */
  lemma {:induction false} SplitJoin(s: string, sep: char)
    ensures forall i :: 0 <= i < |Split(s, sep)| ==> sep !in Split(s, sep)[i]
    ensures Join(Split(s, sep), sep) == s
    decreases |s|
  {
    if s != [] {
      SplitJoin(s[1..], sep);
      var rest := Split(s[1..], sep);
      if s[0] == sep {
        assert Split(s, sep)[1..] == rest;
        assert s == [] + [sep] + s[1..];
      } else {
        var r := Split(s, sep);
        assert r[0] == [s[0]] + rest[0];
        assert r[1..] == rest[1..];
        if |rest| == 1 {
          assert s == [s[0]] + rest[0];
        } else {
          assert Join(rest, sep) == rest[0] + [sep] + Join(rest[1..], sep);
          assert s == [s[0]] + rest[0] + [sep] + Join(rest[1..], sep);
        }
      }
    }
  }

  /** Splitting a join of separator-free pieces gives back the pieces. */
  lemma {:induction false} JoinSplit(pieces: seq<string>, sep: char)
    requires |pieces| >= 1
    requires forall i :: 0 <= i < |pieces| ==> sep !in pieces[i]
    ensures Split(Join(pieces, sep), sep) == pieces
    decreases |pieces|, |pieces[0]|
  {
    var p := pieces[0];
    if p == [] {
      if |pieces| > 1 {
        var rest := Join(pieces[1..], sep);
        assert Join(pieces, sep) == [sep] + rest;
        assert ([sep] + rest)[1..] == rest;
        JoinSplit(pieces[1..], sep);
        assert pieces == [""] + pieces[1..];
      }
    } else {
      var smaller := [p[1..]] + pieces[1..];
      assert forall i :: 0 <= i < |smaller| ==> sep !in smaller[i] by {
        assert forall c :: c in p[1..] ==> c in p;
      }
      JoinSplit(smaller, sep);
      JoinConsChar(p, pieces, sep);
      assert p[0] != sep by { assert p[0] in p; }
      assert Split(Join(pieces, sep), sep)[0] == [p[0]] + p[1..];
      assert [p[0]] + p[1..] == p;
      assert Split(Join(pieces, sep), sep) == [p] + pieces[1..];
      assert [p] + pieces[1..] == pieces;
    }
  }

  lemma JoinConsChar(p: string, pieces: seq<string>, sep: char)
    requires |pieces| >= 1 && p != [] && pieces[0] == p
    ensures Join(pieces, sep) == [p[0]] + Join([p[1..]] + pieces[1..], sep)
  {
    var smaller := [p[1..]] + pieces[1..];
    assert smaller[1..] == pieces[1..];
    if |pieces| > 1 {
      assert p == [p[0]] + p[1..];
    } else {
      assert p == [p[0]] + p[1..];
    }
  }

  /** Piece `k` of `s.split(sep)`, or None when there are not that many
      pieces (pandas' `str.split(..., expand=True)[k]` for one row). */
  function Piece(s: string, sep: char, k: nat): Option<string>
  {
    var ps := Split(s, sep);
    if k < |ps| then Some(ps[k]) else None
  }

  // ----------------------------------------------------------- replace

  /** `s.replace(c, "")`: every occurrence of `c` removed. */
  function Without(s: string, c: char): (r: string)
    ensures c !in r
    ensures forall x :: x in r <==> x in s && x != c
    ensures IsSubsequence(r, s)
  {
    KeepSpec(s, x => x != c);
    Keep(s, x => x != c)
  }

  // ------------------------------------------------ literal containment

  /** Python's `phrase in s`: `phrase` occurs as a contiguous substring. */
  predicate ContainsLiteral(s: string, phrase: string)
    decreases |s|
  {
    phrase <= s || (s != [] && ContainsLiteral(s[1..], phrase))
  }

  /** `phrase` starts at position `i` of `s`. */
  predicate OccursAt(s: string, phrase: string, i: int)
  {
    0 <= i <= |s| - |phrase| && s[i..i + |phrase|] == phrase
  }

  /** Where `phrase in s` holds, `phrase` starts at some position. */
  lemma {:induction false} ContainsLiteralWitness(s: string, phrase: string) returns (i: int)
    requires ContainsLiteral(s, phrase)
    ensures OccursAt(s, phrase, i)
    decreases |s|
  {
    if phrase <= s {
      i := 0;
    } else {
      var j := ContainsLiteralWitness(s[1..], phrase);
      assert s[1..][j..j + |phrase|] == s[j + 1..j + 1 + |phrase|];
      i := j + 1;
    }
  }

  /** An occurrence at any position makes `phrase in s` hold. */
  lemma {:induction false} OccursAtContains(s: string, phrase: string, i: int)
    requires OccursAt(s, phrase, i)
    ensures ContainsLiteral(s, phrase)
    decreases i
  {
    if i == 0 {
      assert phrase <= s;
    } else {
      assert s[1..][i - 1..i - 1 + |phrase|] == s[i..i + |phrase|];
      OccursAtContains(s[1..], phrase, i - 1);
    }
  }

  /** `phrase in s` holds exactly when `phrase` starts at some position of `s`. */
  lemma ContainsLiteralIff(s: string, phrase: string)
    ensures ContainsLiteral(s, phrase) <==> exists i :: OccursAt(s, phrase, i)
  {
    if ContainsLiteral(s, phrase) {
      var i := ContainsLiteralWitness(s, phrase);
    }
    forall i | OccursAt(s, phrase, i) ensures ContainsLiteral(s, phrase) {
      OccursAtContains(s, phrase, i);
    }
  }

  // --------------------------------------------- regular-expression search

  /** ASCII case folding, as `(?i)` does for ASCII letters. */
  function Lower(c: char): char
  {
    if 'A' <= c <= 'Z' then (c as int + 32) as char else c
  }

  function LowerString(s: string): (r: string)
    ensures |r| == |s| && forall i :: 0 <= i < |s| ==> r[i] == Lower(s[i])
  {
    seq(|s|, i requires 0 <= i < |s| => Lower(s[i]))
  }

  /** One element of a compiled pattern: `.` or a literal character. */
  datatype PatternChar = AnyChar | Literal(c: char)

  /** The pattern as the regex engine reads it: `.` is a wildcard, every
      other character stands for itself. */
  function Compile(pattern: string): (r: seq<PatternChar>)
    ensures |r| == |pattern|
    ensures forall i :: 0 <= i < |pattern| ==>
              r[i] == if pattern[i] == '.' then AnyChar else Literal(pattern[i])
  {
    seq(|pattern|, i requires 0 <= i < |pattern| =>
      if pattern[i] == '.' then AnyChar else Literal(pattern[i]))
  }

  /** `.` matches any character but a newline; a literal matches itself, or
      any character with the same ASCII case fold under `(?i)`. */
  predicate CharMatches(p: PatternChar, c: char, ignoreCase: bool)
  {
    match p
    case AnyChar => c != '\n'
    case Literal(l) => if ignoreCase then Lower(l) == Lower(c) else l == c
  }

  /** The compiled pattern matches a prefix of `s`. */
  predicate MatchesPrefix(s: string, pat: seq<PatternChar>, ignoreCase: bool)
  {
    |pat| <= |s| && forall k :: 0 <= k < |pat| ==> CharMatches(pat[k], s[k], ignoreCase)
  }

  /** The compiled pattern matches somewhere in `s` (an unanchored search). */
  predicate Search(s: string, pat: seq<PatternChar>, ignoreCase: bool)
    decreases |s|
  {
    MatchesPrefix(s, pat, ignoreCase) || (s != [] && Search(s[1..], pat, ignoreCase))
  }

  /** polars `str.contains(pattern)` (with `(?i)` prefixed when `ignoreCase`). */
  predicate RegexContains(s: string, pattern: string, ignoreCase: bool)
  {
    Search(s, Compile(pattern), ignoreCase)
  }

  /** For a pattern without `.`, the regex search is Python's literal `in`. */
  lemma {:induction false} PlainPatternIsLiteral(s: string, pattern: string)
    requires '.' !in pattern
    ensures RegexContains(s, pattern, false) <==> ContainsLiteral(s, pattern)
    decreases |s|
  {
    var pat := Compile(pattern);
    assert MatchesPrefix(s, pat, false) <==> pattern <= s by {
      if MatchesPrefix(s, pat, false) {
        forall k | 0 <= k < |pattern| ensures s[k] == pattern[k] {
          assert pattern[k] != '.' by { assert pattern[k] in pattern; }
          assert CharMatches(pat[k], s[k], false);
        }
      }
      if pattern <= s {
        forall k | 0 <= k < |pat| ensures CharMatches(pat[k], s[k], false) {
          assert pattern[k] != '.' by { assert pattern[k] in pattern; }
        }
      }
    }
    if s != [] {
      PlainPatternIsLiteral(s[1..], pattern);
    }
  }

  /** `(?i)` search is a case-sensitive search of the folded string for the
      folded pattern. */
  lemma {:induction false} IgnoreCaseIsFolding(s: string, pattern: string)
    ensures RegexContains(s, pattern, true) <==>
            RegexContains(LowerString(s), LowerString(pattern), false)
    decreases |s|
  {
    var pat := Compile(pattern);
    var lpat := Compile(LowerString(pattern));
    var ls := LowerString(s);
    assert MatchesPrefix(s, pat, true) <==> MatchesPrefix(ls, lpat, false) by {
      forall k | 0 <= k < |pat| && k < |s|
        ensures CharMatches(pat[k], s[k], true) <==> CharMatches(lpat[k], ls[k], false)
      {
        assert pattern[k] == '.' <==> Lower(pattern[k]) == '.';
        assert s[k] == '\n' <==> Lower(s[k]) == '\n';
      }
    }
    if s != [] {
      IgnoreCaseIsFolding(s[1..], pattern);
      assert LowerString(s[1..]) == ls[1..];
    }
  }
}
