/** The Python string operations the modelled code relies on: code-point
    ordering, `split`, `join`, `upper`, `strip`, `splitlines`, `startswith`,
    `endswith` and substring search. */
module Text {

  // ---------------------------------------------------------------------------
  // Ordering: Python compares `str` values code point by code point.
  // ---------------------------------------------------------------------------

  predicate StrLe(a: string, b: string)
  {
    if a == [] then true
    else if b == [] then false
    else if a[0] != b[0] then a[0] < b[0]
    else StrLe(a[1..], b[1..])
  }

  lemma {:induction false} StrLeTotal(a: string, b: string)
    ensures StrLe(a, b) || StrLe(b, a)
  {
    if a != [] && b != [] && a[0] == b[0] {
      StrLeTotal(a[1..], b[1..]);
    }
  }

  lemma {:induction false} StrLeTransitive(a: string, b: string, c: string)
    requires StrLe(a, b) && StrLe(b, c)
    ensures StrLe(a, c)
  {
    if a != [] && b != [] && c != [] && a[0] == b[0] && b[0] == c[0] {
      StrLeTransitive(a[1..], b[1..], c[1..]);
    }
  }

  lemma {:induction false} StrLeAntisymmetric(a: string, b: string)
    requires StrLe(a, b) && StrLe(b, a)
    ensures a == b
  {
    if a != [] && b != [] {
      StrLeAntisymmetric(a[1..], b[1..]);
      assert a == [a[0]] + a[1..] && b == [b[0]] + b[1..];
    }
  }

  // ---------------------------------------------------------------------------
  // Joining and splitting.
  // ---------------------------------------------------------------------------

  /** `''.join(parts)` */
  function Concat(parts: seq<string>): string
  {
    if parts == [] then "" else parts[0] + Concat(parts[1..])
  }

  lemma {:induction false} ConcatAppend(a: seq<string>, b: seq<string>)
    ensures Concat(a + b) == Concat(a) + Concat(b)
  {
    if a != [] {
      assert (a + b)[1..] == a[1..] + b;
      ConcatAppend(a[1..], b);
      assert Concat(a + b) == a[0] + Concat(a[1..] + b);
    } else {
      assert a + b == b;
    }
  }

  /** `sep.join(parts)` */
  function JoinWith(sep: string, parts: seq<string>): string
  {
    if parts == [] then ""
    else if |parts| == 1 then parts[0]
    else parts[0] + sep + JoinWith(sep, parts[1..])
  }

  /** `s.split(sep)` for a one-character separator: the pieces between the
      separators, always at least one, none containing the separator. */
  function SplitOn(s: string, sep: char): (parts: seq<string>)
    ensures |parts| >= 1
    ensures forall k :: 0 <= k < |parts| ==> sep !in parts[k]
  {
    if s == [] then [""]
    else
      var rest := SplitOn(s[1..], sep);
      if s[0] == sep then [""] + rest
      else [[s[0]] + rest[0]] + rest[1..]
  }

  /** Splitting and joining again with the same separator gives the string back. */
  lemma {:induction false} JoinSplit(s: string, sep: char)
    ensures JoinWith([sep], SplitOn(s, sep)) == s
  {
    if s != [] {
      var rest := SplitOn(s[1..], sep);
      JoinSplit(s[1..], sep);
      if s[0] == sep {
        assert SplitOn(s, sep) == [""] + rest;
        assert JoinWith([sep], [""] + rest) == "" + [sep] + JoinWith([sep], rest);
      } else {
        var parts := [[s[0]] + rest[0]] + rest[1..];
        assert SplitOn(s, sep) == parts;
        if |rest| == 1 {
          assert JoinWith([sep], rest) == rest[0];
        } else {
          assert JoinWith([sep], rest) == rest[0] + [sep] + JoinWith([sep], rest[1..]);
          assert parts[1..] == rest[1..];
        }
      }
    }
  }

  /** `s` with every `a` replaced by `b`. */
  function ReplaceChar(s: string, a: char, b: char): (r: string)
    ensures |r| == |s|
    ensures forall k :: 0 <= k < |s| ==> r[k] == (if s[k] == a then b else s[k])
  {
    seq(|s|, k requires 0 <= k < |s| => if s[k] == a then b else s[k])
  }

  /** Splitting at `a` and joining with `b` replaces every `a` by `b`. */
  lemma {:induction false} JoinSplitReplace(s: string, a: char, b: char)
    ensures JoinWith([b], SplitOn(s, a)) == ReplaceChar(s, a, b)
  {
    if s != [] {
      var rest := SplitOn(s[1..], a);
      JoinSplitReplace(s[1..], a, b);
      ReplaceCharCons(s, a, b);
      if s[0] == a {
        assert ([""] + rest)[1..] == rest;
        assert JoinWith([b], [""] + rest) == "" + [b] + JoinWith([b], rest);
      } else {
        JoinConsHead([b], s[0], rest);
      }
    }
  }

  lemma ReplaceCharCons(s: string, a: char, b: char)
    requires s != []
    ensures ReplaceChar(s, a, b) == [if s[0] == a then b else s[0]] + ReplaceChar(s[1..], a, b)
  {
  }

  /** Putting a character in front of the first piece puts it in front of the joined text. */
  lemma JoinConsHead(sep: string, c: char, parts: seq<string>)
    requires parts != []
    ensures JoinWith(sep, [[c] + parts[0]] + parts[1..]) == [c] + JoinWith(sep, parts)
  {
    var moved := [[c] + parts[0]] + parts[1..];
    assert moved[1..] == parts[1..];
    if |parts| > 1 {
      assert JoinWith(sep, moved) == ([c] + parts[0]) + sep + JoinWith(sep, parts[1..]);
    }
  }

  /** Joining two non-empty lists of pieces separately and putting the separator
      between the results joins the whole list. */
  lemma {:induction false} JoinWithAppend(sep: string, a: seq<string>, b: seq<string>)
    requires a != [] && b != []
    ensures JoinWith(sep, a + b) == JoinWith(sep, a) + sep + JoinWith(sep, b)
  {
    if |a| == 1 {
      assert (a + b)[1..] == b;
    } else {
      assert (a + b)[1..] == a[1..] + b;
      JoinWithAppend(sep, a[1..], b);
    }
  }

  /** Joining separator-free pieces and splitting again gives the pieces back. */
  lemma {:induction false} SplitJoin(parts: seq<string>, sep: char)
    requires |parts| >= 1
    requires forall k :: 0 <= k < |parts| ==> sep !in parts[k]
    ensures SplitOn(JoinWith([sep], parts), sep) == parts
  {
    if |parts| == 1 {
      SplitSepFree(parts[0], sep);
    } else {
      SplitJoin(parts[1..], sep);
      SplitPrefix(parts[0], JoinWith([sep], parts[1..]), sep);
      assert JoinWith([sep], parts) == parts[0] + ([sep] + JoinWith([sep], parts[1..]));
    }
  }

  lemma {:induction false} SplitSepFree(s: string, sep: char)
    requires sep !in s
    ensures SplitOn(s, sep) == [s]
  {
    if s != [] {
      SplitSepFree(s[1..], sep);
      assert [s[0]] + s[1..] == s;
    }
  }

  lemma {:induction false} SplitPrefix(p: string, t: string, sep: char)
    requires sep !in p
    ensures SplitOn(p + ([sep] + t), sep) == [p] + SplitOn(t, sep)
  {
    if p == [] {
      assert p + ([sep] + t) == [sep] + t;
      assert ([sep] + t)[1..] == t;
    } else {
      assert (p + ([sep] + t))[1..] == p[1..] + ([sep] + t);
      SplitPrefix(p[1..], t, sep);
      assert [p[0]] + p[1..] == p;
    }
  }

  // ---------------------------------------------------------------------------
  // Case mapping.
  // ---------------------------------------------------------------------------

  function UpperChar(c: char): char
  {
    if 'a' <= c <= 'z' then (c as int - 32) as char else c
  }

  /** `s.upper()` restricted to ASCII letters. */
  function Upper(s: string): (r: string)
    ensures |r| == |s|
    ensures forall k :: 0 <= k < |r| ==> !('a' <= r[k] <= 'z')
    ensures forall k :: 0 <= k < |r| ==> ('A' <= s[k] <= 'Z' || !('a' <= s[k] <= 'z')) ==> r[k] == s[k]
  {
    seq(|s|, k requires 0 <= k < |s| => UpperChar(s[k]))
  }

  lemma UpperConcat(a: string, b: string)
    ensures Upper(a + b) == Upper(a) + Upper(b)
  {
  }

  // ---------------------------------------------------------------------------
  // Prefixes, suffixes, substrings.
  // ---------------------------------------------------------------------------

  predicate StartsWith(s: string, prefix: string)
  {
    |prefix| <= |s| && s[..|prefix|] == prefix
  }

  predicate EndsWith(s: string, suffix: string)
  {
    |suffix| <= |s| && s[|s| - |suffix|..] == suffix
  }

  /** `sub` occurs in `s` starting at index `i`. */
  predicate OccursAt(s: string, sub: string, i: int)
  {
    0 <= i && i + |sub| <= |s| && s[i..i + |sub|] == sub
  }

  /** `sub in s` */
  predicate Contains(s: string, sub: string)
    decreases |s|
  {
    if |s| < |sub| then false
    else s[..|sub|] == sub || (s != [] && Contains(s[1..], sub))
  }

  lemma {:induction false} ContainsAt(s: string, sub: string)
    ensures Contains(s, sub) <==> exists i :: OccursAt(s, sub, i)
    decreases |s|
  {
    if |s| >= |sub| {
      if s[..|sub|] == sub {
        assert OccursAt(s, sub, 0);
      } else if s != [] {
        ContainsAt(s[1..], sub);
        if Contains(s[1..], sub) {
          var i :| OccursAt(s[1..], sub, i);
          assert s[1..][i..i + |sub|] == s[i + 1..i + 1 + |sub|];
          assert OccursAt(s, sub, i + 1);
        }
        if exists i :: OccursAt(s, sub, i) {
          var i :| OccursAt(s, sub, i);
          assert i != 0;
          assert s[1..][i - 1..i - 1 + |sub|] == s[i..i + |sub|];
          assert OccursAt(s[1..], sub, i - 1);
        }
      }
    }
  }

  // ---------------------------------------------------------------------------
  // Whitespace and lines.
  // ---------------------------------------------------------------------------

  /** The characters for which Python's `str.isspace` holds. */
  predicate IsSpace(c: char)
  {
    c == ' ' || ('\t' <= c <= '\r') || ('\U{1C}' <= c <= '\U{1F}') || c == '\U{85}' ||
    c == '\U{A0}' || c == '\U{1680}' || ('\U{2000}' <= c <= '\U{200A}') ||
    c == '\U{2028}' || c == '\U{2029}' || c == '\U{202F}' || c == '\U{205F}' || c == '\U{3000}'
  }

  function StripLeft(s: string): string
  {
    if s != [] && IsSpace(s[0]) then StripLeft(s[1..]) else s
  }

  /** Stripping on the left removes exactly the leading whitespace. */
  lemma {:induction false} StripLeftSpec(s: string)
    ensures |StripLeft(s)| <= |s| && StripLeft(s) == s[|s| - |StripLeft(s)|..]
    ensures StripLeft(s) != [] ==> !IsSpace(StripLeft(s)[0])
    ensures forall k :: 0 <= k < |s| - |StripLeft(s)| ==> IsSpace(s[k])
  {
    if s != [] && IsSpace(s[0]) {
      StripLeftSpec(s[1..]);
      forall k | 1 <= k < |s| - |StripLeft(s)| ensures IsSpace(s[k]) {
        assert s[k] == s[1..][k - 1];
      }
    }
  }

  function StripRight(s: string): string
  {
    if s != [] && IsSpace(s[|s| - 1]) then StripRight(s[..|s| - 1]) else s
  }

  /** Stripping on the right removes exactly the trailing whitespace. */
  lemma {:induction false} StripRightSpec(s: string)
    ensures |StripRight(s)| <= |s| && StripRight(s) == s[..|StripRight(s)|]
    ensures StripRight(s) != [] ==> !IsSpace(StripRight(s)[|StripRight(s)| - 1])
    ensures forall k :: |StripRight(s)| <= k < |s| ==> IsSpace(s[k])
  {
    if s != [] && IsSpace(s[|s| - 1]) {
      StripRightSpec(s[..|s| - 1]);
      forall k | |StripRight(s)| <= k < |s| - 1 ensures IsSpace(s[k]) {
        assert s[k] == s[..|s| - 1][k];
      }
    }
  }

  /** `s.strip()`: leading and trailing whitespace removed. */
  function Strip(s: string): string
  {
    StripRight(StripLeft(s))
  }

  /** The stripped text is the slice of `s` between its leading and its
      trailing whitespace: everything removed is whitespace, and the result
      neither starts nor ends with whitespace. */
  lemma StripSpec(s: string)
    ensures var i := |s| - |StripLeft(s)|;
      && 0 <= i && i + |Strip(s)| <= |s|
      && Strip(s) == s[i..i + |Strip(s)|]
      && (forall k :: 0 <= k < i ==> IsSpace(s[k]))
      && (forall k :: i + |Strip(s)| <= k < |s| ==> IsSpace(s[k]))
      && (Strip(s) != [] ==> !IsSpace(Strip(s)[0]) && !IsSpace(Strip(s)[|Strip(s)| - 1]))
  {
    StripLeftSpec(s);
    StripRightSpec(StripLeft(s));
    StripSlice(s, StripLeft(s), StripRight(StripLeft(s)));
    if Strip(s) != [] {
      assert Strip(s)[0] == StripLeft(s)[0];
    }
  }

  lemma StripSlice(s: string, l: string, r: string)
    requires |l| <= |s| && l == s[|s| - |l|..]
    requires forall k :: 0 <= k < |s| - |l| ==> IsSpace(s[k])
    requires |r| <= |l| && r == l[..|r|]
    requires forall k :: |r| <= k < |l| ==> IsSpace(l[k])
    ensures r == s[|s| - |l|..|s| - |l| + |r|]
    ensures forall k :: |s| - |l| + |r| <= k < |s| ==> IsSpace(s[k])
  {
    var i := |s| - |l|;
    forall k | i + |r| <= k < |s| ensures IsSpace(s[k]) {
      assert s[k] == l[k - i];
    }
  }

  /** The line boundaries Python's `str.splitlines` recognises. */
  predicate IsLineBreak(c: char)
  {
    c == '\n' || c == '\r' || c == '\U{B}' || c == '\U{C}' || ('\U{1C}' <= c <= '\U{1E}') ||
    c == '\U{85}' || c == '\U{2028}' || c == '\U{2029}'
  }

  /** The index of the first line boundary, or `|s|` when there is none. */
  function LineEnd(s: string): (i: nat)
    ensures i <= |s|
  {
    if s == [] || IsLineBreak(s[0]) then 0 else 1 + LineEnd(s[1..])
  }

  /** `LineEnd` stops at the first line boundary. */
  lemma {:induction false} LineEndSpec(s: string)
    ensures LineEnd(s) < |s| ==> IsLineBreak(s[LineEnd(s)])
    ensures forall k :: 0 <= k < LineEnd(s) ==> !IsLineBreak(s[k])
  {
    if s != [] && !IsLineBreak(s[0]) {
      LineEndSpec(s[1..]);
      forall k | 1 <= k < LineEnd(s) ensures !IsLineBreak(s[k]) {
        assert s[k] == s[1..][k - 1];
      }
    }
  }

  /** The index just past the line boundary at `i`, a `\r\n` pair counting as one boundary. */
  function AfterBreak(s: string, i: nat): nat
    requires i < |s|
  {
    if s[i] == '\r' && i + 1 < |s| && s[i + 1] == '\n' then i + 2 else i + 1
  }

  /** `s.splitlines()`: the text between boundaries, `\r\n` counting as one
      boundary, with no empty line after a final boundary. */
  function SplitLines(s: string): seq<string>
    decreases |s|
  {
    if s == [] then []
    else
      var i := LineEnd(s);
      if i == |s| then [s]
      else [s[..i]] + SplitLines(s[AfterBreak(s, i)..])
  }

  /** The text with every line boundary, a `\r\n` pair included, written as one `\n`. */
  function NormalizeBreaks(s: string): string
    decreases |s|
  {
    if s == [] then []
    else if |s| >= 2 && s[0] == '\r' && s[1] == '\n' then "\n" + NormalizeBreaks(s[2..])
    else if IsLineBreak(s[0]) then "\n" + NormalizeBreaks(s[1..])
    else [s[0]] + NormalizeBreaks(s[1..])
  }

  /** The text without one final `\n`, if it ends in one. */
  function DropFinalNewline(s: string): string
  {
    if s != [] && s[|s| - 1] == '\n' then s[..|s| - 1] else s
  }

  /** Text without a boundary is its own normal form. */
  lemma NormalizeWithoutBreak(s: string)
    requires LineEnd(s) == |s|
    ensures NormalizeBreaks(s) == s
  {
    LineEndSpec(s);
    NormalizeBreakFree(s, []);
    assert s + [] == s;
  }

  /** Normalising keeps the text before a first boundary at `i` and writes that boundary as `\n`. */
  lemma NormalizeAtLineEnd(s: string, i: nat)
    requires i < |s| && IsLineBreak(s[i])
    requires forall k :: 0 <= k < i ==> !IsLineBreak(s[k])
    ensures NormalizeBreaks(s) == s[..i] + "\n" + NormalizeBreaks(s[AfterBreak(s, i)..])
  {
    SliceAt(s, i);
    NormalizeLineThenBreak(s[..i], s[i..]);
    AfterBreakOfSuffix(s, i);
  }

  /** The boundary at the start of `s[i..]` ends where the one at `i` in `s` ends. */
  lemma AfterBreakOfSuffix(s: string, i: nat)
    requires i < |s|
    ensures s[i..][AfterBreak(s[i..], 0)..] == s[AfterBreak(s, i)..]
  {
    assert AfterBreak(s[i..], 0) == AfterBreak(s, i) - i;
  }

  /** Break-free text followed by a boundary: the text, `\n`, then the rest normalised. */
  lemma NormalizeLineThenBreak(line: string, u: string)
    requires forall k :: 0 <= k < |line| ==> !IsLineBreak(line[k])
    requires u != [] && IsLineBreak(u[0])
    ensures NormalizeBreaks(line + u) == line + "\n" + NormalizeBreaks(u[AfterBreak(u, 0)..])
  {
    NormalizeBreakFree(line, u);
    assert NormalizeBreaks(u) == "\n" + NormalizeBreaks(u[AfterBreak(u, 0)..]);
    AppendAssoc(line, "\n", NormalizeBreaks(u[AfterBreak(u, 0)..]));
  }

  /** Concatenation is associative. */
  lemma AppendAssoc<T>(a: seq<T>, b: seq<T>, c: seq<T>)
    ensures a + (b + c) == a + b + c
  {
  }

  /** Text without boundaries is kept as it is in front of whatever follows it. */
  lemma {:induction false} NormalizeBreakFree(a: string, b: string)
    requires forall k :: 0 <= k < |a| ==> !IsLineBreak(a[k])
    ensures NormalizeBreaks(a + b) == a + NormalizeBreaks(b)
  {
    if a == [] {
      assert a + b == b;
    } else {
      NormalizeBreakFree(a[1..], b);
      assert (a + b)[1..] == a[1..] + b;
      assert NormalizeBreaks(a + b) == [a[0]] + NormalizeBreaks(a[1..] + b);
      ConsTail(a, NormalizeBreaks(b));
    }
  }

  /** A sequence is its part before `i` followed by its part from `i`. */
  lemma SliceAt<T>(s: seq<T>, i: nat)
    requires i <= |s|
    ensures s[..i] + s[i..] == s
  {
  }

  /** Putting the first element back in front of the rest. */
  lemma ConsTail<T>(a: seq<T>, b: seq<T>)
    requires a != []
    ensures [a[0]] + (a[1..] + b) == a + b
  {
    assert [a[0]] + a[1..] == a;
  }

  /** Dropping a final `\n` only touches the last part of a concatenation. */
  lemma DropFinalNewlineAppend(a: string, b: string)
    requires b != []
    ensures DropFinalNewline(a + b) == a + DropFinalNewline(b)
  {
    if b[|b| - 1] == '\n' {
      assert (a + b)[..|a + b| - 1] == a + b[..|b| - 1];
    }
  }

  /** Joining the lines with `\n` gives the text with its boundaries normalised
      and a final boundary dropped. */
  lemma {:induction false} SplitLinesRejoin(s: string)
    requires s != []
    ensures JoinWith("\n", SplitLines(s)) == DropFinalNewline(NormalizeBreaks(s))
    decreases |s|
  {
    var i := LineEnd(s);
    LineEndSpec(s);
    if i == |s| {
      NormalizeWithoutBreak(s);
      assert SplitLines(s) == [s];
      assert !IsLineBreak(s[|s| - 1]);
    } else {
      NormalizeAtLineEnd(s, i);
      var rest := s[AfterBreak(s, i)..];
      var n := NormalizeBreaks(rest);
      var line := s[..i];
      assert NormalizeBreaks(s) == (line + "\n") + n;
      if rest == [] {
        assert SplitLines(s) == [line];
        assert (line + "\n") + n == line + "\n";
      } else {
        SplitLinesRejoin(rest);
        var lines := SplitLines(rest);
        assert SplitLines(s) == [line] + lines;
        JoinWithAppend("\n", [line], lines);
        assert n != [];
        DropFinalNewlineAppend(line + "\n", n);
      }
    }
  }

  /** No line holds a line boundary, only the empty text has no lines, and the
      lines of a non-empty text are the pieces between the `\n`s of its
      normalised text, a final boundary ending the last line. */
  lemma {:induction false} SplitLinesSpec(s: string)
    ensures forall k, c :: 0 <= k < |SplitLines(s)| && c in SplitLines(s)[k] ==> !IsLineBreak(c)
    ensures s == [] <==> SplitLines(s) == []
    ensures s != [] ==> SplitLines(s) == SplitOn(DropFinalNewline(NormalizeBreaks(s)), '\n')
  {
    SplitLinesBreakFree(s);
    if s != [] {
      SplitLinesRejoin(s);
      forall k | 0 <= k < |SplitLines(s)| ensures '\n' !in SplitLines(s)[k] {
        assert IsLineBreak('\n');
      }
      SplitJoin(SplitLines(s), '\n');
    }
  }

  lemma {:induction false} SplitLinesBreakFree(s: string)
    ensures forall k, c :: 0 <= k < |SplitLines(s)| && c in SplitLines(s)[k] ==> !IsLineBreak(c)
    ensures s == [] <==> SplitLines(s) == []
    decreases |s|
  {
    if s != [] {
      var i := LineEnd(s);
      LineEndSpec(s);
      if i < |s| {
        var next := AfterBreak(s, i);
        SplitLinesBreakFree(s[next..]);
        assert SplitLines(s) == [s[..i]] + SplitLines(s[next..]);
        forall k, c | 0 <= k < |SplitLines(s)| && c in SplitLines(s)[k] ensures !IsLineBreak(c) {
          if k == 0 {
            var j :| 0 <= j < i && s[..i][j] == c;
          } else {
            assert SplitLines(s)[k] == SplitLines(s[next..])[k - 1];
          }
        }
      } else {
        forall c | c in s ensures !IsLineBreak(c) {
          var j :| 0 <= j < |s| && s[j] == c;
        }
      }
    }
  }
}
