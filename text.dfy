/** The Python `str` operations the matcher relies on, on `seq<char>`:
    `isspace`/`strip()`, `lstrip(chars)`, ASCII `lower()`, `startswith`,
    the `in` substring test and `splitlines()`. */
module Text {

  /** The characters Python's `str.isspace()` accepts; `strip()` with no
      argument removes exactly these. */
  predicate IsWhitespace(c: char)
  {
    ('\t' <= c <= '\r') || ('\U{1C}' <= c <= ' ') ||
    c == '\U{85}' || c == '\U{A0}' || c == '\U{1680}' ||
    ('\U{2000}' <= c <= '\U{200A}') ||
    c == '\U{2028}' || c == '\U{2029}' || c == '\U{202F}' ||
    c == '\U{205F}' || c == '\U{3000}'
  }

  /** Python `s.lstrip()`: drops the longest prefix of whitespace. */
  function TrimLeft(s: string): (r: string)
    ensures |r| <= |s|
    ensures r == [] || !IsWhitespace(r[0])
  {
    if s != [] && IsWhitespace(s[0]) then TrimLeft(s[1..]) else s
  }

  /** Python `s.rstrip()`: drops the longest suffix of whitespace. */
  function TrimRight(s: string): (r: string)
    ensures |r| <= |s|
    ensures r == [] || !IsWhitespace(r[|r| - 1])
    ensures r != [] ==> r[0] == s[0]
  {
    if s != [] && IsWhitespace(s[|s| - 1]) then TrimRight(s[..|s| - 1]) else s
  }

  /** Python `s.strip()`: neither end of the result is whitespace. */
  function Strip(s: string): (r: string)
    ensures |r| <= |s|
    ensures r == [] || (!IsWhitespace(r[0]) && !IsWhitespace(r[|r| - 1]))
  {
    TrimRight(TrimLeft(s))
  }

  /** `TrimLeft` keeps a suffix, and everything it drops is whitespace. */
  lemma {:induction false} TrimLeftSuffix(s: string)
    ensures TrimLeft(s) == s[|s| - |TrimLeft(s)|..]
    ensures forall j :: 0 <= j < |s| - |TrimLeft(s)| ==> IsWhitespace(s[j])
  {
    if s != [] && IsWhitespace(s[0]) {
      TrimLeftSuffix(s[1..]);
    }
  }

  /** `TrimRight` keeps a prefix, and everything it drops is whitespace. */
  lemma {:induction false} TrimRightPrefix(s: string)
    ensures TrimRight(s) == s[..|TrimRight(s)|]
    ensures forall j :: |TrimRight(s)| <= j < |s| ==> IsWhitespace(s[j])
  {
    if s != [] && IsWhitespace(s[|s| - 1]) {
      TrimRightPrefix(s[..|s| - 1]);
    }
  }

  /** `strip()` keeps one contiguous slice of its argument and drops only
      whitespace on either side of it. */
  lemma StripSlice(s: string) returns (i: nat)
    ensures i + |Strip(s)| <= |s| && Strip(s) == s[i..i + |Strip(s)|]
    ensures forall j :: 0 <= j < i ==> IsWhitespace(s[j])
    ensures forall j :: i + |Strip(s)| <= j < |s| ==> IsWhitespace(s[j])
  {
    var l := TrimLeft(s);
    TrimLeftSuffix(s);
    TrimRightPrefix(l);
    i := |s| - |l|;
    assert forall j :: i <= j < |s| ==> s[j] == l[j - i];
  }

  /** A string with no whitespace at either end is its own strip. */
  lemma StripFixed(s: string)
    requires s == [] || (!IsWhitespace(s[0]) && !IsWhitespace(s[|s| - 1]))
    ensures Strip(s) == s
  {
  }

  /** Stripping twice is stripping once. */
  lemma StripIdempotent(s: string)
    ensures Strip(Strip(s)) == Strip(s)
  {
    StripFixed(Strip(s));
  }

  function LowerChar(c: char): char
  {
    if 'A' <= c <= 'Z' then (c as int - 'A' as int + 'a' as int) as char else c
  }

  predicate IsUpper(c: char)
  {
    'A' <= c <= 'Z'
  }

  /** Python `s.lower()` restricted to the ASCII letters. */
  function Lower(s: string): string
  {
    seq(|s|, i requires 0 <= i < |s| => LowerChar(s[i]))
  }

  /** A lower-cased string holds no upper-case letter, and lowering it again
      changes nothing. */
  lemma LowerIsLower(s: string)
    ensures forall i :: 0 <= i < |s| ==> !IsUpper(Lower(s)[i])
    ensures Lower(Lower(s)) == Lower(s)
  {
  }

  /** Python `prefix` with `s.startswith(prefix)`. */
  predicate StartsWith(s: string, prefix: string)
  {
    prefix <= s
  }

  /** Python `t in s`: `t` occurs in `s` at some offset (the empty string
      occurs everywhere). */
  predicate Contains(s: string, t: string)
  {
    exists i | 0 <= i <= |s| :: t <= s[i..]
  }

  /** A needle holding an upper-case letter never occurs in lower-cased text. */
  lemma UpperNeverInLower(s: string, t: string, k: nat)
    requires k < |t| && IsUpper(t[k])
    ensures !Contains(Lower(s), t)
  {
  }

  /** The line boundaries of Python's `str.splitlines()`. */
  predicate IsLineBreak(c: char)
  {
    c == '\n' || c == '\r' || c == '\U{0B}' || c == '\U{0C}' ||
    c == '\U{1C}' || c == '\U{1D}' || c == '\U{1E}' || c == '\U{85}' ||
    c == '\U{2028}' || c == '\U{2029}'
  }

  /** The index of the first line boundary in `s`, or `|s|` when there is none. */
  function LineEnd(s: string): (i: nat)
    ensures i <= |s|
    ensures forall j :: 0 <= j < i ==> !IsLineBreak(s[j])
    ensures i < |s| ==> IsLineBreak(s[i])
  {
    if s == [] || IsLineBreak(s[0]) then 0 else 1 + LineEnd(s[1..])
  }

  /** Length of the boundary at `i`: "\r\n" counts as one boundary. */
  function BreakWidth(s: string, i: nat): nat
    requires i < |s|
  {
    if s[i] == '\r' && i + 1 < |s| && s[i + 1] == '\n' then 2 else 1
  }

  /** Python `s.splitlines()`: the text cut at every boundary, boundaries
      dropped, and no trailing empty line for a final boundary. */
  function SplitLines(s: string): (lines: seq<string>)
    decreases |s|
  {
    if s == [] then []
    else
      var i := LineEnd(s);
      if i == |s| then [s]
      else [s[..i]] + SplitLines(s[i + BreakWidth(s, i)..])
  }

  /** The characters of `s` that are not line boundaries, in order. */
  function WithoutBreaks(s: string): string
  {
    if s == [] then []
    else (if IsLineBreak(s[0]) then [] else [s[0]]) + WithoutBreaks(s[1..])
  }

  function Concat(lines: seq<string>): string
  {
    if lines == [] then [] else lines[0] + Concat(lines[1..])
  }

  lemma {:induction false} WithoutBreaksAppend(a: string, b: string)
    ensures WithoutBreaks(a + b) == WithoutBreaks(a) + WithoutBreaks(b)
  {
    if a == [] {
      assert a + b == b;
    } else {
      assert (a + b)[1..] == a[1..] + b;
      WithoutBreaksAppend(a[1..], b);
    }
  }

  lemma {:induction false} WithoutBreaksNone(s: string)
    requires forall j :: 0 <= j < |s| ==> !IsLineBreak(s[j])
    ensures WithoutBreaks(s) == s
  {
    if s != [] {
      WithoutBreaksNone(s[1..]);
    }
  }

  /** The boundary at `i`, one or two characters wide, contributes nothing. */
  lemma WithoutBreaksBoundary(s: string, i: nat)
    requires i < |s| && IsLineBreak(s[i])
    ensures WithoutBreaks(s[i..i + BreakWidth(s, i)]) == []
  {
    var b := s[i..i + BreakWidth(s, i)];
    assert b[0] == s[i];
    if |b| == 2 {
      assert b[1] == '\n';
      assert WithoutBreaks(b[1..]) == [];
    }
  }

  /** A text is its prefix, a middle part and its suffix. */
  lemma SplitThree(s: string, i: nat, j: nat)
    requires i <= j <= |s|
    ensures s == s[..i] + (s[i..j] + s[j..])
  {
    assert s[i..] == s[i..j] + s[j..];
    assert s == s[..i] + s[i..];
  }

  /** Text without boundaries, then a boundary, then the rest: only the
      rest loses characters. */
  lemma WithoutBreaksJoin(a: string, b: string, rest: string)
    requires WithoutBreaks(a) == a && WithoutBreaks(b) == []
    ensures WithoutBreaks(a + (b + rest)) == a + WithoutBreaks(rest)
  {
    WithoutBreaksAppend(b, rest);
    WithoutBreaksAppend(a, b + rest);
  }

  /** No line holds a boundary. */
  lemma {:induction false} SplitLinesNoBreaks(s: string)
    ensures forall k, j :: 0 <= k < |SplitLines(s)| && 0 <= j < |SplitLines(s)[k]| ==>
              !IsLineBreak(SplitLines(s)[k][j])
    decreases |s|
  {
    if s != [] {
      var i := LineEnd(s);
      if i < |s| {
        SplitLinesNoBreaks(s[i + BreakWidth(s, i)..]);
      }
    }
  }

  /** Together the lines are exactly the text's non-boundary characters, in order. */
  lemma {:induction false} SplitLinesConcat(s: string)
    ensures Concat(SplitLines(s)) == WithoutBreaks(s)
    decreases |s|
  {
    if s != [] {
      var i := LineEnd(s);
      if i == |s| {
        WithoutBreaksNone(s);
        assert Concat([s]) == s + Concat([]);
      } else {
        var w := BreakWidth(s, i);
        var a, b, rest := s[..i], s[i..i + w], s[i + w..];
        SplitLinesConcat(rest);
        assert WithoutBreaks(a) == a by {
          WithoutBreaksNone(a);
        }
        WithoutBreaksBoundary(s, i);
        SplitThree(s, i, i + w);
        WithoutBreaksJoin(a, b, rest);
        var lines := SplitLines(s);
        assert lines[1..] == SplitLines(rest);
      }
    }
  }

  /** A line boundary as it appears in the text: "\r\n", or one boundary
      character. */
  predicate IsBoundary(b: string)
  {
    b == "\r\n" || (|b| == 1 && IsLineBreak(b[0]))
  }

  /** Each line followed by its separator, in order. */
  function Interleave(lines: seq<string>, seps: seq<string>): string
    requires |lines| == |seps|
  {
    if lines == [] then [] else lines[0] + seps[0] + Interleave(lines[1..], seps[1..])
  }

  lemma InterleaveCons(a: string, b: string, lines: seq<string>, seps: seq<string>)
    requires |lines| == |seps|
    ensures Interleave([a] + lines, [b] + seps) == a + (b + Interleave(lines, seps))
  {
    assert ([a] + lines)[1..] == lines && ([b] + seps)[1..] == seps;
  }

  /** A boundary in front of separators that are boundaries, except maybe
      an empty last one after a non-empty line, keeps that shape. */
  lemma SeparatorsCons(a: string, b: string, lines: seq<string>, seps: seq<string>)
    requires |lines| == |seps| && IsBoundary(b)
    requires forall k :: 0 <= k < |seps| ==>
               IsBoundary(seps[k]) || (k == |seps| - 1 && seps[k] == [] && lines[k] != [])
    ensures forall k :: 0 <= k < |seps| + 1 ==>
              IsBoundary(([b] + seps)[k]) ||
              (k == |seps| && ([b] + seps)[k] == [] && ([a] + lines)[k] != [])
  {
    forall k | 1 <= k < |seps| + 1
      ensures ([b] + seps)[k] == seps[k - 1] && ([a] + lines)[k] == lines[k - 1]
    {
    }
  }

  /** A lone "\r" in front keeps the separators free of a lone "\r"
      followed by an empty line ended by "\n", if the first line does. */
  lemma LoneCarriageReturnCons(a: string, b: string, lines: seq<string>, seps: seq<string>)
    requires |lines| == |seps|
    requires b == "\r" && |seps| > 0 && lines[0] == [] ==> seps[0] != "\n"
    requires forall k :: 0 <= k < |seps| - 1 && seps[k] == "\r" && lines[k + 1] == [] ==>
               seps[k + 1] != "\n"
    ensures forall k :: 0 <= k < |seps| && ([b] + seps)[k] == "\r" && ([a] + lines)[k + 1] == [] ==>
              ([b] + seps)[k + 1] != "\n"
  {
    forall k | 1 <= k < |seps| + 1
      ensures ([b] + seps)[k] == seps[k - 1] && ([a] + lines)[k] == lines[k - 1]
    {
    }
  }

  /** The boundary that ends each line of `SplitLines(s)`; the empty string
      for a last line that runs to the end of the text. */
  function Separators(s: string): (seps: seq<string>)
    ensures |seps| == |SplitLines(s)|
    decreases |s|
  {
    if s == [] then []
    else
      var i := LineEnd(s);
      if i == |s| then [[]]
      else [s[i..i + BreakWidth(s, i)]] + Separators(s[i + BreakWidth(s, i)..])
  }

  /** One step of `SplitLines` and `Separators` at the first boundary. */
  lemma SplitStep(s: string, i: nat, w: nat)
    requires s != [] && i == LineEnd(s) < |s| && w == BreakWidth(s, i)
    ensures SplitLines(s) == [s[..i]] + SplitLines(s[i + w..])
    ensures Separators(s) == [s[i..i + w]] + Separators(s[i + w..])
    ensures IsBoundary(s[i..i + w])
  {
    SplitLinesStep(s);
    SeparatorsStep(s);
    BoundaryAt(s, i);
  }

  lemma SplitLinesStep(s: string)
    requires s != [] && LineEnd(s) < |s|
    ensures SplitLines(s) == [s[..LineEnd(s)]] + SplitLines(s[LineEnd(s) + BreakWidth(s, LineEnd(s))..])
  {
  }

  lemma SeparatorsStep(s: string)
    requires s != [] && LineEnd(s) < |s|
    ensures Separators(s) ==
            [s[LineEnd(s)..LineEnd(s) + BreakWidth(s, LineEnd(s))]] + Separators(s[LineEnd(s) + BreakWidth(s, LineEnd(s))..])
  {
  }

  /** The boundary at `i`, one or two characters wide. */
  lemma BoundaryAt(s: string, i: nat)
    requires i < |s| && IsLineBreak(s[i])
    ensures IsBoundary(s[i..i + BreakWidth(s, i)])
  {
    var b := s[i..i + BreakWidth(s, i)];
    assert b[0] == s[i];
    if |b| == 2 {
      assert b == "\r\n";
    }
  }

  /** A line that is empty at the front of the text starts at a boundary,
      which is its separator. */
  lemma SeparatorsFirst(s: string)
    ensures |SplitLines(s)| > 0 && SplitLines(s)[0] == [] ==>
              Separators(s)[0] != [] && s != [] && Separators(s)[0][0] == s[0]
  {
    if s != [] && LineEnd(s) < |s| {
      SplitStep(s, LineEnd(s), BreakWidth(s, LineEnd(s)));
    }
  }

  /** Text without a boundary is one line with the empty separator. */
  lemma SingleLine(s: string)
    requires s != [] && LineEnd(s) == |s|
    ensures SplitLines(s) == [s] && Separators(s) == [[]]
    ensures Interleave(SplitLines(s), Separators(s)) == s
  {
    assert Interleave([s], [[]]) == s + [] + Interleave([], []);
  }

  /** The lines, each followed by its separator, give back the text. */
  lemma {:induction false} SeparatorsRebuild(s: string)
    ensures Interleave(SplitLines(s), Separators(s)) == s
    decreases |s|
  {
    if s != [] {
      var i := LineEnd(s);
      if i == |s| {
        SingleLine(s);
      } else {
        var w := BreakWidth(s, i);
        var rest := s[i + w..];
        SplitStep(s, i, w);
        assert Interleave(SplitLines(rest), Separators(rest)) == rest by {
          SeparatorsRebuild(rest);
        }
        calc {
          Interleave(SplitLines(s), Separators(s));
          { InterleaveCons(s[..i], s[i..i + w], SplitLines(rest), Separators(rest)); }
          s[..i] + (s[i..i + w] + Interleave(SplitLines(rest), Separators(rest)));
          s[..i] + (s[i..i + w] + rest);
          { SplitThree(s, i, i + w); }
          s;
        }
      }
    }
  }

  /** Every separator is a boundary, except the empty one after a last line
      that runs to the end of the text, and that line is not empty. */
  lemma {:induction false} SeparatorsAreBoundaries(s: string)
    ensures forall k :: 0 <= k < |Separators(s)| ==>
              IsBoundary(Separators(s)[k]) ||
              (k == |Separators(s)| - 1 && Separators(s)[k] == [] && SplitLines(s)[k] != [])
    decreases |s|
  {
    if s != [] {
      var i := LineEnd(s);
      if i < |s| {
        var w := BreakWidth(s, i);
        SplitStep(s, i, w);
        SeparatorsAreBoundaries(s[i + w..]);
        SeparatorsCons(s[..i], s[i..i + w], SplitLines(s[i + w..]), Separators(s[i + w..]));
      }
    }
  }

  /** A lone "\r" is never followed by an empty line ended by "\n":
      "\r\n" is one boundary. */
  lemma {:induction false} SeparatorsKeepCrLf(s: string)
    ensures forall k :: 0 <= k < |Separators(s)| - 1 && Separators(s)[k] == "\r" && SplitLines(s)[k + 1] == [] ==>
              Separators(s)[k + 1] != "\n"
    decreases |s|
  {
    if s != [] {
      var i := LineEnd(s);
      if i < |s| {
        var w := BreakWidth(s, i);
        var rest := s[i + w..];
        SplitStep(s, i, w);
        SeparatorsKeepCrLf(rest);
        assert s[i..i + w] == "\r" && |Separators(rest)| > 0 && SplitLines(rest)[0] == [] ==>
               Separators(rest)[0] != "\n" by {
          SeparatorsFirst(rest);
          if s[i..i + w] == "\r" && |Separators(rest)| > 0 && SplitLines(rest)[0] == [] {
            assert w == 1 && Separators(rest)[0][0] == rest[0] == s[i + 1];
          }
        }
        LoneCarriageReturnCons(s[..i], s[i..i + w], SplitLines(rest), Separators(rest));
      }
    }
  }

  /** The text is its lines, each followed by the boundary that ended it;
      only a last line that runs to the end of the text has no boundary, and
      it is not empty. A lone "\r" is never followed by an empty line ended
      by "\n", because "\r\n" is one boundary. */
  lemma SplitLinesRebuild(s: string) returns (seps: seq<string>)
    ensures |seps| == |SplitLines(s)|
    ensures Interleave(SplitLines(s), seps) == s
    ensures forall k :: 0 <= k < |seps| ==>
              IsBoundary(seps[k]) || (k == |seps| - 1 && seps[k] == [] && SplitLines(s)[k] != [])
    ensures forall k :: 0 <= k < |seps| - 1 && seps[k] == "\r" && SplitLines(s)[k + 1] == [] ==>
              seps[k + 1] != "\n"
  {
    seps := Separators(s);
    SeparatorsRebuild(s);
    SeparatorsAreBoundaries(s);
    SeparatorsKeepCrLf(s);
  }
}
