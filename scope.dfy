/** Scope extraction of the technical matcher (`_extract_scope_items`):
    take the lines of the first "scope of supply" / "scope of work" block,
    and fall back to the cable-like lines of the whole text when that block
    yields nothing. */
module Scope {
  import opened Seqs
  import opened Text

  const BulletChar: char := '\U{2022}'  // "•"

  /** A header line: its stripped, lower-cased form names the scope. */
  predicate IsHeader(line: string)
  {
    var lower := Lower(Strip(line));
    Contains(lower, "scope of supply") || Contains(lower, "scope of work")
  }

  /** A line that ends the scope block: blank once stripped, or a "testing" or
      "general" section. The test is made before bullets are removed. */
  predicate IsStop(line: string)
  {
    var stripped := Strip(line);
    stripped == [] || StartsWith(Lower(stripped), "testing") ||
    StartsWith(Lower(stripped), "general")
  }

  /** The characters `lstrip("-• ")` removes. */
  predicate IsBulletOrSpace(c: char)
  {
    c == '-' || c == BulletChar || c == ' '
  }

  /** Python `s.lstrip("-• ")`: drops the longest prefix of bullets and spaces. */
  function DropBullets(s: string): (r: string)
    ensures |r| <= |s|
    ensures r == [] || !IsBulletOrSpace(r[0])
  {
    if s != [] && IsBulletOrSpace(s[0]) then DropBullets(s[1..]) else s
  }

  /** Python `stripped.startswith(("-", "•"))`; both prefixes are one character. */
  predicate IsBulleted(stripped: string)
  {
    stripped != [] && (stripped[0] == '-' || stripped[0] == BulletChar)
  }

  /** A line as it is collected: stripped, and for a bulleted line the
      leading run of bullets and spaces dropped and the rest stripped again. */
  function Clean(line: string): string
  {
    var stripped := Strip(line);
    if IsBulleted(stripped) then Strip(DropBullets(stripped)) else stripped
  }

  /** A line the fallback selects: its lower-cased form contains "cable",
      or contains "core" together with "sqmm" or "sq mm". */
  predicate IsSpecLike(line: string)
  {
    var lower := Lower(Strip(line));
    (Contains(lower, "core") && (Contains(lower, "sqmm") || Contains(lower, "sq mm"))) ||
    Contains(lower, "cable")
  }

  /** The tests the two passes make on a single line. */
  datatype LineTests = LineTests(
    header: string -> bool,
    stop: string -> bool,
    specLike: string -> bool,
    clean: string -> string)

  /** The tests of `_extract_scope_items`. */
  const Rules: LineTests := LineTests(IsHeader, IsStop, IsSpecLike, Clean)

  /** The first index at or after `from` whose line satisfies `p`, or
      `|lines|` when there is none. */
  function FirstFrom(lines: seq<string>, from: nat, p: string -> bool): (k: nat)
    requires from <= |lines|
    ensures from <= k <= |lines|
    ensures k < |lines| ==> p(lines[k])
    decreases |lines| - from
  {
    if from == |lines| || p(lines[from]) then from else FirstFrom(lines, from + 1, p)
  }

  /** What a collected line yields: its cleaned form, unless that is empty. */
  function Item(t: LineTests, line: string): Option<string>
  {
    if t.clean(line) != [] then Some(t.clean(line)) else None
  }

  /** What a line yields in the fallback pass: nothing unless it is spec-like. */
  function SpecItem(t: LineTests, line: string): Option<string>
  {
    if t.specLike(line) then Item(t, line) else None
  }

  /** What the lines with indices in `[lo, hi)` yield when collected. */
  function BlockYields(t: LineTests, lines: seq<string>, lo: nat, hi: nat): (r: seq<Option<string>>)
    requires lo <= hi <= |lines|
    ensures |r| == hi - lo
    decreases hi - lo
  {
    if hi == lo then [] else BlockYields(t, lines, lo, hi - 1) + [Item(t, lines[hi - 1])]
  }

  /** What the first `hi` lines yield in the fallback pass. */
  function SpecYields(t: LineTests, lines: seq<string>, hi: nat): (r: seq<Option<string>>)
    requires hi <= |lines|
    ensures |r| == hi
  {
    if hi == 0 then [] else SpecYields(t, lines, hi - 1) + [SpecItem(t, lines[hi - 1])]
  }

  lemma {:induction false} BlockYieldsAt(t: LineTests, lines: seq<string>, lo: nat, hi: nat)
    requires lo <= hi <= |lines|
    ensures forall k :: 0 <= k < hi - lo ==> BlockYields(t, lines, lo, hi)[k] == Item(t, lines[lo + k])
    decreases hi - lo
  {
    if hi > lo {
      BlockYieldsAt(t, lines, lo, hi - 1);
    }
  }

  lemma {:induction false} SpecYieldsAt(t: LineTests, lines: seq<string>, hi: nat)
    requires hi <= |lines|
    ensures forall k :: 0 <= k < hi ==> SpecYields(t, lines, hi)[k] == SpecItem(t, lines[k])
  {
    if hi > 0 {
      SpecYieldsAt(t, lines, hi - 1);
    }
  }

  /** The first pass: the lines strictly between the first header and the
      first stop line after it (or the end of the text). */
  function FirstPass(t: LineTests, lines: seq<string>): seq<string>
  {
    var header := FirstFrom(lines, 0, t.header);
    if header == |lines| then []
    else Somes(BlockYields(t, lines, header + 1, FirstFrom(lines, header + 1, t.stop)))
  }

  /** The fallback pass over the whole text. */
  function Fallback(t: LineTests, lines: seq<string>): seq<string>
  {
    Somes(SpecYields(t, lines, |lines|))
  }

  /** The extracted requirement lines: the scope block if it yields anything,
      otherwise the spec-like lines of the whole text. */
  function ScopeItems(t: LineTests, lines: seq<string>): seq<string>
  {
    if FirstPass(t, lines) != [] then FirstPass(t, lines) else Fallback(t, lines)
  }

  /** The first pass while `in_scope` is false: the index of the header line. */
  method FindHeader(t: LineTests, lines: seq<string>) returns (header: nat)
    ensures header == FirstFrom(lines, 0, t.header)
  {
    header := 0;
    while header < |lines| && !t.header(lines[header])
      invariant header <= |lines|
      invariant FirstFrom(lines, 0, t.header) == FirstFrom(lines, header, t.header)
      decreases |lines| - header
    {
      header := header + 1;
    }
  }

  /** The first pass while `in_scope` is true: collect from `from` up to the
      first stop line. */
  method CollectBlock(t: LineTests, lines: seq<string>, from: nat) returns (items: seq<string>)
    requires from <= |lines|
    ensures items == Somes(BlockYields(t, lines, from, FirstFrom(lines, from, t.stop)))
  {
    items := [];
    var i := from;
    while i < |lines| && !t.stop(lines[i])
      invariant from <= i <= |lines|
      invariant FirstFrom(lines, from, t.stop) == FirstFrom(lines, i, t.stop)
      invariant items == Somes(BlockYields(t, lines, from, i))
      decreases |lines| - i
    {
      SomesSnoc(BlockYields(t, lines, from, i), Item(t, lines[i]));
      var item := t.clean(lines[i]);
      if item != [] {
        items := items + [item];
      }
      i := i + 1;
    }
  }

  /** The fallback pass over every line. */
  method CollectSpecLike(t: LineTests, lines: seq<string>) returns (items: seq<string>)
    ensures items == Fallback(t, lines)
  {
    items := [];
    for j := 0 to |lines|
      invariant items == Somes(SpecYields(t, lines, j))
    {
      SomesSnoc(SpecYields(t, lines, j), SpecItem(t, lines[j]));
      var line := lines[j];
      if t.specLike(line) {
        var item := t.clean(line);
        if item != [] {
          items := items + [item];
        }
      }
    }
  }

  /** The two passes over the lines: search the header, collect the block
      that starts after the header line, and run the fallback when that
      found nothing. */
  method ScanLines(t: LineTests, lines: seq<string>) returns (items: seq<string>)
    ensures items == ScopeItems(t, lines)
  {
    var header := FindHeader(t, lines);
    items := [];
    if header < |lines| {
      items := CollectBlock(t, lines, header + 1);
    }
    if items == [] {
      items := CollectSpecLike(t, lines);
    }
  }

  /** `_extract_scope_items`: the two passes, with the source's tests, over
      the lines of the text. */
  method ExtractScopeItems(rfpText: string) returns (items: seq<string>)
    ensures items == ScopeItems(Rules, SplitLines(rfpText))
  {
    var lines := SplitLines(rfpText);
    items := ScanLines(Rules, lines);
  }

  /** No line before the one `FirstFrom` finds satisfies the test. */
  lemma {:induction false} FirstFromSkips(lines: seq<string>, from: nat, p: string -> bool, j: nat)
    requires from <= |lines| && from <= j < FirstFrom(lines, from, p)
    ensures !p(lines[j])
    decreases j - from
  {
    if j > from {
      FirstFromSkips(lines, from + 1, p, j);
    }
  }

  /** `FirstFrom` finds `j` when no line of `[from, j)` satisfies the test and
      the line at `j`, if any, does. */
  lemma {:induction false} FirstFromIs(lines: seq<string>, from: nat, p: string -> bool, j: nat)
    requires from <= j <= |lines|
    requires forall i :: from <= i < j ==> !p(lines[i])
    requires j < |lines| ==> p(lines[j])
    ensures FirstFrom(lines, from, p) == j
    decreases j - from
  {
    if from < j {
      FirstFromIs(lines, from + 1, p, j);
    }
  }

  /** The items collected from the lines `[lo, hi)` come, in order, from
      the lines in that range that do not clean to the empty string. */
  lemma BlockProvenance(t: LineTests, lines: seq<string>, lo: nat, hi: nat) returns (idx: seq<nat>)
    requires lo <= hi <= |lines|
    ensures |idx| == |Somes(BlockYields(t, lines, lo, hi))|
    ensures forall k :: 0 <= k < |idx| ==>
              lo <= idx[k] < hi && Somes(BlockYields(t, lines, lo, hi))[k] == t.clean(lines[idx[k]])
    ensures forall k, n :: 0 <= k < n < |idx| ==> idx[k] < idx[n]
    ensures forall j :: lo <= j < hi ==> (j in idx <==> t.clean(lines[j]) != [])
  {
    var lineItems := BlockYields(t, lines, lo, hi);
    BlockYieldsAt(t, lines, lo, hi);
    idx := SomesProvenance(lineItems, lo);
    var items := Somes(lineItems);
    forall k | 0 <= k < |idx|
      ensures items[k] == t.clean(lines[idx[k]])
    {
      assert lineItems[idx[k] - lo] == Item(t, lines[idx[k]]) == Some(items[k]);
    }
    forall j | lo <= j < hi
      ensures j in idx <==> t.clean(lines[j]) != []
    {
      assert lineItems[j - lo] == Item(t, lines[j]);
    }
  }

  /** When the first pass yields items they are the result, and they come,
      in order, from the lines strictly between the first header line and
      the first stop line after it; nothing at or before the header and
      nothing at or after the stop line is collected. */
  lemma FirstPassProvenance(t: LineTests, lines: seq<string>) returns (header: nat, stop: nat, idx: seq<nat>)
    requires FirstPass(t, lines) != []
    ensures ScopeItems(t, lines) == FirstPass(t, lines)
    ensures header < |lines| && t.header(lines[header])
    ensures forall j :: 0 <= j < header ==> !t.header(lines[j])
    ensures header < stop <= |lines| && (stop < |lines| ==> t.stop(lines[stop]))
    ensures forall j :: header < j < stop ==> !t.stop(lines[j])
    ensures |idx| == |ScopeItems(t, lines)|
    ensures forall k :: 0 <= k < |idx| ==>
              header < idx[k] < stop && ScopeItems(t, lines)[k] == t.clean(lines[idx[k]])
    ensures forall k, n :: 0 <= k < n < |idx| ==> idx[k] < idx[n]
    ensures forall j :: header < j < stop ==> (j in idx <==> t.clean(lines[j]) != [])
  {
    header := FirstFrom(lines, 0, t.header);
    stop := FirstFrom(lines, header + 1, t.stop);
    idx := BlockProvenance(t, lines, header + 1, stop);
    forall j | 0 <= j < header
      ensures !t.header(lines[j])
    {
      FirstFromSkips(lines, 0, t.header, j);
    }
    forall j | header < j < stop
      ensures !t.stop(lines[j])
    {
      FirstFromSkips(lines, header + 1, t.stop, j);
    }
  }

  /** When the first pass yields nothing the fallback scans the whole text:
      a line is used exactly when it is spec-like and does not clean to the
      empty string, and the items keep the order of their lines. */
  lemma FallbackProvenance(t: LineTests, lines: seq<string>) returns (idx: seq<nat>)
    requires FirstPass(t, lines) == []
    ensures ScopeItems(t, lines) == Fallback(t, lines)
    ensures |idx| == |ScopeItems(t, lines)|
    ensures forall k :: 0 <= k < |idx| ==>
              idx[k] < |lines| && ScopeItems(t, lines)[k] == t.clean(lines[idx[k]])
    ensures forall k, n :: 0 <= k < n < |idx| ==> idx[k] < idx[n]
    ensures forall j :: 0 <= j < |lines| ==>
              (j in idx <==> t.specLike(lines[j]) && t.clean(lines[j]) != [])
  {
    var lineItems := SpecYields(t, lines, |lines|);
    SpecYieldsAt(t, lines, |lines|);
    idx := SomesProvenance(lineItems, 0);
    var items := Somes(lineItems);
    forall k | 0 <= k < |idx|
      ensures items[k] == t.clean(lines[idx[k]])
    {
      assert lineItems[idx[k]] == SpecItem(t, lines[idx[k]]) == Some(items[k]);
    }
    forall j | 0 <= j < |lines|
      ensures j in idx <==> t.specLike(lines[j]) && t.clean(lines[j]) != []
    {
      assert lineItems[j] == SpecItem(t, lines[j]);
    }
  }

  /** A text without a header line is handled by the fallback alone, so any
      line mentioning a cable is among the items. */
  lemma NoHeaderCableLine(lines: seq<string>, j: nat)
    requires forall i :: 0 <= i < |lines| ==> !IsHeader(lines[i])
    requires j < |lines| && Contains(Lower(Strip(lines[j])), "cable")
    ensures ScopeItems(Rules, lines) == Fallback(Rules, lines)
    ensures Clean(lines[j]) in ScopeItems(Rules, lines)
  {
    SpecLikeLineKept(lines[j]);
    FirstFromIs(lines, 0, Rules.header, |lines|);
    var idx := FallbackProvenance(Rules, lines);
    assert j in idx;
    var k :| 0 <= k < |idx| && idx[k] == j;
  }

  /** `lstrip("-• ")` drops only a prefix, so a character it does not
      remove stays, at its place counted from the end. */
  lemma {:induction false} DropBulletsKeeps(s: string, p: nat)
    requires p < |s| && !IsBulletOrSpace(s[p])
    ensures |s| - |DropBullets(s)| <= p
    ensures DropBullets(s)[p - (|s| - |DropBullets(s)|)] == s[p]
  {
    if IsBulletOrSpace(s[0]) {
      DropBulletsKeeps(s[1..], p - 1);
    }
  }

  /** A string holding a non-whitespace character does not strip to empty. */
  lemma StripKeepsNonWhitespace(s: string, p: nat)
    requires p < |s| && !IsWhitespace(s[p])
    ensures Strip(s) != []
  {
    var i := StripSlice(s);
  }

  /** A character of the stripped line that is neither whitespace nor a
      bullet or space survives `Clean`, so the item is not empty. */
  lemma CleanKeeps(line: string, o: nat)
    requires o < |Strip(line)| && !IsWhitespace(Strip(line)[o]) && !IsBulletOrSpace(Strip(line)[o])
    ensures Clean(line) != []
  {
    var stripped := Strip(line);
    if IsBulleted(stripped) {
      var rest := DropBullets(stripped);
      DropBulletsKeeps(stripped, o);
      StripKeepsNonWhitespace(rest, o - (|stripped| - |rest|));
    }
  }

  /** A line the fallback selects has a "c" or "C" in its stripped form:
      the first letter of "core" or "cable". */
  lemma SpecLikeHasC(line: string) returns (o: nat)
    requires IsSpecLike(line)
    ensures o < |Strip(line)| && (Strip(line)[o] == 'c' || Strip(line)[o] == 'C')
  {
    var lower := Lower(Strip(line));
    var needle := if Contains(lower, "cable") then "cable" else "core";
    assert Contains(lower, needle);
    o :| 0 <= o <= |lower| && needle <= lower[o..];
    assert lower[o] == needle[0];
  }

  /** The item of a line the fallback selects is never empty. */
  lemma SpecLikeLineKept(line: string)
    requires IsSpecLike(line)
    ensures Clean(line) != []
  {
    var o := SpecLikeHasC(line);
    CleanKeeps(line, o);
  }

  /** A header line at `h` followed by lines that are neither stop lines
      nor clean to the empty string, up to a stop line at `e` (or the end of
      the text), yields exactly those lines cleaned, in order, when no line
      before `h` is a header. */
  lemma ScopeBlock(t: LineTests, lines: seq<string>, h: nat, e: nat)
    requires h + 1 < e <= |lines|
    requires forall i :: 0 <= i < h ==> !t.header(lines[i])
    requires t.header(lines[h])
    requires forall i :: h < i < e ==> !t.stop(lines[i]) && t.clean(lines[i]) != []
    requires e < |lines| ==> t.stop(lines[e])
    ensures |ScopeItems(t, lines)| == e - h - 1
    ensures forall k :: 0 <= k < e - h - 1 ==> ScopeItems(t, lines)[k] == t.clean(lines[h + 1 + k])
  {
    FirstFromIs(lines, 0, t.header, h);
    FirstFromIs(lines, h + 1, t.stop, e);
    var lineItems := BlockYields(t, lines, h + 1, e);
    assert forall k :: 0 <= k < |lineItems| ==> lineItems[k] == Some(t.clean(lines[h + 1 + k])) by {
      BlockYieldsAt(t, lines, h + 1, e);
    }
    SomesAll(lineItems);
    assert ScopeItems(t, lines) == Somes(lineItems);
  }

  /** When no line between the first header and the next stop line (or the
      end of the text) cleans to something, in particular when the stop
      line follows the header directly, the block yields nothing and the
      fallback decides. */
  lemma EmptyBlockFallsBack(t: LineTests, lines: seq<string>, h: nat, e: nat)
    requires h < e <= |lines|
    requires forall i :: 0 <= i < h ==> !t.header(lines[i])
    requires t.header(lines[h])
    requires forall i :: h < i < e ==> !t.stop(lines[i]) && t.clean(lines[i]) == []
    requires e < |lines| ==> t.stop(lines[e])
    ensures FirstPass(t, lines) == []
    ensures ScopeItems(t, lines) == Fallback(t, lines)
  {
    FirstFromIs(lines, 0, t.header, h);
    FirstFromIs(lines, h + 1, t.stop, e);
    var lineItems := BlockYields(t, lines, h + 1, e);
    assert forall k :: 0 <= k < |lineItems| ==> lineItems[k].None? by {
      BlockYieldsAt(t, lines, h + 1, e);
    }
    SomesNone(lineItems);
  }

  /** An item never has whitespace at either end. */
  lemma CleanIsStripped(line: string)
    ensures Strip(Clean(line)) == Clean(line)
    ensures Clean(line) == [] || (!IsWhitespace(Clean(line)[0]) && !IsWhitespace(Clean(line)[|Clean(line)| - 1]))
  {
    StripIdempotent(line);
    StripIdempotent(DropBullets(Strip(line)));
  }

  /** Every extracted item is non-empty and has no whitespace at either end. */
  lemma ScopeItemsShape(lines: seq<string>)
    ensures forall k :: 0 <= k < |ScopeItems(Rules, lines)| ==>
              ScopeItems(Rules, lines)[k] != [] && Strip(ScopeItems(Rules, lines)[k]) == ScopeItems(Rules, lines)[k]
  {
    var idx;
    if FirstPass(Rules, lines) != [] {
      var header, stop;
      header, stop, idx := FirstPassProvenance(Rules, lines);
    } else {
      idx := FallbackProvenance(Rules, lines);
    }
    forall k | 0 <= k < |ScopeItems(Rules, lines)|
      ensures ScopeItems(Rules, lines)[k] != [] && Strip(ScopeItems(Rules, lines)[k]) == ScopeItems(Rules, lines)[k]
    {
      CleanIsStripped(lines[idx[k]]);
    }
  }

  /** For a bulleted line, the item starts with neither a bullet nor a space
      as long as the text after the run of bullets and spaces does not start
      with other whitespace. */
  lemma BulletedItemStart(line: string)
    requires IsBulleted(Strip(line))
    requires var rest := DropBullets(Strip(line)); rest == [] || !IsWhitespace(rest[0])
    ensures Clean(line) == [] || !IsBulletOrSpace(Clean(line)[0])
  {
    var rest := DropBullets(Strip(line));
    assert TrimLeft(rest) == rest;
  }

  /** The `strip()` after `lstrip("-• ")` can uncover a bullet that a tab
      had hidden, so an item can still start with "-". */
  lemma CleanCanExposeBullet()
    ensures Clean("-\t-x") == "-x"
  {
    assert Strip("-\t-x") == "-\t-x";
    assert DropBullets("-\t-x") == "\t-x";
    assert TrimLeft("\t-x") == "-x";
  }

  /** The stop test sees the bullet, so a bulleted line such as
      "- Testing as per IS" never ends the block. */
  lemma BulletedLineNeverStops(line: string)
    requires IsBulleted(Strip(line))
    ensures !IsStop(line)
  {
    var lower := Lower(Strip(line));
    assert lower[0] == Strip(line)[0];
    assert "testing"[0] != lower[0] && "general"[0] != lower[0];
  }
}
