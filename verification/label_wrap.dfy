/** Node label wrapping (`resetLabelText`): a label is broken into lines at
    line breaks and wherever the next character would make the line wider
    than the available width; when there are more lines than allowed, the
    last shown line is shortened and ends in "...". Text width is an abstract
    measure supplied by the caller. */
module LabelWrap {
  import opened Js

  /** The width of a string in the label's font (`measureText(s).width`). */
  type Measure = string -> real

  predicate IsLineBreak(c: char) {
    c == '\n' || c == '\r'
  }

  predicate BreakFree(s: string) {
    forall k :: 0 <= k < |s| ==> !IsLineBreak(s[k])
  }

  /** The characters JavaScript's `trim` removes: white space and line
      terminators. */
  const Spaces: set<char> := {
    '\t', '\n', '\U{000B}', '\U{000C}', '\r', ' ', '\U{00A0}', '\U{1680}',
    '\U{2000}', '\U{2001}', '\U{2002}', '\U{2003}', '\U{2004}', '\U{2005}',
    '\U{2006}', '\U{2007}', '\U{2008}', '\U{2009}', '\U{200A}',
    '\U{2028}', '\U{2029}', '\U{202F}', '\U{205F}', '\U{3000}', '\U{FEFF}'}

  predicate IsSpace(c: char) {
    c in Spaces
  }

  /** `s` with trailing white space removed. */
  function TrimEnd(s: string): (r: string)
    ensures |r| <= |s| && r == s[..|r|]
    ensures forall k :: |r| <= k < |s| ==> IsSpace(s[k])
    ensures |r| > 0 ==> !IsSpace(r[|r| - 1])
    decreases |s|
  {
    if |s| > 0 && IsSpace(s[|s| - 1]) then TrimEnd(s[..|s| - 1]) else s
  }

  /** `s` with leading white space removed. */
  function TrimStart(s: string): (r: string)
    ensures |r| <= |s| && r == s[|s| - |r|..]
    ensures forall k :: 0 <= k < |s| - |r| ==> IsSpace(s[k])
    ensures |r| > 0 ==> !IsSpace(r[0])
    decreases |s|
  {
    if |s| > 0 && IsSpace(s[0]) then TrimStart(s[1..]) else s
  }

  /** `s[a..b]` leaves out only white space: everything before `a` and from
      `b` on is white space. */
  predicate StripsSpace(s: string, a: int, b: int) {
    0 <= a <= b <= |s| && AllSpace(s[..a]) && AllSpace(s[b..])
  }

  predicate AllSpace(s: string) {
    forall k :: 0 <= k < |s| ==> IsSpace(s[k])
  }

  /** `s.trim()`: the infix of `s` left after removing white space at both
      ends. */
  function Trim(s: string): (r: string)
    // an infix of `s` whose removed head and tail are all white space...
    ensures exists a, b :: StripsSpace(s, a, b) && r == s[a..b]
    // ...and which neither starts nor ends with white space
    ensures |r| > 0 ==> !IsSpace(r[0]) && !IsSpace(r[|r| - 1])
  {
    TrimBothEnds(s);
    TrimStart(TrimEnd(s))
  }

  lemma TrimBothEnds(s: string)
    ensures var t := TrimEnd(s); var r := TrimStart(t);
      StripsSpace(s, |t| - |r|, |t|) && r == s[|t| - |r|..|t|]
  {
    var t := TrimEnd(s);
    var r := TrimStart(t);
    forall k | 0 <= k < |t| - |r| ensures IsSpace(s[k]) {
      assert s[k] == t[k];
    }
  }

  /** `t.substring(0, t.length - 1)`, which is empty for an empty string. */
  function DropLast(t: string): string {
    if |t| == 0 then t else t[..|t| - 1]
  }

  /** The lines closed so far and the line being built. */
  datatype Acc = Acc(lines: seq<string>, temp: string)

  /** One pass of the loop body (before its last-character check): append
      the character; a line break closes the line, trimmed; a line grown
      wider than `maxWidth` is closed without its last character, which
      starts the next line. */
  function Feed(acc: Acc, c: char, maxWidth: real, measure: Measure): (r: Acc)
    // closed lines stay closed; one character closes at most two lines
    ensures acc.lines <= r.lines && |r.lines| <= |acc.lines| + 2
  {
    var t := acc.temp + [c];
    var a := if IsLineBreak(c) then Acc(acc.lines + [Trim(t)], "") else Acc(acc.lines, t);
    if measure(a.temp) > maxWidth then Acc(a.lines + [DropLast(a.temp)], [c]) else a
  }

  /** The loop state after the characters of `s`. */
  function FeedAll(s: string, maxWidth: real, measure: Measure): (a: Acc)
    ensures |a.lines| <= 2 * |s|
    decreases |s|
  {
    if |s| == 0 then Acc([], "") else Feed(FeedAll(s[..|s| - 1], maxWidth, measure), s[|s| - 1], maxWidth, measure)
  }

  /** The `lines` array once the loop is over: the last character also
      closes the line being built. */
  function SplitLines(s: string, maxWidth: real, measure: Measure): (ls: seq<string>)
    requires |s| > 0
    ensures 1 <= |ls| <= 2 * |s| + 1
    ensures FeedAll(s, maxWidth, measure).lines <= ls
  {
    var a := FeedAll(s, maxWidth, measure);
    a.lines + [a.temp]
  }

  /** The ellipsis loop: each character of `line` is appended to `acc` when
      `acc` plus that character still measures under `limit`; a rejected
      character does not end the loop. */
  function KeepFitting(line: string, acc: string, limit: real, measure: Measure): (r: string)
    // what was kept stays kept, and at most every character is added
    ensures acc <= r && |r| <= |acc| + |line|
    decreases |line|
  {
    if |line| == 0 then acc
    else KeepFitting(line[1..], if measure(acc + [line[0]]) < limit then acc + [line[0]] else acc, limit, measure)
  }

  /** `lines.join('\n')`. */
  function Join(ls: seq<string>): (r: string)
    decreases |ls|
  {
    if |ls| == 0 then "" else if |ls| == 1 then ls[0] else Join(ls[..|ls| - 1]) + "\n" + ls[|ls| - 1]
  }

  /** `resetLabelText(label, maxWidth, maxLine)` on the label's text. A text
      that is not a string, or is empty, comes back unchanged. */
  function ResetLabelText(text: Value, maxWidth: real, maxLine: int, measure: Measure): (r: Value)
    requires maxLine >= 1
    ensures !text.Str? || text.s == "" ==> r == text
    ensures text.Str? ==> r.Str?
  {
    if !text.Str? || text.s == "" then text
    else Str(Shown(SplitLines(text.s, maxWidth, measure), maxWidth, maxLine, measure))
  }

  /** What is shown for the split lines: all of them joined and trimmed
      when they are at most `maxLine`, otherwise the first `maxLine - 1`
      and the shortened next one with "..." appended. */
  function Shown(lines: seq<string>, maxWidth: real, maxLine: int, measure: Measure): string
    requires maxLine >= 1
  {
    if |lines| <= maxLine then Trim(Join(lines))
    else
      var last := KeepFitting(lines[maxLine - 1], "", maxWidth - measure("..."), measure);
      Join(lines[..maxLine - 1] + [last + "..."])
  }

  /** The source's two loops, step by step; they compute `ResetLabelText`. */
  method ResetLabelTextLoop(text: Value, maxWidth: real, maxLine: int, measure: Measure) returns (r: Value)
    requires maxLine >= 1
    ensures r == ResetLabelText(text, maxWidth, maxLine, measure)
    ensures !text.Str? || text.s == "" ==> r == text
  {
    if !text.Str? || text.s == "" {
      return text;
    }
    var ellipsisWidth := measure("...");
    var lines := SplitLoop(text.s, maxWidth, measure);
    assert ResetLabelText(text, maxWidth, maxLine, measure) == Str(Shown(lines, maxWidth, maxLine, measure));
    if |lines| <= maxLine {
      // `lines.slice(0, maxLine)` is every line here
      return Str(Trim(Join(lines)));
    }
    var newLastLine := EllipsisLoop(lines[maxLine - 1], maxWidth - ellipsisWidth, measure);
    r := Str(Join(lines[..maxLine - 1] + [newLastLine + "..."]));
  }

  /** The first loop: one pass over the characters, building `lines`. */
  method SplitLoop(s: string, maxWidth: real, measure: Measure) returns (lines: seq<string>)
    requires |s| > 0
    ensures lines == SplitLines(s, maxWidth, measure)
  {
    lines := [];
    var temp: string := "";
    var i := 0;
    assert s[..0] == [];
    while i < |s|
      invariant 0 <= i <= |s|
      invariant i < |s| ==> Acc(lines, temp) == FeedAll(s[..i], maxWidth, measure)
      invariant i == |s| ==> lines == SplitLines(s, maxWidth, measure)
    {
      FeedAllStep(s, i, maxWidth, measure);
      var c := s[i];
      temp := temp + [c];
      if IsLineBreak(c) {
        lines := lines + [Trim(temp)];
        temp := "";
      }
      if measure(temp) > maxWidth {
        lines := lines + [DropLast(temp)];
        temp := [c];
      }
      if i == |s| - 1 {
        assert s[..i + 1] == s;
        lines := lines + [temp];
      }
      i := i + 1;
    }
  }

  lemma FeedAllStep(s: string, i: int, maxWidth: real, measure: Measure)
    requires 0 <= i < |s|
    ensures FeedAll(s[..i + 1], maxWidth, measure) == Feed(FeedAll(s[..i], maxWidth, measure), s[i], maxWidth, measure)
  {
    assert s[..i + 1][..i] == s[..i];
  }

  /** The second loop: keep each character of the last shown line that
      still fits in `limit` together with what was kept before it. */
  method EllipsisLoop(lastLine: string, limit: real, measure: Measure) returns (newLastLine: string)
    ensures newLastLine == KeepFitting(lastLine, "", limit, measure)
  {
    newLastLine := "";
    var k := 0;
    while k < |lastLine|
      invariant 0 <= k <= |lastLine|
      invariant KeepFitting(lastLine[k..], newLastLine, limit, measure)
             == KeepFitting(lastLine, "", limit, measure)
    {
      var c := lastLine[k];
      if measure(newLastLine + [c]) < limit {
        newLastLine := newLastLine + [c];
      }
      assert lastLine[k..][1..] == lastLine[k + 1..];
      k := k + 1;
    }
  }

  // ---------------------------------------------------------------------
  // Properties

  /** All lines concatenated. */
  function Concat(ls: seq<string>): string
    decreases |ls|
  {
    if |ls| == 0 then "" else Concat(ls[..|ls| - 1]) + ls[|ls| - 1]
  }

  /** Without line breaks no character is lost or reordered: the closed
      lines followed by the line being built spell out the input. */
  lemma {:induction false} FeedAllKeepsText(s: string, maxWidth: real, measure: Measure)
    requires BreakFree(s)
    ensures Concat(FeedAll(s, maxWidth, measure).lines) + FeedAll(s, maxWidth, measure).temp == s
    decreases |s|
  {
    if |s| > 0 {
      var p := s[..|s| - 1];
      assert BreakFree(p);
      FeedAllKeepsText(p, maxWidth, measure);
      var a := FeedAll(p, maxWidth, measure);
      var c := s[|s| - 1];
      var t := a.temp + [c];
      if measure(t) > maxWidth {
        assert DropLast(t) + [c] == t;
        assert Concat(a.lines + [DropLast(t)]) == Concat(a.lines) + DropLast(t);
      }
      SplitLast(s);
    }
  }

  /** A label without line breaks is only cut, never altered: its lines
      concatenate back to the label. */
  lemma SplitKeepsText(s: string, maxWidth: real, measure: Measure)
    requires |s| > 0 && BreakFree(s)
    ensures Concat(SplitLines(s, maxWidth, measure)) == s
  {
    FeedAllKeepsText(s, maxWidth, measure);
    var a := FeedAll(s, maxWidth, measure);
    assert Concat(a.lines + [a.temp]) == Concat(a.lines) + a.temp;
  }

  lemma TrimOfBreakTail(t: string)
    requires |t| > 0 && BreakFree(t[..|t| - 1]) && IsLineBreak(t[|t| - 1])
    ensures BreakFree(Trim(t))
  {
    var e := TrimEnd(t);
    assert |e| < |t|;
    assert BreakFree(e);
  }

  /** When the empty string fits (as a zero width does), no line contains a
      line break, and neither does the line being built. */
  lemma {:induction false} FeedAllBreakFree(s: string, maxWidth: real, measure: Measure)
    requires measure("") <= maxWidth
    ensures var a := FeedAll(s, maxWidth, measure);
      BreakFree(a.temp) && forall k :: 0 <= k < |a.lines| ==> BreakFree(a.lines[k])
    decreases |s|
  {
    if |s| > 0 {
      FeedAllBreakFree(s[..|s| - 1], maxWidth, measure);
      FeedBreakFree(FeedAll(s[..|s| - 1], maxWidth, measure), s[|s| - 1], maxWidth, measure);
    }
  }

  /** One character keeps every line break-free: a line break closes the
      line (trimmed, so without the break) and the overflow check then sees
      an empty line; any other character is appended, or starts the next
      line when the current one overflows. */
  lemma FeedBreakFree(acc: Acc, c: char, maxWidth: real, measure: Measure)
    requires measure("") <= maxWidth
    requires BreakFree(acc.temp) && forall k :: 0 <= k < |acc.lines| ==> BreakFree(acc.lines[k])
    ensures var a := Feed(acc, c, maxWidth, measure);
      BreakFree(a.temp) && forall k :: 0 <= k < |a.lines| ==> BreakFree(a.lines[k])
  {
    var t := acc.temp + [c];
    var a := Feed(acc, c, maxWidth, measure);
    if IsLineBreak(c) {
      TrimOfBreakTail(t);
      assert t[..|t| - 1] == acc.temp;
      assert a == Acc(acc.lines + [Trim(t)], "");
    } else if measure(t) > maxWidth {
      assert DropLast(t) == acc.temp;
      assert a == Acc(acc.lines + [acc.temp], [c]);
    } else {
      assert BreakFree(t);
      assert a == Acc(acc.lines, t);
    }
  }

  lemma SplitLinesBreakFree(s: string, maxWidth: real, measure: Measure)
    requires |s| > 0 && measure("") <= maxWidth
    ensures forall k :: 0 <= k < |SplitLines(s, maxWidth, measure)| ==> BreakFree(SplitLines(s, maxWidth, measure)[k])
  {
    FeedAllBreakFree(s, maxWidth, measure);
  }

  /** Joining break-free lines puts exactly one newline between each two. */
  lemma {:induction false} JoinNewlines(ls: seq<string>)
    requires |ls| > 0 && forall k :: 0 <= k < |ls| ==> BreakFree(ls[k])
    ensures multiset(Join(ls))['\n'] == |ls| - 1
    decreases |ls|
  {
    assert multiset(ls[|ls| - 1])['\n'] == 0 by {
      assert '\n' !in ls[|ls| - 1];
    }
    if |ls| > 1 {
      JoinNewlines(ls[..|ls| - 1]);
    }
  }

  lemma InfixNewlines(s: string, a: int, b: int)
    requires 0 <= a <= b <= |s|
    ensures multiset(s[a..b])['\n'] <= multiset(s)['\n']
  {
    assert s == s[..a] + s[a..b] + s[b..];
  }

  /** `sub` is `s` with some characters left out, the rest in order. */
  predicate IsSubseq(sub: string, s: string)
    decreases |s|
  {
    if |sub| == 0 then true
    else if |s| == 0 then false
    else if sub[0] == s[0] then IsSubseq(sub[1..], s[1..])
    else IsSubseq(sub, s[1..])
  }

  lemma {:induction false} SubseqSkipFirst(sub: string, s: string)
    requires |s| > 0 && IsSubseq(sub, s[1..])
    ensures IsSubseq(sub, s)
    decreases |s|, 0
  {
    if |sub| > 0 && sub[0] == s[0] {
      SubseqDropHead(sub, s[1..]);
    }
  }

  lemma {:induction false} SubseqDropHead(sub: string, t: string)
    requires |sub| > 0 && IsSubseq(sub, t)
    ensures IsSubseq(sub[1..], t)
    decreases |t|, 1
  {
    assert |t| > 0;
    if sub[0] == t[0] {
      SubseqSkipFirst(sub[1..], t);
    } else {
      SubseqDropHead(sub, t[1..]);
      SubseqSkipFirst(sub[1..], t);
    }
  }

  /** The ellipsis loop keeps what it was given and then a subsequence of
      the line; whenever it keeps anything, the kept text measures under the
      limit. */
  lemma {:induction false} KeepFittingFits(line: string, acc: string, limit: real, measure: Measure)
    ensures var r := KeepFitting(line, acc, limit, measure);
      && |acc| <= |r| && r[..|acc|] == acc && IsSubseq(r[|acc|..], line)
      && (r == acc || measure(r) < limit)
    decreases |line|
  {
    var r := KeepFitting(line, acc, limit, measure);
    if |line| > 0 {
      var c := line[0];
      if measure(acc + [c]) < limit {
        var a := acc + [c];
        KeepFittingFits(line[1..], a, limit, measure);
        assert r[|acc|..][0] == c && r[|acc|..][1..] == r[|a|..];
      } else {
        KeepFittingFits(line[1..], acc, limit, measure);
        SubseqSkipFirst(r[|acc|..], line);
      }
    }
  }

  /** When the empty string fits, the label has at most `maxLine` lines: at
      most `maxLine - 1` newlines. When it had more lines than that, it shows
      exactly `maxLine` of them and ends in "...". */
  lemma {:induction false} AtMostMaxLines(text: string, maxWidth: real, maxLine: int, measure: Measure)
    requires |text| > 0 && maxLine >= 1 && measure("") <= maxWidth
    ensures var r := ResetLabelText(Str(text), maxWidth, maxLine, measure);
      r.Str? && multiset(r.s)['\n'] <= maxLine - 1
    ensures var r := ResetLabelText(Str(text), maxWidth, maxLine, measure);
      |SplitLines(text, maxWidth, measure)| > maxLine ==>
        multiset(r.s)['\n'] == maxLine - 1 && |r.s| >= 3 && r.s[|r.s| - 3..] == "..."
  {
    SplitLinesBreakFree(text, maxWidth, measure);
    ShownBounds(SplitLines(text, maxWidth, measure), maxWidth, maxLine, measure);
  }

  /** The shown text of break-free lines has at most `maxLine - 1`
      newlines, exactly that many and a trailing "..." when it was cut. */
  lemma {:induction false} ShownBounds(lines: seq<string>, maxWidth: real, maxLine: int, measure: Measure)
    requires |lines| > 0 && maxLine >= 1 && forall k :: 0 <= k < |lines| ==> BreakFree(lines[k])
    ensures multiset(Shown(lines, maxWidth, maxLine, measure))['\n'] <= maxLine - 1
    ensures var r := Shown(lines, maxWidth, maxLine, measure);
      |lines| > maxLine ==> multiset(r)['\n'] == maxLine - 1 && |r| >= 3 && r[|r| - 3..] == "..."
  {
    if |lines| <= maxLine {
      ShownFew(lines, maxWidth, maxLine, measure);
    } else {
      ShownMany(lines, maxWidth, maxLine, measure);
    }
  }

  lemma {:induction false} ShownFew(lines: seq<string>, maxWidth: real, maxLine: int, measure: Measure)
    requires 0 < |lines| <= maxLine && forall k :: 0 <= k < |lines| ==> BreakFree(lines[k])
    ensures multiset(Shown(lines, maxWidth, maxLine, measure))['\n'] <= maxLine - 1
  {
    assert Shown(lines, maxWidth, maxLine, measure) == Trim(Join(lines));
    FewLines(lines);
  }

  lemma {:induction false} ShownMany(lines: seq<string>, maxWidth: real, maxLine: int, measure: Measure)
    requires 1 <= maxLine < |lines| && forall k :: 0 <= k < |lines| ==> BreakFree(lines[k])
    ensures var r := Shown(lines, maxWidth, maxLine, measure);
      multiset(r)['\n'] == maxLine - 1 && |r| >= 3 && r[|r| - 3..] == "..."
  {
    var limit := maxWidth - measure("...");
    var last := KeepFitting(lines[maxLine - 1], "", limit, measure);
    assert Shown(lines, maxWidth, maxLine, measure) == Join(lines[..maxLine - 1] + [last + "..."]);
    ManyLines(lines, maxLine, limit, measure);
  }

  lemma {:induction false} FewLines(lines: seq<string>)
    requires |lines| > 0 && forall k :: 0 <= k < |lines| ==> BreakFree(lines[k])
    ensures multiset(Trim(Join(lines)))['\n'] <= |lines| - 1
  {
    JoinNewlines(lines);
    var j := Join(lines);
    var a, b :| 0 <= a <= b <= |j| && Trim(j) == j[a..b];
    InfixNewlines(j, a, b);
  }

  lemma {:induction false} ManyLines(lines: seq<string>, maxLine: int, limit: real, measure: Measure)
    requires 1 <= maxLine < |lines| && forall k :: 0 <= k < |lines| ==> BreakFree(lines[k])
    ensures var r := Join(lines[..maxLine - 1] + [KeepFitting(lines[maxLine - 1], "", limit, measure) + "..."]);
      multiset(r)['\n'] == maxLine - 1 && |r| >= 3 && r[|r| - 3..] == "..."
  {
    var last := KeepFitting(lines[maxLine - 1], "", limit, measure);
    KeepFittingFits(lines[maxLine - 1], "", limit, measure);
    assert last[0..] == last;
    SubseqBreakFree(last, lines[maxLine - 1]);
    var shown := lines[..maxLine - 1] + [last + "..."];
    assert BreakFree(last + "...");
    assert forall k :: 0 <= k < |shown| ==> BreakFree(shown[k]);
    JoinNewlines(shown);
    assert shown[|shown| - 1] == last + "...";
    JoinEnds(shown);
    DotsTail(Join(shown), last);
  }

  lemma DotsTail(t: string, x: string)
    requires |t| >= |x + "..."| && t[|t| - |x + "..."|..] == x + "..."
    ensures |t| >= 3 && t[|t| - 3..] == "..."
  {
    assert t[|t| - 3..] == t[|t| - |x + "..."|..][|x|..];
  }

  lemma {:induction false} SubseqBreakFree(sub: string, s: string)
    requires IsSubseq(sub, s) && BreakFree(s)
    ensures BreakFree(sub)
    decreases |s|
  {
    if |sub| > 0 {
      assert BreakFree(s[1..]);
      if sub[0] == s[0] {
        SubseqBreakFree(sub[1..], s[1..]);
        assert forall k :: 1 <= k < |sub| ==> sub[k] == sub[1..][k - 1];
      } else {
        SubseqBreakFree(sub, s[1..]);
      }
    }
  }

  lemma JoinEnds(ls: seq<string>)
    requires |ls| > 0
    ensures |Join(ls)| >= |ls[|ls| - 1]| && Join(ls)[|Join(ls)| - |ls[|ls| - 1]|..] == ls[|ls| - 1]
  {
  }

  /** A label that fits on one line is shown as it is: no line breaks, no
      white space at either end, and every prefix within the width. */
  lemma {:induction false} FitsUnchanged(text: string, maxWidth: real, maxLine: int, measure: Measure)
    requires |text| > 0 && maxLine >= 1 && BreakFree(text)
    requires !IsSpace(text[0]) && !IsSpace(text[|text| - 1])
    requires forall k :: 1 <= k <= |text| ==> measure(text[..k]) <= maxWidth
    ensures ResetLabelText(Str(text), maxWidth, maxLine, measure) == Str(text)
  {
    NoOverflow(text, maxWidth, measure);
    assert SplitLines(text, maxWidth, measure) == [text];
    assert TrimEnd(text) == text;
    assert TrimStart(text) == text;
  }

  lemma {:induction false} NoOverflow(s: string, maxWidth: real, measure: Measure)
    requires BreakFree(s)
    requires forall k :: 1 <= k <= |s| ==> measure(s[..k]) <= maxWidth
    ensures FeedAll(s, maxWidth, measure) == Acc([], s)
    decreases |s|
  {
    if |s| > 0 {
      var p, c := s[..|s| - 1], s[|s| - 1];
      assert BreakFree(p) by {
        forall k | 0 <= k < |p| ensures !IsLineBreak(p[k]) {
          assert p[k] == s[k];
        }
      }
      forall k | 1 <= k <= |p| ensures measure(p[..k]) <= maxWidth {
        assert p[..k] == s[..k];
      }
      NoOverflow(p, maxWidth, measure);
      SplitLast(s);
      assert measure(s[..|s|]) <= maxWidth;
      FeedAppends(Acc([], p), c, maxWidth, measure);
    }
  }

  lemma SplitLast(s: string)
    requires |s| > 0
    ensures s[..|s| - 1] + [s[|s| - 1]] == s[..|s|] == s
  {
  }

  /** A character that is no line break and keeps the line within the
      width is simply appended to it. */
  lemma FeedAppends(acc: Acc, c: char, maxWidth: real, measure: Measure)
    requires !IsLineBreak(c) && measure(acc.temp + [c]) <= maxWidth
    ensures Feed(acc, c, maxWidth, measure) == Acc(acc.lines, acc.temp + [c])
  {
  }
}
