/** The text normalisation of `extract_text_from`: the visible text of a
    page is split into lines, every line is stripped, empty lines are dropped
    and the rest are joined again with a single newline. Fetching the page
    and extracting its visible text are not modelled: the visible text is
    the input. */
module TextExtraction {

  /** The characters Python's `str.isspace()` accepts; `str.strip()`
      removes these from both ends of a string. */
  predicate IsSpace(c: char)
  {
    || c == ' ' || c == '\t' || c == '\n' || c == '\r'
    || c == '\U{000B}' || c == '\U{000C}'
    || ('\U{001C}' <= c <= '\U{001F}')
    || c == '\U{0085}' || c == '\U{00A0}' || c == '\U{1680}'
    || ('\U{2000}' <= c <= '\U{200A}')
    || c == '\U{2028}' || c == '\U{2029}' || c == '\U{202F}'
    || c == '\U{205F}' || c == '\U{3000}'
  }

  /** The characters at which Python's `str.splitlines()` breaks a line. */
  predicate IsLineBreak(c: char)
  {
    || c == '\n' || c == '\r' || c == '\U{000B}' || c == '\U{000C}'
    || c == '\U{001C}' || c == '\U{001D}' || c == '\U{001E}'
    || c == '\U{0085}' || c == '\U{2028}' || c == '\U{2029}'
  }

  predicate AllSpace(s: string)
  {
    forall k :: 0 <= k < |s| ==> IsSpace(s[k])
  }

  predicate NoLineBreak(s: string)
  {
    forall k :: 0 <= k < |s| ==> !IsLineBreak(s[k])
  }

  /** A string with no whitespace at either end. */
  predicate IsStripped(s: string)
  {
    s == [] || (!IsSpace(s[0]) && !IsSpace(s[|s| - 1]))
  }

  /** A line as it can appear in normalised text. */
  predicate IsCleanLine(s: string)
  {
    s != [] && IsStripped(s) && NoLineBreak(s)
  }

  /** The pieces of `s` between line breaks: one more piece than there are
      breaks (SplitLinesRebuild). Python's `splitlines` differs only in empty
      pieces: it treats "\r\n" as one break, yields no piece after a final
      break, and gives no piece at all for the empty string. The
      normalisation drops every empty line anyway. */
  function SplitLines(s: string): (lines: seq<string>)
    ensures |lines| >= 1
    ensures forall i :: 0 <= i < |lines| ==> NoLineBreak(lines[i])
    decreases |s|
  {
    if s == [] then [[]]
    else
      var rest := SplitLines(s[1..]);
      if IsLineBreak(s[0]) then [[]] + rest
      else [[s[0]] + rest[0]] + rest[1..]
  }

  /** The line-break characters of `s`, in order. */
  function Breaks(s: string): (r: string)
    ensures forall k :: 0 <= k < |r| ==> IsLineBreak(r[k])
  {
    if s == [] then []
    else (if IsLineBreak(s[0]) then [s[0]] else []) + Breaks(s[1..])
  }

  /** The pieces with the break characters put back between them. */
  function Interleave(pieces: seq<string>, breaks: string): string
    requires |pieces| == |breaks| + 1
  {
    if breaks == [] then pieces[0]
    else pieces[0] + [breaks[0]] + Interleave(pieces[1..], breaks[1..])
  }

  /** The pieces of `s`, with the break characters of `s` between them in
      their order, make up `s` again: nothing is lost, added or moved. */
  lemma {:induction false} SplitLinesRebuild(s: string)
    ensures |SplitLines(s)| == |Breaks(s)| + 1
    ensures Interleave(SplitLines(s), Breaks(s)) == s
    decreases |s|
  {
    if s != [] {
      var rest := SplitLines(s[1..]);
      SplitLinesRebuild(s[1..]);
      if IsLineBreak(s[0]) {
        assert Breaks(s) == [s[0]] + Breaks(s[1..]);
        assert (([[]] + rest)[1..]) == rest;
        assert [] + [s[0]] + s[1..] == s;
      } else {
        assert Breaks(s) == Breaks(s[1..]);
        InterleaveCons(s[0], rest, Breaks(s[1..]));
        assert [s[0]] + s[1..] == s;
      }
    }
  }

  /** A character in front of the first piece ends up in front of the text. */
  lemma InterleaveCons(c: char, pieces: seq<string>, breaks: string)
    requires |pieces| == |breaks| + 1
    ensures Interleave([[c] + pieces[0]] + pieces[1..], breaks) == [c] + Interleave(pieces, breaks)
  {
    var moved := [[c] + pieces[0]] + pieces[1..];
    assert moved[0] == [c] + pieces[0];
    if breaks != [] {
      assert moved[1..] == pieces[1..];
      var tail := Interleave(pieces[1..], breaks[1..]);
      assert ([c] + pieces[0]) + [breaks[0]] + tail == [c] + (pieces[0] + [breaks[0]] + tail);
    }
  }

  /** When every break is `'\n'`, putting the breaks back is joining with `'\n'`. */
  lemma {:induction false} InterleaveNewlines(pieces: seq<string>, breaks: string)
    requires |pieces| == |breaks| + 1
    requires forall k :: 0 <= k < |breaks| ==> breaks[k] == '\n'
    ensures Interleave(pieces, breaks) == Join(pieces)
    decreases |breaks|
  {
    if breaks != [] {
      InterleaveNewlines(pieces[1..], breaks[1..]);
      assert [breaks[0]] == "\n";
    }
  }

  /** Every break character of `s` occurs in `s`. */
  lemma {:induction false} BreaksOf(s: string)
    ensures forall k :: 0 <= k < |Breaks(s)| ==> Breaks(s)[k] in s
    decreases |s|
  {
    if s != [] {
      BreaksOf(s[1..]);
      var head := if IsLineBreak(s[0]) then [s[0]] else [];
      forall k | 0 <= k < |Breaks(s)| ensures Breaks(s)[k] in s {
        if k < |head| {
          assert Breaks(s)[k] == s[0];
        } else {
          assert Breaks(s)[k] == Breaks(s[1..])[k - |head|];
          assert Breaks(s[1..])[k - |head|] in s[1..];
        }
      }
    }
  }

  /** For text whose only line break is `'\n'`, joining the pieces with
      `'\n'` gives the text back. */
  lemma SplitLinesJoin(s: string)
    requires forall k :: 0 <= k < |s| && IsLineBreak(s[k]) ==> s[k] == '\n'
    ensures Join(SplitLines(s)) == s
  {
    SplitLinesRebuild(s);
    BreaksOf(s);
    var b := Breaks(s);
    forall k | 0 <= k < |b| ensures b[k] == '\n' {
      assert b[k] in s;
      var j :| 0 <= j < |s| && s[j] == b[k];
    }
    InterleaveNewlines(SplitLines(s), b);
  }

  /** `'\n'.join(lines)`. */
  function Join(lines: seq<string>): string
  {
    if lines == [] then []
    else if |lines| == 1 then lines[0]
    else lines[0] + "\n" + Join(lines[1..])
  }

  /** `s.lstrip()`: what is left after the leading whitespace. */
  function TrimLeft(s: string): (r: string)
    ensures |r| <= |s|
    ensures r == [] || !IsSpace(r[0])
    decreases |s|
  {
    if s != [] && IsSpace(s[0]) then TrimLeft(s[1..]) else s
  }

  /** `s.rstrip()`: what is left before the trailing whitespace. */
  function TrimRight(s: string): (r: string)
    ensures |r| <= |s|
    ensures r == [] || !IsSpace(r[|r| - 1])
    decreases |s|
  {
    if s != [] && IsSpace(s[|s| - 1]) then TrimRight(s[..|s| - 1]) else s
  }

  /** `lstrip` cuts off a whitespace-only prefix and nothing else. */
  lemma {:induction false} TrimLeftCuts(s: string)
    ensures TrimLeft(s) == s[|s| - |TrimLeft(s)|..]
    ensures AllSpace(s[..|s| - |TrimLeft(s)|])
    decreases |s|
  {
    if s != [] && IsSpace(s[0]) {
      TrimLeftCuts(s[1..]);
      var n := |s| - |TrimLeft(s)|;
      assert s[n..] == s[1..][n - 1..];
      forall k | 0 <= k < n ensures IsSpace(s[k]) {
        if k > 0 {
          assert s[k] == s[1..][..n - 1][k - 1];
        }
      }
    }
  }

  /** `rstrip` cuts off a whitespace-only suffix and nothing else. */
  lemma {:induction false} TrimRightCuts(s: string)
    ensures TrimRight(s) == s[..|TrimRight(s)|]
    ensures AllSpace(s[|TrimRight(s)|..])
    decreases |s|
  {
    if s != [] && IsSpace(s[|s| - 1]) {
      var t := s[..|s| - 1];
      TrimRightCuts(t);
      var n := |TrimRight(s)|;
      assert s[..n] == t[..n];
      forall k | n <= k < |s| ensures IsSpace(s[k]) {
        if k < |s| - 1 {
          assert s[k] == t[n..][k - n];
        }
      }
    }
  }

  /** `r` is what remains of `s` once a whitespace-only prefix of length `i`
      and a whitespace-only suffix are cut off. */
  predicate IsWindow(s: string, r: string, i: int)
  {
    0 <= i <= |s| - |r| && r == s[i..i + |r|] && AllSpace(s[..i]) && AllSpace(s[i + |r|..])
  }

  /** `s.strip()`: whitespace removed at both ends. */
  function Strip(s: string): (r: string)
    ensures |r| <= |s|
    ensures IsStripped(r)
  {
    var left := TrimLeft(s);
    TrimRightCuts(left);
    assert TrimRight(left) != [] ==> TrimRight(left)[0] == left[0];
    TrimRight(left)
  }

  /** `strip` leaves the contiguous part of `s` between a whitespace-only
      prefix and a whitespace-only suffix. */
  lemma StripWindow(s: string)
    ensures IsWindow(s, Strip(s), |s| - |TrimLeft(s)|)
  {
    var left := TrimLeft(s);
    var r := Strip(s);
    var i := |s| - |left|;
    TrimLeftCuts(s);
    TrimRightCuts(left);
    WindowOf(s, left, r, i);
  }

  lemma WindowOf(s: string, left: string, r: string, i: int)
    requires 0 <= i <= |s| && left == s[i..] && AllSpace(s[..i])
    requires |r| <= |left| && r == left[..|r|] && AllSpace(left[|r|..])
    ensures IsWindow(s, r, i)
  {
    assert s[i + |r|..] == left[|r|..];
    assert s[i..i + |r|] == left[..|r|];
  }

  /** `strip` gives the empty string exactly when `s` is all whitespace. */
  lemma StripEmpty(s: string)
    ensures Strip(s) == [] <==> AllSpace(s)
  {
    StripWindow(s);
    var i := |s| - |TrimLeft(s)|;
    if Strip(s) == [] {
      forall k | 0 <= k < |s| ensures IsSpace(s[k]) {
        if k >= i {
          assert s[k] == s[i..][k - i];
        } else {
          assert s[k] == s[..i][k];
        }
      }
    } else {
      assert Strip(s)[0] == s[i];
    }
  }

  function StripAll(lines: seq<string>): (r: seq<string>)
    ensures |r| == |lines|
    ensures forall i :: 0 <= i < |lines| ==> r[i] == Strip(lines[i])
  {
    if lines == [] then [] else [Strip(lines[0])] + StripAll(lines[1..])
  }

  function DropEmpty(lines: seq<string>): (r: seq<string>)
    ensures |r| <= |lines|
    ensures forall i :: 0 <= i < |r| ==> r[i] != []
  {
    if lines == [] then []
    else if lines[0] == [] then DropEmpty(lines[1..])
    else [lines[0]] + DropEmpty(lines[1..])
  }

  /** The positions of the non-empty lines of `lines`, in increasing order. */
  function KeptPositions(lines: seq<string>): seq<nat>
  {
    if lines == [] then []
    else
      var shifted := Shift(KeptPositions(lines[1..]));
      if lines[0] == [] then shifted else [0] + shifted
  }

  /** Every position moved one place to the right. */
  function Shift(idx: seq<nat>): (r: seq<nat>)
    ensures |r| == |idx|
    ensures forall k :: 0 <= k < |idx| ==> r[k] == idx[k] + 1
  {
    seq(|idx|, k requires 0 <= k < |idx| => idx[k] + 1)
  }

  /** `idx` lists, in increasing order, positions in `lines` whose lines are
      exactly `kept`, and it includes every non-empty line's position. */
  ghost predicate PositionsOf(idx: seq<nat>, lines: seq<string>, kept: seq<string>)
  {
    && |idx| == |kept|
    && (forall k :: 0 <= k < |idx| ==> idx[k] < |lines| && kept[k] == lines[idx[k]])
    && (forall k, m :: 0 <= k < m < |idx| ==> idx[k] < idx[m])
    && (forall j :: 0 <= j < |lines| && lines[j] != [] ==> j in idx)
  }

  /** The positions kept in the tail of `lines`, seen from `lines`. */
  lemma ShiftedPositions(lines: seq<string>, rest: seq<nat>)
    requires lines != []
    requires PositionsOf(rest, lines[1..], DropEmpty(lines[1..]))
    ensures var shifted := Shift(rest);
      && (forall k :: 0 <= k < |shifted| ==> 1 <= shifted[k] < |lines| && DropEmpty(lines[1..])[k] == lines[shifted[k]])
      && (forall k, m :: 0 <= k < m < |shifted| ==> shifted[k] < shifted[m])
      && (forall j :: 1 <= j < |lines| && lines[j] != [] ==> j in shifted)
  {
    var shifted := Shift(rest);
    forall j | 1 <= j < |lines| && lines[j] != [] ensures j in shifted {
      assert lines[1..][j - 1] == lines[j];
      var k :| 0 <= k < |rest| && rest[k] == j - 1;
      assert shifted[k] == j;
    }
  }

  /** DropEmpty keeps lines in their order, keeps every non-empty line, and
      invents none: its result is the lines at KeptPositions. */
  lemma {:induction false} DropEmptyKeepsOrder(lines: seq<string>)
    ensures PositionsOf(KeptPositions(lines), lines, DropEmpty(lines))
  {
    if lines != [] {
      DropEmptyKeepsOrder(lines[1..]);
      if lines[0] == [] {
        SkipEmptyPosition(lines, KeptPositions(lines[1..]));
      } else {
        KeepPosition(lines, KeptPositions(lines[1..]));
      }
    }
  }

  lemma SkipEmptyPosition(lines: seq<string>, rest: seq<nat>)
    requires lines != [] && lines[0] == []
    requires PositionsOf(rest, lines[1..], DropEmpty(lines[1..]))
    ensures PositionsOf(Shift(rest), lines, DropEmpty(lines))
  {
    ShiftedPositions(lines, rest);
  }

  lemma KeepPosition(lines: seq<string>, rest: seq<nat>)
    requires lines != [] && lines[0] != []
    requires PositionsOf(rest, lines[1..], DropEmpty(lines[1..]))
    ensures PositionsOf([0] + Shift(rest), lines, DropEmpty(lines))
  {
    ShiftedPositions(lines, rest);
    KeepPositionLines(lines, Shift(rest));
    KeepPositionOrder(Shift(rest));
    KeepPositionCover(lines, Shift(rest));
  }

  lemma KeepPositionLines(lines: seq<string>, shifted: seq<nat>)
    requires lines != [] && lines[0] != []
    requires |shifted| == |DropEmpty(lines[1..])|
    requires forall k :: 0 <= k < |shifted| ==> 1 <= shifted[k] < |lines| && DropEmpty(lines[1..])[k] == lines[shifted[k]]
    ensures |[0] + shifted| == |DropEmpty(lines)|
    ensures forall k :: 0 <= k < |[0] + shifted| ==>
      ([0] + shifted)[k] < |lines| && DropEmpty(lines)[k] == lines[([0] + shifted)[k]]
  {
    var idx := [0] + shifted;
    var kept := DropEmpty(lines);
    assert kept == [lines[0]] + DropEmpty(lines[1..]);
    forall k | 0 <= k < |idx| ensures idx[k] < |lines| && kept[k] == lines[idx[k]] {
      if k > 0 {
        assert idx[k] == shifted[k - 1];
        assert kept[k] == DropEmpty(lines[1..])[k - 1];
      }
    }
  }

  lemma KeepPositionOrder(shifted: seq<nat>)
    requires forall k :: 0 <= k < |shifted| ==> 1 <= shifted[k]
    requires forall k, m :: 0 <= k < m < |shifted| ==> shifted[k] < shifted[m]
    ensures forall k, m :: 0 <= k < m < |[0] + shifted| ==> ([0] + shifted)[k] < ([0] + shifted)[m]
  {
    var idx := [0] + shifted;
    forall k, m | 0 <= k < m < |idx| ensures idx[k] < idx[m] {
      assert idx[m] == shifted[m - 1];
      if k > 0 {
        assert idx[k] == shifted[k - 1];
      }
    }
  }

  lemma KeepPositionCover(lines: seq<string>, shifted: seq<nat>)
    requires lines != []
    requires forall j :: 1 <= j < |lines| && lines[j] != [] ==> j in shifted
    ensures forall j :: 0 <= j < |lines| && lines[j] != [] ==> j in [0] + shifted
  {
    var idx := [0] + shifted;
    forall j | 0 <= j < |lines| && lines[j] != [] ensures j in idx {
      if j > 0 {
        var t :| 0 <= t < |shifted| && shifted[t] == j;
        assert idx[t + 1] == j;
      }
    }
  }

  /** The lines of the normalised text: the stripped non-empty lines of
      `text`, in their original order. */
  function NormalizedLines(text: string): seq<string>
  {
    DropEmpty(StripAll(SplitLines(text)))
  }

  /** `extract_text_from` once the visible text of the page is known. */
  function Normalize(text: string): string
  {
    Join(NormalizedLines(text))
  }

  /** `extract_text_from(url)`, where `visibleText` stands for fetching the
      page and taking its parsed HTML's visible text. */
  function ExtractTextFrom(url: string, visibleText: string -> string): string
  {
    Normalize(visibleText(url))
  }

  lemma StripKeepsNoLineBreak(s: string)
    requires NoLineBreak(s)
    ensures NoLineBreak(Strip(s))
  {
    var r := Strip(s);
    var i := |s| - |TrimLeft(s)|;
    StripWindow(s);
    forall k | 0 <= k < |r| ensures !IsLineBreak(r[k]) {
      assert r[k] == s[i + k];
    }
  }

  /** Stripping a stripped string changes nothing. */
  lemma StripStripped(s: string)
    requires IsStripped(s)
    ensures Strip(s) == s
  {
    assert TrimLeft(s) == s;
    assert TrimRight(s) == s;
  }

  /** Every line of the normalised text is non-empty, has no whitespace at
      either end and holds no line break. */
  lemma {:induction false} CleanLinesFrom(lines: seq<string>)
    requires forall i :: 0 <= i < |lines| ==> NoLineBreak(lines[i])
    ensures AllClean(DropEmpty(StripAll(lines)))
  {
    if lines != [] {
      var head := Strip(lines[0]);
      var rest := DropEmpty(StripAll(lines[1..]));
      CleanLinesFrom(lines[1..]);
      StripKeepsNoLineBreak(lines[0]);
      StripAllCons(lines);
      DropEmptyCons(head, StripAll(lines[1..]));
      if head != [] {
        CleanCons(head, rest);
      }
    }
  }

  /** Every line is non-empty, stripped and free of line breaks. */
  predicate AllClean(lines: seq<string>)
  {
    forall i :: 0 <= i < |lines| ==> IsCleanLine(lines[i])
  }

  lemma CleanCons(x: string, rest: seq<string>)
    requires IsCleanLine(x) && AllClean(rest)
    ensures AllClean([x] + rest)
  {
    var all := [x] + rest;
    forall i | 0 <= i < |all| ensures IsCleanLine(all[i]) {
      if i > 0 {
        assert all[i] == rest[i - 1];
      }
    }
  }

  lemma StripAllCons(lines: seq<string>)
    requires lines != []
    ensures StripAll(lines) == [Strip(lines[0])] + StripAll(lines[1..])
  {
  }

  lemma DropEmptyCons(x: string, rest: seq<string>)
    ensures DropEmpty([x] + rest) == if x == [] then DropEmpty(rest) else [x] + DropEmpty(rest)
  {
    assert ([x] + rest)[1..] == rest;
  }

  lemma NormalizedLinesClean(text: string)
    ensures AllClean(NormalizedLines(text))
  {
    CleanLinesFrom(SplitLines(text));
  }

  /** Splitting a break-free prefix glued to `t` extends the first line of `t`. */
  lemma {:induction false} SplitLinesPrefix(a: string, t: string)
    requires NoLineBreak(a)
    ensures SplitLines(a + t) == [a + SplitLines(t)[0]] + SplitLines(t)[1..]
    decreases |a|
  {
    if a != [] {
      var rest := SplitLines(a[1..] + t);
      assert (a + t)[0] == a[0] && !IsLineBreak(a[0]);
      assert (a + t)[1..] == a[1..] + t;
      assert SplitLines(a + t) == [[a[0]] + rest[0]] + rest[1..];
      SplitLinesPrefix(a[1..], t);
      assert rest[0] == a[1..] + SplitLines(t)[0];
      assert rest[1..] == SplitLines(t)[1..];
      assert [a[0]] + (a[1..] + SplitLines(t)[0]) == a + SplitLines(t)[0];
    } else {
      assert a + t == t;
      assert a + SplitLines(t)[0] == SplitLines(t)[0];
    }
  }

  /** Joining break-free lines and splitting the result gives the lines back. */
  lemma {:induction false} SplitJoin(lines: seq<string>)
    requires lines != []
    requires forall i :: 0 <= i < |lines| ==> NoLineBreak(lines[i])
    ensures SplitLines(Join(lines)) == lines
  {
    if |lines| == 1 {
      SplitLinesPrefix(lines[0], []);
      assert lines[0] + [] == lines[0];
    } else {
      SplitJoin(lines[1..]);
      SplitJoinCons(lines[0], lines[1..]);
      assert lines == [lines[0]] + lines[1..];
    }
  }

  /** One more break-free line in front of a join that splits back. */
  lemma SplitJoinCons(x: string, rest: seq<string>)
    requires NoLineBreak(x) && |rest| >= 1
    requires SplitLines(Join(rest)) == rest
    ensures SplitLines(Join([x] + rest)) == [x] + rest
  {
    var t := "\n" + Join(rest);
    JoinCons(x, rest);
    SplitLinesPrefix(x, t);
    SplitAfterBreak(Join(rest));
    assert x + [] == x;
  }

  lemma JoinCons(x: string, rest: seq<string>)
    requires |rest| >= 1
    ensures Join([x] + rest) == x + ("\n" + Join(rest))
  {
    assert ([x] + rest)[1..] == rest;
    assert x + "\n" + Join(rest) == x + ("\n" + Join(rest));
  }

  /** A line break in front starts with an empty piece. */
  lemma SplitAfterBreak(u: string)
    ensures SplitLines("\n" + u) == [[]] + SplitLines(u)
  {
    assert ("\n" + u)[1..] == u;
  }

  lemma {:induction false} JoinEmpty(lines: seq<string>)
    requires forall i :: 0 <= i < |lines| ==> lines[i] != []
    ensures Join(lines) == [] <==> lines == []
  {
  }

  /** Splitting the normalised text at line breaks yields exactly the
      stripped non-empty input lines, in order; each of them is non-empty,
      has no whitespace at either end and holds no line break. The text is
      empty exactly when there is no such line. */
  lemma NormalizeLines(text: string)
    ensures Normalize(text) == [] <==> NormalizedLines(text) == []
    ensures Normalize(text) != [] ==> SplitLines(Normalize(text)) == NormalizedLines(text)
    ensures Normalize(text) != [] ==>
      AllClean(SplitLines(Normalize(text)))
  {
    var lines := NormalizedLines(text);
    NormalizedLinesClean(text);
    JoinEmpty(lines);
    if lines != [] {
      SplitJoin(lines);
    }
  }

  /** The lines of the normalised text are the stripped input lines that
      are non-empty, taken in their original order and all of them. */
  lemma NormalizeKeepsOrder(text: string)
    ensures var stripped := StripAll(SplitLines(text));
      Normalize(text) != [] ==> PositionsOf(KeptPositions(stripped), stripped, SplitLines(Normalize(text)))
  {
    NormalizeLines(text);
    DropEmptyKeepsOrder(StripAll(SplitLines(text)));
  }

  lemma {:induction false} StripAllClean(lines: seq<string>)
    requires AllClean(lines)
    ensures StripAll(lines) == lines
  {
    if lines != [] {
      StripStripped(lines[0]);
      StripAllClean(lines[1..]);
    }
  }

  lemma {:induction false} DropEmptyClean(lines: seq<string>)
    requires forall i :: 0 <= i < |lines| ==> lines[i] != []
    ensures DropEmpty(lines) == lines
  {
    if lines != [] {
      DropEmptyClean(lines[1..]);
    }
  }

  /** Normalising a join of clean lines gives the same text back. */
  lemma NormalizeJoinClean(lines: seq<string>)
    requires lines != []
    requires AllClean(lines)
    ensures Normalize(Join(lines)) == Join(lines)
  {
    SplitJoin(lines);
    StripAllClean(lines);
    DropEmptyClean(lines);
  }

  /** Normalising already normalised text changes nothing. */
  lemma NormalizeIdempotent(text: string)
    ensures Normalize(Normalize(text)) == Normalize(text)
  {
    var lines := NormalizedLines(text);
    NormalizedLinesClean(text);
    if lines == [] {
      assert Normalize(text) == [];
      assert SplitLines([]) == [[]];
      assert StripAll([[]]) == [[]];
      assert DropEmpty([[]]) == [];
    } else {
      NormalizeJoinClean(lines);
    }
  }

  /** Leading whitespace is dropped by stripping. */
  lemma {:induction false} TrimLeftSpaces(w: string, a: string)
    requires AllSpace(w)
    ensures TrimLeft(w + a) == TrimLeft(a)
    decreases |w|
  {
    if w == [] {
      assert w + a == a;
    } else {
      assert (w + a)[1..] == w[1..] + a;
      TrimLeftSpaces(w[1..], a);
    }
  }

  /** Trailing whitespace is dropped by stripping. */
  lemma {:induction false} TrimRightSpaces(a: string, w: string)
    requires AllSpace(w)
    ensures TrimRight(a + w) == TrimRight(a)
    decreases |w|
  {
    if w == [] {
      assert a + w == a;
    } else {
      assert (a + w)[..|a + w| - 1] == a + w[..|w| - 1];
      TrimRightSpaces(a, w[..|w| - 1]);
    }
  }

  /** A line padded with whitespace strips to the line itself. */
  lemma StripPadded(w1: string, a: string, w2: string)
    requires AllSpace(w1) && AllSpace(w2) && a != [] && IsStripped(a)
    ensures Strip(w1 + a + w2) == a
  {
    assert w1 + a + w2 == w1 + (a + w2);
    TrimLeftSpaces(w1, a + w2);
    assert TrimLeft(a + w2) == a + w2;
    TrimRightSpaces(a, w2);
    assert TrimRight(a) == a;
  }

  lemma JoinThree(first: string, last: string)
    ensures Join([first, [], last]) == first + "\n\n" + last
  {
    var lines := [first, [], last];
    assert Join(lines[2..]) == last;
    assert Join(lines[1..]) == [] + "\n" + last;
  }

  lemma DropMiddleEmpty(a: string, b: string)
    requires a != [] && b != []
    ensures DropEmpty([a, [], b]) == [a, b]
  {
    assert DropEmpty([b]) == [b] by {
      assert [b][1..] == [];
    }
    assert DropEmpty([[], b]) == [b] by {
      assert [[], b][1..] == [b];
    }
    assert [a, [], b][1..] == [[], b];
  }

  lemma StripThree(w1: string, a: string, w2: string, w3: string, b: string, w4: string)
    requires a != [] && IsStripped(a) && b != [] && IsStripped(b)
    requires AllSpace(w1) && AllSpace(w2) && AllSpace(w3) && AllSpace(w4)
    ensures DropEmpty(StripAll([w1 + a + w2, [], w3 + b + w4])) == [a, b]
  {
    StripAllThree(w1 + a + w2, [], w3 + b + w4);
    StripPadded(w1, a, w2);
    StripPadded(w3, b, w4);
    assert Strip([]) == [];
    DropMiddleEmpty(a, b);
  }

  lemma StripAllThree(x: string, y: string, z: string)
    ensures StripAll([x, y, z]) == [Strip(x), Strip(y), Strip(z)]
  {
    assert [x, y, z][1..] == [y, z];
    assert [y, z][1..] == [z];
    assert StripAll([z]) == [Strip(z)];
  }

  /** Two lines with whitespace around them and a blank line between:
      the blank line and the padding disappear. */
  lemma NormalizeTwoLines(w1: string, a: string, w2: string, w3: string, b: string, w4: string)
    requires IsCleanLine(a) && IsCleanLine(b)
    requires AllSpace(w1) && AllSpace(w2) && AllSpace(w3) && AllSpace(w4)
    requires NoLineBreak(w1 + a + w2) && NoLineBreak(w3 + b + w4)
    ensures Normalize(w1 + a + w2 + "\n\n" + w3 + b + w4) == a + "\n" + b
  {
    var first, last := w1 + a + w2, w3 + b + w4;
    var lines := [first, [], last];
    var text := w1 + a + w2 + "\n\n" + w3 + b + w4;
    JoinThree(first, last);
    assert Join(lines) == text;
    SplitJoin(lines);
    StripThree(w1, a, w2, w3, b, w4);
    assert NormalizedLines(text) == [a, b];
    assert Join([a, b]) == a + "\n" + b by {
      assert [a, b][1..] == [b];
    }
  }

  /** The "Hello World" page: blank lines disappear and the spaces around
      each line are removed. */
  lemma HelloWorld(text: string)
    requires text == "  Hello   \n\n  World  "
    ensures Normalize(text) == "Hello\nWorld"
  {
    HelloWorldPieces(text);
    NormalizeTwoLines("  ", "Hello", "   ", "  ", "World", "  ");
  }

  lemma HelloWorldPieces(text: string)
    requires text == "  Hello   \n\n  World  "
    ensures IsCleanLine("Hello") && IsCleanLine("World")
    ensures AllSpace("  ") && AllSpace("   ")
    ensures NoLineBreak("  " + "Hello" + "   ") && NoLineBreak("  " + "World" + "  ")
    ensures "  " + "Hello" + "   " + "\n\n" + "  " + "World" + "  " == text
    ensures "Hello" + "\n" + "World" == "Hello\nWorld"
  {
    CleanWord("Hello");
    CleanWord("World");
    PaddedWord("Hello", "   ");
    PaddedWord("World", "  ");
    HelloWorldText(text);
  }

  lemma HelloWorldText(text: string)
    requires text == "  Hello   \n\n  World  "
    ensures "  " + "Hello" + "   " + "\n\n" + "  " + "World" + "  " == text
    ensures "Hello" + "\n" + "World" == "Hello\nWorld"
  {
  }

  predicate IsLetter(c: char)
  {
    ('A' <= c <= 'Z') || ('a' <= c <= 'z')
  }

  /** A word of letters is a clean line. */
  lemma CleanWord(w: string)
    requires w != [] && forall k :: 0 <= k < |w| ==> IsLetter(w[k])
    ensures IsCleanLine(w)
  {
  }

  /** A word of letters between blanks has no line break. */
  lemma PaddedWord(w: string, pad: string)
    requires forall k :: 0 <= k < |w| ==> IsLetter(w[k])
    requires forall k :: 0 <= k < |pad| ==> pad[k] == ' '
    ensures NoLineBreak("  " + w + pad)
  {
    var line := "  " + w + pad;
    forall k | 0 <= k < |line| ensures !IsLineBreak(line[k]) {
      if k < 2 {
        assert line[k] == ' ';
      } else if k < 2 + |w| {
        assert line[k] == w[k - 2];
      } else {
        assert line[k] == pad[k - 2 - |w|];
      }
    }
  }
}
