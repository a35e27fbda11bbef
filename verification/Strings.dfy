/** Concatenation, joining, trimming and visible characters of strings. */
module Strings {
  import opened Unicode
  import opened Lists

  function Join(lines: seq<string>, separator: string): string {
    if lines == [] then []
    else if |lines| == 1 then lines[0]
    else lines[0] + separator + Join(lines[1..], separator)
  }

  predicate IsVisible(c: char) { !IsWhitespace(c) }

  /** The characters that are not whitespace, in order. */
  function Visible(text: string): string { Filter(IsVisible, text) }

  lemma {:induction false} VisibleConcat(a: string, b: string)
    ensures Visible(a + b) == Visible(a) + Visible(b)
  {
    if a == [] {
      assert a + b == b;
    } else {
      VisibleConcat(a[1..], b);
      assert (a + b)[1..] == a[1..] + b;
    }
  }

  predicate Blank(text: string) { forall i :: 0 <= i < |text| ==> IsWhitespace(text[i]) }

  lemma {:induction false} BlankIsInvisible(text: string)
    ensures Blank(text) <==> Visible(text) == []
  {
    if text != [] {
      BlankIsInvisible(text[1..]);
      assert text == [text[0]] + text[1..];
    }
  }

  function TrimStart(text: string): string {
    if text != [] && IsWhitespace(text[0]) then TrimStart(text[1..]) else text
  }

  function TrimEnd(text: string): string {
    if text != [] && IsWhitespace(text[|text| - 1]) then TrimEnd(text[..|text| - 1]) else text
  }

  function Trim(text: string): string { TrimEnd(TrimStart(text)) }

  lemma {:induction false} TrimStartStrips(text: string)
    ensures var part := TrimStart(text);
      && |part| <= |text| && part == text[|text| - |part|..] && Blank(text[..|text| - |part|])
      && (part != [] ==> IsVisible(part[0]))
  {
    if text != [] && IsWhitespace(text[0]) {
      TrimStartStrips(text[1..]);
      var n := |text| - |TrimStart(text)|;
      assert text[..n] == [text[0]] + text[1..][..n - 1];
    }
  }

  lemma {:induction false} TrimEndStrips(text: string)
    ensures var part := TrimEnd(text);
      && |part| <= |text| && part == text[..|part|] && Blank(text[|part|..])
      && (part != [] ==> IsVisible(part[|part| - 1]))
  {
    if text != [] && IsWhitespace(text[|text| - 1]) {
      var init := text[..|text| - 1];
      TrimEndStrips(init);
      var n := |TrimEnd(text)|;
      assert text[n..] == init[n..] + [text[|text| - 1]];
    }
  }

  /** Trimming keeps what is visible and leaves visible ends. */
  lemma TrimKeepsVisible(text: string)
    ensures var part := Trim(text);
      && Visible(part) == Visible(text)
      && (part == [] <==> Blank(text))
      && (part != [] ==> IsVisible(part[0]) && IsVisible(part[|part| - 1]))
    ensures exists a: nat, b: nat :: a <= b <= |text| && Trim(text) == text[a..b]
  {
    var start := TrimStart(text);
    var part := Trim(text);
    TrimStartStrips(text);
    TrimEndStrips(start);
    hide TrimStart, TrimEnd, Filter;
    var a := |text| - |start|;
    assert text == text[..a] + start && start == part + start[|part|..];
    VisibleConcat(text[..a], start);
    VisibleConcat(part, start[|part|..]);
    BlankIsInvisible(text[..a]);
    BlankIsInvisible(start[|part|..]);
    BlankIsInvisible(text);
    if part != [] {
      assert part[0] == start[0];
      BlankIsInvisible(part);
    }
    assert part == text[a..a + |part|];
  }

  lemma TrimsAway(text: string)
    ensures Trim(text) == [] <==> Blank(text)
  {
    TrimKeepsVisible(text);
  }

  lemma Parts(text: string, a: nat, b: nat, c: nat)
    requires a <= b <= c <= |text|
    ensures text[a..] == text[a..b] + text[b..c] + text[c..]
  {
  }

  /** Whitespace between two parts is invisible. */
  lemma VisibleAround(a: string, gap: string, b: string)
    requires Blank(gap)
    ensures Visible(a + gap + b) == Visible(a) + Visible(b)
  {
    BlankIsInvisible(gap);
    hide Visible;
    VisibleConcat(a + gap, b);
    VisibleConcat(a, gap);
  }

  /** Joining with whitespace keeps what is visible. */
  lemma {:induction false} JoinKeepsVisible(lines: seq<string>, separator: string)
    requires Blank(separator)
    ensures Visible(Join(lines, separator)) == Visible(Concat(lines))
  {
    hide Visible, Blank;
    if |lines| == 1 {
      ConcatOne(lines[0]);
      assert lines == [lines[0]];
    } else if |lines| > 1 {
      var first, rest := lines[0], lines[1..];
      JoinKeepsVisible(rest, separator);
      VisibleAround(first, separator, Join(rest, separator));
      VisibleConcat(first, Concat(rest));
    }
  }

  lemma Regroup(x: string, y: string, z: string, w: string)
    ensures x + y + (z + w) == x + (y + z + w)
  {
  }
}
