/** Splitting a page body into bounded retrieval chunks. */
module Chunk {
  import opened Unicode
  import opened Lists
  import opened Strings

  const MIN_CHUNK: nat := 400
  const MAX_CHUNK: nat := 1200

  // ----- lines ----------------------------------------------------------------------------------------

  predicate IsBreak(c: char) { c == '\n' || c == '\r' }

  function NextBreak(text: string, from: nat): (i: nat)
    requires from <= |text|
    ensures from <= i <= |text|
    ensures forall j :: from <= j < i ==> !IsBreak(text[j])
    ensures i < |text| ==> IsBreak(text[i])
    decreases |text| - from
  {
    if from == |text| || IsBreak(text[from]) then from else NextBreak(text, from + 1)
  }

  /** One past the line break at `i`, a carriage return and line feed being one break. */
  function AfterBreak(text: string, i: nat): (r: nat)
    requires i < |text|
    ensures i < r <= |text|
  {
    if text[i] == '\r' && i + 1 < |text| && text[i + 1] == '\n' then i + 2 else i + 1
  }

  /** The lines of `text[from..]`, without a last empty one. */
  function LinesFrom(text: string, from: nat): seq<string>
    requires from <= |text|
    decreases |text| - from
  {
    var end := NextBreak(text, from);
    if from == |text| then []
    else if end == |text| then [text[from..]]
    else [text[from..end]] + LinesFrom(text, AfterBreak(text, end))
  }

  lemma BreakEndsLine(text: string, from: nat, end: nat)
    requires from <= end < |text| && IsBreak(text[end]) && forall j :: from <= j < end ==> !IsBreak(text[j])
    ensures LinesFrom(text, from) == [text[from..end]] + LinesFrom(text, AfterBreak(text, end))
  {
    assert NextBreak(text, from) == end;
  }

  lemma LastLine(text: string, from: nat)
    requires from <= |text| && forall j :: from <= j < |text| ==> !IsBreak(text[j])
    ensures LinesFrom(text, from) == if from == |text| then [] else [text[from..]]
  {
    assert NextBreak(text, from) == |text|;
  }

  /** `logical_lines`. */
  method LogicalLines(text: string) returns (lines: seq<string>)
    ensures lines == LinesFrom(text, 0)
  {
    hide LinesFrom, NextBreak, IsBreak;
    lines := [];
    var start, index := 0, 0;
    while index < |text|
      invariant start <= index <= |text|
      invariant forall j :: start <= j < index ==> !IsBreak(text[j])
      invariant lines + LinesFrom(text, start) == LinesFrom(text, 0)
    {
      var offset := index;
      index := index + 1;
      if IsBreak(text[offset]) {
        BreakEndsLine(text, start, offset);
        lines := lines + [text[start..offset]];
        if text[offset] == '\r' && index < |text| && text[index] == '\n' {
          index := index + 1;
        }
        start := index;
      }
    }
    LastLine(text, start);
    if start < |text| {
      lines := lines + [text[start..]];
    }
  }

  lemma {:induction false} LinesKeepVisible(text: string, from: nat)
    requires from <= |text|
    ensures Visible(Concat(LinesFrom(text, from))) == Visible(text[from..])
    decreases |text| - from
  {
    var end := NextBreak(text, from);
    hide Visible, LinesFrom, NextBreak;
    if end == |text| {
      LastLine(text, from);
      ConcatOne(text[from..]);
      assert from == |text| ==> text[from..] == Concat([]);
    } else {
      var next := AfterBreak(text, end);
      LinesKeepVisible(text, next);
      BreakEndsLine(text, from, end);
      var line, gap, rest := text[from..end], text[end..next], Concat(LinesFrom(text, next));
      ConcatAppend([line], LinesFrom(text, next));
      ConcatOne(line);
      assert Blank(gap);
      hide Concat, Blank;
      Parts(text, from, end, next);
      VisibleAround(line, gap, text[next..]);
      VisibleConcat(line, rest);
    }
  }

  lemma {:induction false} LinesHaveNoBreak(text: string, from: nat)
    requires from <= |text|
    ensures forall i :: 0 <= i < |LinesFrom(text, from)| ==> '\n' !in LinesFrom(text, from)[i]
    decreases |text| - from
  {
    var end := NextBreak(text, from);
    hide LinesFrom, NextBreak;
    if end == |text| {
      LastLine(text, from);
    } else {
      BreakEndsLine(text, from, end);
      LinesHaveNoBreak(text, AfterBreak(text, end));
    }
  }

  /** The lines tile `text[from..]`: contents without breaks, each followed by one whole break (a carriage
      return with line feed, a carriage return or a line feed), except that the last may end the text. */
  predicate TilesLines(text: string, from: nat, lines: seq<string>)
    requires from <= |text|
    decreases |lines|
  {
    if lines == [] then from == |text|
    else
      var end := from + |lines[0]|;
      && end <= |text| && text[from..end] == lines[0] && '\n' !in lines[0] && '\r' !in lines[0]
      && if end == |text| then from < end && |lines| == 1
         else if text[end] == '\r' && end + 1 < |text| && text[end + 1] == '\n' then
           TilesLines(text, end + 2, lines[1..])
         else (text[end] == '\r' || text[end] == '\n') && TilesLines(text, end + 1, lines[1..])
  }

  /** There is exactly one such tiling, and the lines are it. */
  lemma {:induction false} LinesAreTheTiling(text: string, from: nat, lines: seq<string>)
    requires from <= |text|
    ensures TilesLines(text, from, lines) <==> lines == LinesFrom(text, from)
    decreases |text| - from
  {
    var end := NextBreak(text, from);
    hide LinesFrom, NextBreak, TilesLines;
    if end == |text| {
      LastLine(text, from);
      TilesLast(text, from, lines);
    } else {
      BreakEndsLine(text, from, end);
      TilesBreak(text, from, end, lines);
      if lines != [] {
        LinesAreTheTiling(text, AfterBreak(text, end), lines[1..]);
        assert lines == [lines[0]] + lines[1..];
      }
    }
  }

  lemma TilesLast(text: string, from: nat, lines: seq<string>)
    requires from <= |text| && forall j :: from <= j < |text| ==> !IsBreak(text[j])
    ensures TilesLines(text, from, lines) <==> lines == if from == |text| then [] else [text[from..]]
  {
    if TilesLines(text, from, lines) && lines != [] {
      SameLine(text, from, |text|, lines[0]);
      assert text[from..|text|] == text[from..];
    }
    assert text[from..|text|] == text[from..];
  }

  lemma TilesBreak(text: string, from: nat, end: nat, lines: seq<string>)
    requires from <= end < |text| && IsBreak(text[end]) && forall j :: from <= j < end ==> !IsBreak(text[j])
    ensures TilesLines(text, from, lines) <==>
      lines != [] && lines[0] == text[from..end] && TilesLines(text, AfterBreak(text, end), lines[1..])
  {
    if TilesLines(text, from, lines) && lines != [] {
      SameLine(text, from, end, lines[0]);
    }
    assert '\n' !in text[from..end] && '\r' !in text[from..end];
  }

  /** A line without breaks that ends at a break or the end of the text ends at the first one. */
  lemma SameLine(text: string, from: nat, end: nat, line: string)
    requires from <= end <= |text| && forall j :: from <= j < end ==> !IsBreak(text[j])
    requires end < |text| ==> IsBreak(text[end])
    requires from + |line| <= |text| && text[from..from + |line|] == line && '\n' !in line && '\r' !in line
    requires from + |line| == |text| || IsBreak(text[from + |line|])
    ensures from + |line| == end
  {
    var stop := from + |line|;
    forall j | from <= j < stop ensures !IsBreak(text[j]) {
      assert text[j] == line[j - from] && line[j - from] in line;
    }
  }

  // ----- paragraphs -------------------------------------------------------------------------------------

  /** The paragraph of consecutive lines: joined and trimmed. */
  function Flushed(lines: seq<string>): seq<string> {
    if lines == [] then [] else [Trim(Join(lines, "\n"))]
  }

  /** The paragraphs that `lines` complete, after `pending` lines of the current one. */
  function Grouped(lines: seq<string>, pending: seq<string>): seq<string>
    decreases |lines|
  {
    if lines == [] then Flushed(pending)
    else if Blank(lines[0]) then Flushed(pending) + Grouped(lines[1..], [])
    else Grouped(lines[1..], pending + [lines[0]])
  }

  function Paragraphs(text: string): seq<string> { Grouped(LinesFrom(text, 0), []) }

  /** A line of a paragraph. */
  predicate Solid(line: string) { !Blank(line) && '\n' !in line }

  predicate AllSolid(lines: seq<string>) { forall i :: 0 <= i < |lines| ==> Solid(lines[i]) }

  /** `push_paragraph`: a paragraph of solid lines is never empty. */
  method PushParagraph(before: seq<string>, lines: seq<string>) returns (paragraphs: seq<string>)
    requires AllSolid(lines)
    ensures paragraphs == before + Flushed(lines)
  {
    paragraphs := before;
    if lines == [] {
      return;
    }
    var paragraph := Join(lines, "\n");
    var trimmed := Trim(paragraph);
    JoinOfSolid(lines);
    TrimKeepsVisible(paragraph);
    if trimmed != [] {
      paragraphs := paragraphs + [trimmed];
    } else {
      assert false;
    }
  }

  lemma NextGrouped(all: seq<string>, i: nat, pending: seq<string>)
    requires i < |all|
    ensures Grouped(all[i..], pending) ==
      if Blank(all[i]) then Flushed(pending) + Grouped(all[i + 1..], []) else Grouped(all[i + 1..], pending + [all[i]])
  {
    assert all[i..][1..] == all[i + 1..];
  }

  lemma Associates(a: seq<string>, b: seq<string>, c: seq<string>)
    ensures a + (b + c) == (a + b) + c
  {
  }

  lemma NoneSolid()
    ensures AllSolid([])
  {
  }

  lemma OneMoreSolid(lines: seq<string>, line: string)
    requires AllSolid(lines) && !Blank(line) && '\n' !in line
    ensures AllSolid(lines + [line])
  {
  }

  lemma NothingGrouped(all: seq<string>, pending: seq<string>)
    ensures Grouped(all[|all|..], pending) == Flushed(pending)
  {
  }

  /** `paragraphs`. */
  method SplitParagraphs(text: string) returns (paragraphs: seq<string>)
    ensures paragraphs == Paragraphs(text)
  {
    var all := LogicalLines(text);
    LinesHaveNoBreak(text, 0);
    hide Trim, Join, LinesFrom, Flushed, Visible, Blank, AllSolid, Grouped;
    paragraphs := [];
    var lines: seq<string> := [];
    NoneSolid();
    assert all[0..] == all;
    for i := 0 to |all|
      invariant AllSolid(lines)
      invariant paragraphs + Grouped(all[i..], lines) == Grouped(all, [])
    {
      TrimsAway(all[i]);
      NextGrouped(all, i, lines);
      if Trim(all[i]) == [] {
        Associates(paragraphs, Flushed(lines), Grouped(all[i + 1..], []));
        paragraphs := PushParagraph(paragraphs, lines);
        lines := [];
      } else {
        OneMoreSolid(lines, all[i]);
        lines := lines + [all[i]];
      }
    }
    NothingGrouped(all, lines);
    paragraphs := PushParagraph(paragraphs, lines);
  }

  /** A blank line ends the paragraph of the lines before it. */
  lemma {:induction false} BlankEndsParagraph(block: seq<string>, blank: string, rest: seq<string>,
      pending: seq<string>)
    requires Blank(blank) && forall i :: 0 <= i < |block| ==> !Blank(block[i])
    ensures Grouped(block + [blank] + rest, pending) == Flushed(pending + block) + Grouped(rest, [])
    decreases |block|
  {
    hide Blank, Flushed;
    var all := block + [blank] + rest;
    if block == [] {
      assert all[1..] == rest && pending + block == pending;
    } else {
      assert all[1..] == block[1..] + [blank] + rest;
      assert pending + [block[0]] + block[1..] == pending + block;
      BlankEndsParagraph(block[1..], blank, rest, pending + [block[0]]);
    }
  }

  /** No line of the text is empty. */
  predicate NoEmptyLine(p: string) {
    && p != [] && p[0] != '\n' && p[|p| - 1] != '\n'
    && forall i :: 0 < i < |p| && p[i] == '\n' ==> p[i - 1] != '\n'
  }

  lemma {:induction false} JoinOfSolid(lines: seq<string>)
    requires AllSolid(lines) && lines != []
    ensures NoEmptyLine(Join(lines, "\n")) && !Blank(Join(lines, "\n"))
  {
    var first := lines[0];
    assert Solid(first);
    SolidLine(first);
    hide NoEmptyLine, Blank;
    if |lines| > 1 {
      var rest := Join(lines[1..], "\n");
      JoinOfSolid(lines[1..]);
      assert Join(lines, "\n") == first + "\n" + rest;
      hide Join;
      SeparatedByOne(first, rest);
      StaysVisible(first, "\n" + rest);
      assert first + ("\n" + rest) == first + "\n" + rest;
    }
  }

  lemma SolidLine(line: string)
    requires Solid(line)
    ensures line != [] && NoEmptyLine(line) && forall i :: 0 <= i < |line| ==> line[i] != '\n'
  {
    assert forall i :: 0 <= i < |line| ==> line[i] in line;
  }

  lemma StaysVisible(first: string, rest: string)
    requires !Blank(first)
    ensures !Blank(first + rest)
  {
    var i :| 0 <= i < |first| && !IsWhitespace(first[i]);
    var whole := first + rest;
    assert whole[i] == first[i];
    assert !IsWhitespace(whole[i]);
  }

  lemma SeparatedByOne(first: string, rest: string)
    requires first != [] && (forall i :: 0 <= i < |first| ==> first[i] != '\n') && NoEmptyLine(rest)
    ensures NoEmptyLine(first + "\n" + rest)
  {
    var joined := first + "\n" + rest;
    forall i | 0 < i < |joined| && joined[i] == '\n' ensures joined[i - 1] != '\n' {
      if i > |first| {
        assert joined[i] == rest[i - |first| - 1];
        assert i > |first| + 1;
        assert joined[i - 1] == rest[i - |first| - 2];
      } else {
        assert i == |first| && joined[i - 1] == first[i - 1];
      }
    }
    assert joined[|joined| - 1] == rest[|rest| - 1];
  }

  /** Visible at both ends, with no empty line between. */
  predicate TidyParagraph(p: string) { NoEmptyLine(p) && IsVisible(p[0]) && IsVisible(p[|p| - 1]) }

  lemma FlushedIsTidy(lines: seq<string>)
    requires AllSolid(lines) && lines != []
    ensures TidyParagraph(Trim(Join(lines, "\n"))) && Visible(Trim(Join(lines, "\n"))) == Visible(Concat(lines))
  {
    JoinOfSolid(lines);
    JoinKeepsVisible(lines, "\n");
    TrimKeepsVisible(Join(lines, "\n"));
  }

  /** The lines of a paragraph, without the whitespace before the first and after the last. */
  function Edged(lines: seq<string>): seq<string>
    requires lines != []
  {
    if |lines| == 1 then [Trim(lines[0])]
    else [TrimStart(lines[0])] + lines[1..|lines| - 1] + [TrimEnd(lines[|lines| - 1])]
  }

  /** A paragraph is its lines, separated by single line feeds, without whitespace at the ends. */
  lemma ParagraphIsItsLines(lines: seq<string>)
    requires AllSolid(lines) && lines != []
    ensures Flushed(lines) == [Join(Edged(lines), "\n")]
  {
    if |lines| > 1 {
      var n := |lines| - 1;
      var first, last, middle := lines[0], lines[n], lines[1..n];
      assert lines == [first] + middle + [last];
      assert Solid(first) && Solid(last);
      JoinEnds(first, middle, last);
      JoinEnds(TrimStart(first), middle, TrimEnd(last));
      TrimAround(first, Between(middle), last);
    }
  }

  /** What stands between the first and the last line. */
  function Between(middle: seq<string>): string {
    if middle == [] then "\n" else "\n" + Join(middle, "\n") + "\n"
  }

  lemma JoinEnds(first: string, middle: seq<string>, last: string)
    ensures Join([first] + middle + [last], "\n") == first + Between(middle) + last
  {
    var rest := middle + [last];
    assert [first] + middle + [last] == [first] + rest && ([first] + rest)[1..] == rest;
    assert Join([first] + rest, "\n") == first + "\n" + Join(rest, "\n");
    if middle == [] {
      assert rest == [last];
    } else {
      JoinAppend(middle, last, "\n");
      Rebracket(first, Join(middle, "\n"), last);
    }
  }

  lemma Rebracket(first: string, inner: string, last: string)
    ensures first + "\n" + (inner + "\n" + last) == first + ("\n" + inner + "\n") + last
  {
  }

  lemma TrimAround(first: string, gap: string, last: string)
    requires !Blank(first) && !Blank(last)
    ensures Trim(first + gap + last) == TrimStart(first) + gap + TrimEnd(last)
  {
    hide TrimStart, TrimEnd, Blank;
    assert first + gap + last == first + (gap + last);
    TrimStartOf(first, gap + last);
    var start := TrimStart(first) + gap;
    assert TrimStart(first) + (gap + last) == start + last;
    TrimEndOf(start, last);
  }

  lemma {:induction false} TrimStartOf(first: string, rest: string)
    requires !Blank(first)
    ensures TrimStart(first + rest) == TrimStart(first) + rest
  {
    if IsWhitespace(first[0]) {
      assert (first + rest)[1..] == first[1..] + rest;
      assert first == [first[0]] + first[1..];
      TrimStartOf(first[1..], rest);
    }
  }

  lemma {:induction false} TrimEndOf(rest: string, last: string)
    requires !Blank(last)
    ensures TrimEnd(rest + last) == rest + TrimEnd(last)
  {
    var n := |last| - 1;
    var all := rest + last;
    assert all[|all| - 1] == last[n] && all[..|all| - 1] == rest + last[..n];
    if IsWhitespace(last[n]) {
      assert last == last[..n] + [last[n]];
      TrimEndOf(rest, last[..n]);
    }
  }

  /** Grouping keeps what is visible, and every paragraph is tidy. */
  lemma {:induction false} GroupedKeepsVisible(lines: seq<string>, pending: seq<string>)
    requires AllSolid(pending) && forall i :: 0 <= i < |lines| ==> '\n' !in lines[i]
    ensures Visible(Concat(Grouped(lines, pending))) == Visible(Concat(pending) + Concat(lines))
    ensures forall i :: 0 <= i < |Grouped(lines, pending)| ==> TidyParagraph(Grouped(lines, pending)[i])
    decreases |lines|
  {
    hide Visible, TidyParagraph, Trim, Join;
    if lines == [] {
      FlushedKeepsVisible(pending);
      assert Concat(pending) + [] == Concat(pending);
    } else {
      var first, rest := lines[0], lines[1..];
      var c, p := Concat(rest), Concat(pending);
      assert Concat(lines) == first + c;
      VisibleConcat(p, first + c);
      VisibleConcat(first, c);
      if Blank(first) {
        GroupedKeepsVisible(rest, []);
        FlushedKeepsVisible(pending);
        ConcatAppend(Flushed(pending), Grouped(rest, []));
        VisibleConcat(Concat(Flushed(pending)), Concat(Grouped(rest, [])));
        BlankIsInvisible(first);
        assert Concat([]) + c == c;
      } else {
        assert Solid(first);
        GroupedKeepsVisible(rest, pending + [first]);
        ConcatAppend(pending, [first]);
        ConcatOne(first);
        VisibleConcat(p + first, c);
        VisibleConcat(p, first);
      }
    }
  }

  lemma FlushedKeepsVisible(pending: seq<string>)
    requires AllSolid(pending)
    ensures Visible(Concat(Flushed(pending))) == Visible(Concat(pending))
    ensures forall i :: 0 <= i < |Flushed(pending)| ==> TidyParagraph(Flushed(pending)[i])
  {
    if pending != [] {
      FlushedIsTidy(pending);
      ConcatOne(Trim(Join(pending, "\n")));
    }
  }

  // ----- hard wrapping ------------------------------------------------------------------------------------

  /** Parts of `MAX_CHUNK` characters, the last one possibly shorter. */
  function Wrapped(line: string, from: nat): (r: seq<string>)
    requires from <= |line|
    ensures r != []
    decreases |line| - from
  {
    if |line| - from <= MAX_CHUNK then [line[from..]]
    else [line[from..from + MAX_CHUNK]] + Wrapped(line, from + MAX_CHUNK)
  }

  /** `for_each_hard_wrap`: the parts in the order they are visited. */
  method HardWrap(line: string) returns (parts: seq<string>)
    ensures parts == Wrapped(line, 0)
  {
    if |line| <= MAX_CHUNK {
      return [line];
    }
    parts := [];
    var start := 0;
    for index := 0 to |line|
      invariant start % MAX_CHUNK == 0 && start <= index <= |line| && index - start <= MAX_CHUNK
      invariant index == 0 || start < index
      invariant parts + Wrapped(line, start) == Wrapped(line, 0)
    {
      if index - start == MAX_CHUNK {
        MultipleHere(start, index);
      }
      if index > 0 && index % MAX_CHUNK == 0 {
        MultipleReached(start, index);
        parts := parts + [line[start..index]];
        start := index;
      }
    }
    parts := parts + [line[start..]];
  }

  lemma MultipleReached(start: nat, index: nat)
    requires start % MAX_CHUNK == 0 && index % MAX_CHUNK == 0 && start < index <= start + MAX_CHUNK
    ensures index == start + MAX_CHUNK
  {
  }

  lemma MultipleHere(start: nat, index: nat)
    requires start % MAX_CHUNK == 0 && index == start + MAX_CHUNK
    ensures index % MAX_CHUNK == 0
  {
  }

  lemma {:induction false} WrappedRebuilds(line: string, from: nat)
    requires from <= |line|
    ensures Concat(Wrapped(line, from)) == line[from..]
    ensures from < |line| ==> forall i :: 0 <= i < |Wrapped(line, from)| ==> 0 < |Wrapped(line, from)[i]| <= MAX_CHUNK
    ensures forall i :: 0 <= i < |Wrapped(line, from)| - 1 ==> |Wrapped(line, from)[i]| == 1200
    decreases |line| - from
  {
    if |line| - from <= MAX_CHUNK {
      ConcatOne(line[from..]);
    } else {
      var next := from + MAX_CHUNK;
      var first, rest := line[from..next], Wrapped(line, next);
      assert Wrapped(line, from) == [first] + rest;
      hide Concat, Wrapped;
      WrappedRebuilds(line, next);
      ConcatAppend([first], rest);
      ConcatOne(first);
      assert line[from..] == first + line[next..];
    }
  }

  // ----- filling chunks --------------------------------------------------------------------------------------

  /** The finished chunks and the text of the one being filled. */
  datatype Filling = Filling(chunks: seq<string>, pending: string)

  /** A full or long enough pending text becomes a chunk. */
  function Settled(f: Filling): Filling {
    if |f.pending| >= MIN_CHUNK then Filling(f.chunks + [f.pending], []) else f
  }

  /** Add a piece, cutting it wherever a chunk reaches `MAX_CHUNK` characters. */
  function Add(f: Filling, piece: string): Filling
    requires |f.pending| < MIN_CHUNK
    decreases |piece|
  {
    var room := MAX_CHUNK - |f.pending|;
    if |piece| <= room then Settled(Filling(f.chunks, f.pending + piece))
    else Add(Filling(f.chunks + [f.pending + piece[..room]], []), piece[room..])
  }

  /** Every finished chunk has 400 to 1200 characters and the pending text fewer than 400. */
  predicate Sized(f: Filling) {
    && (forall i :: 0 <= i < |f.chunks| ==> MIN_CHUNK <= |f.chunks[i]| <= MAX_CHUNK)
    && |f.pending| < MIN_CHUNK
  }

  function Held(f: Filling): string { Concat(f.chunks) + f.pending }

  lemma HeldMoves(chunks: seq<string>, text: string, rest: string)
    ensures Held(Filling(chunks + [text], rest)) == Held(Filling(chunks, text + rest))
  {
    ConcatAppend(chunks, [text]);
    ConcatOne(text);
    assert Concat(chunks) + text + rest == Concat(chunks) + (text + rest);
  }

  /** A piece that fits is never cut: it stays pending below 400 characters and closes the chunk from
      there on. A piece that does not fit is cut where the chunk has exactly 1200. */
  lemma AddExactly(f: Filling, piece: string)
    requires Sized(f)
    ensures var text := f.pending + piece;
      Add(f, piece) ==
        if |text| < 400 then Filling(f.chunks, text)
        else if |text| <= 1200 then Filling(f.chunks + [text], "")
        else Add(Filling(f.chunks + [text[..1200]], ""), text[1200..])
  {
    AddStep(f, piece);
    hide Add;
    var room := MAX_CHUNK - |f.pending|;
    if |piece| > room {
      CutAt(f.pending, piece, room);
    }
  }

  lemma AddStep(f: Filling, piece: string)
    requires |f.pending| < MIN_CHUNK
    ensures var room := MAX_CHUNK - |f.pending|;
      Add(f, piece) ==
        if |piece| <= room then Settled(Filling(f.chunks, f.pending + piece))
        else Add(Filling(f.chunks + [f.pending + piece[..room]], []), piece[room..])
  {
  }

  lemma CutAt(pending: string, piece: string, room: nat)
    requires room <= |piece|
    ensures (pending + piece)[..|pending| + room] == pending + piece[..room]
    ensures (pending + piece)[|pending| + room..] == piece[room..]
  {
  }

  /** Adding a piece keeps the sizes and appends exactly the piece. */
  lemma {:induction false} AddAppends(f: Filling, piece: string)
    requires Sized(f)
    ensures Sized(Add(f, piece)) && Held(Add(f, piece)) == Held(f) + piece
    decreases |piece|
  {
    var room := MAX_CHUNK - |f.pending|;
    if |piece| <= room {
      var text := f.pending + piece;
      HeldMoves(f.chunks, text, []);
      assert text + [] == text;
      assert Concat(f.chunks) + text == Held(f) + piece;
    } else {
      var prefix, suffix := piece[..room], piece[room..];
      var text := f.pending + prefix;
      var next := Filling(f.chunks + [text], []);
      AddAppends(next, suffix);
      HeldMoves(f.chunks, text, []);
      assert text + [] == text;
      assert piece == prefix + suffix;
      assert Held(f) + piece == Concat(f.chunks) + text + suffix;
    }
  }

  datatype Boundary = NoBoundary | Line | Paragraph

  function BoundaryText(b: Boundary): string {
    match b case NoBoundary => "" case Line => "\n" case Paragraph => "\n\n"
  }

  /** One pass of the loop: as much of the text as fits behind its separator. */
  lemma OnePassAdds(f: Filling, separator: string, remaining: string, taken: nat)
    requires |f.pending| < MIN_CHUNK && |separator| <= 2 && taken <= |remaining|
    requires taken == Min(|remaining|, MAX_CHUNK - |f.pending| - |separator|)
    ensures var next := Settled(Filling(f.chunks, f.pending + separator + remaining[..taken]));
      && |next.pending| < MIN_CHUNK
      && Add(f, separator + remaining) == if taken == |remaining| then next else Add(next, remaining[taken..])
  {
    var piece, room := separator + remaining, MAX_CHUNK - |f.pending|;
    if taken == |remaining| {
      assert remaining[..taken] == remaining;
      assert f.pending + separator + remaining == f.pending + piece;
    } else {
      assert piece[..room] == separator + remaining[..taken] && piece[room..] == remaining[taken..];
      assert f.pending + separator + remaining[..taken] == f.pending + piece[..room];
    }
  }

  /** `append_piece`. A pending text always has room for a boundary, so the flush that makes room
      for one is never taken, and every pass consumes text. */
  method AppendPiece(before: Filling, boundary: Boundary, text: string) returns (f: Filling)
    requires Sized(before)
    ensures f == if text == [] then before else Add(before, BoundaryText(boundary) + text)
  {
    hide Add;
    var chunks, pending := before.chunks, before.pending;
    var separator := BoundaryText(boundary);
    var remaining := text;
    ghost var whole := Add(before, separator + text);
    while remaining != []
      invariant |separator| <= 2 && |pending| < MIN_CHUNK
      invariant text == [] ==> remaining == [] && before == Filling(chunks, pending)
      invariant text != [] && remaining == [] ==> whole == Filling(chunks, pending)
      invariant text != [] && remaining != [] ==> whole == Add(Filling(chunks, pending), separator + remaining)
      decreases |remaining|
    {
      var available := MAX_CHUNK - |pending|;
      if |separator| > available {
        assert false;
      }
      var room := available - |separator|;
      var taken := if |remaining| <= room then |remaining| else room;
      OnePassAdds(Filling(chunks, pending), separator, remaining, taken);
      pending := pending + separator;
      separator := "";
      pending := pending + remaining[..taken];
      remaining := remaining[taken..];
      assert separator + remaining == remaining;
      if |pending| >= MIN_CHUNK {
        chunks, pending := chunks + [pending], "";
      }
    }
    f := Filling(chunks, pending);
  }

  // ----- the chunker -------------------------------------------------------------------------------------------

  /** `split('\n')`. */
  function Split(p: string): (r: seq<string>)
    ensures r != []
  {
    if p == [] then [[]]
    else
      var rest := Split(p[1..]);
      if p[0] == '\n' then [[]] + rest else [[p[0]] + rest[0]] + rest[1..]
  }

  lemma {:induction false} SplitRejoins(p: string)
    ensures Join(Split(p), "\n") == p
  {
    if p != [] {
      var rest := Split(p[1..]);
      SplitRejoins(p[1..]);
      assert p == [p[0]] + p[1..];
      if p[0] == '\n' {
        assert ([[]] + rest)[1..] == rest;
      } else {
        var longer := Split(p);
        assert longer == [[p[0]] + rest[0]] + rest[1..];
        hide Split;
        JoinLonger(p[0], rest);
      }
    }
  }

  lemma JoinLonger(c: char, lines: seq<string>)
    requires lines != []
    ensures Join([[c] + lines[0]] + lines[1..], "\n") == [c] + Join(lines, "\n")
  {
    var longer := [[c] + lines[0]] + lines[1..];
    assert longer[1..] == lines[1..];
    if |lines| > 1 {
      var rest := Join(lines[1..], "\n");
      assert [c] + (lines[0] + "\n" + rest) == ([c] + lines[0]) + "\n" + rest;
    }
  }

  lemma {:induction false} SplitIsSolid(p: string)
    requires p == [] || p[|p| - 1] != '\n'
    requires forall i :: 0 < i < |p| && p[i] == '\n' ==> p[i - 1] != '\n'
    ensures forall i :: 1 <= i < |Split(p)| ==> Split(p)[i] != []
    ensures (p != [] && p[0] != '\n') ==> Split(p)[0] != []
  {
    if p != [] {
      SplitIsSolid(p[1..]);
      if p[0] == '\n' {
        assert p[1..] != [] && p[1] != '\n';
        assert Split(p) == [[]] + Split(p[1..]);
      }
    }
  }

  function BoundaryOf(paragraph: nat, line: nat): Boundary {
    if line > 0 then Line else if paragraph > 0 then Paragraph else NoBoundary
  }

  function WithBoundary(boundary: Boundary, parts: seq<string>): (r: seq<string>)
    requires parts != []
    ensures |r| == |parts| && r[0] == BoundaryText(boundary) + parts[0]
    ensures forall i :: 0 < i < |r| ==> r[i] == parts[i]
  {
    [BoundaryText(boundary) + parts[0]] + parts[1..]
  }

  /** The pieces of the first `n` lines of a paragraph. */
  function LinePieces(paragraph: nat, lines: seq<string>, n: nat): seq<string>
    requires n <= |lines|
  {
    if n == 0 then []
    else LinePieces(paragraph, lines, n - 1) + WithBoundary(BoundaryOf(paragraph, n - 1), Wrapped(lines[n - 1], 0))
  }

  /** The pieces of the first `n` paragraphs. */
  function Pieces(paragraphs: seq<string>, n: nat): seq<string>
    requires n <= |paragraphs|
  {
    if n == 0 then []
    else
      var lines := Split(paragraphs[n - 1]);
      Pieces(paragraphs, n - 1) + LinePieces(n - 1, lines, |lines|)
  }

  function AddAll(f: Filling, pieces: seq<string>): (r: Filling)
    requires Sized(f)
    ensures Sized(r)
  {
    if pieces == [] then f
    else
      var before := AddAll(f, pieces[..|pieces| - 1]);
      AddAppends(before, pieces[|pieces| - 1]);
      Add(before, pieces[|pieces| - 1])
  }

  lemma {:induction false} AddAllAppend(f: Filling, a: seq<string>, b: seq<string>)
    requires Sized(f)
    ensures AddAll(f, a + b) == AddAll(AddAll(f, a), b)
  {
    if b == [] {
      assert a + b == a;
    } else {
      var init := b[..|b| - 1];
      AddAllAppend(f, a, init);
      assert (a + b)[..|a + b| - 1] == a + init;
    }
  }

  /** Adding pieces appends their text. */
  lemma {:induction false} AddAllAppends(f: Filling, pieces: seq<string>)
    requires Sized(f)
    ensures Held(AddAll(f, pieces)) == Held(f) + Concat(pieces)
  {
    if pieces != [] {
      var init, last := pieces[..|pieces| - 1], pieces[|pieces| - 1];
      AddAllAppends(f, init);
      AddAppends(AddAll(f, init), last);
      assert pieces == init + [last];
      ConcatAppend(init, [last]);
      ConcatOne(last);
      hide Concat, Held, Add;
      assert Held(f) + Concat(init) + last == Held(f) + (Concat(init) + last);
    }
  }

  function Finished(f: Filling): seq<string> { f.chunks + if f.pending == [] then [] else [f.pending] }

  /** The chunks of a text: its paragraphs, cut into pieces and added one after another. */
  function ChunksOf(text: string): seq<string> {
    var paragraphs := Paragraphs(text);
    Finished(AddAll(Filling([], ""), Pieces(paragraphs, |paragraphs|)))
  }

  lemma NoBoundaryText()
    ensures BoundaryText(NoBoundary) == []
  {
  }

  method AppendLine(before: Filling, boundary: Boundary, line: string) returns (f: Filling)
    requires Sized(before) && line != []
    ensures Sized(f) && f == AddAll(before, WithBoundary(boundary, Wrapped(line, 0)))
  {
    var parts := HardWrap(line);
    WrappedRebuilds(line, 0);
    ghost var pieces := WithBoundary(boundary, parts);
    hide Wrapped, Sized, Add, BoundaryText;
    NoBoundaryText();
    f := before;
    var firstPart := true;
    for i := 0 to |parts|
      invariant firstPart == (i == 0)
      invariant Sized(f) && f == AddAll(before, pieces[..i])
    {
      assert pieces[..i + 1][..i] == pieces[..i];
      assert [] + parts[i] == parts[i];
      AddAppends(f, pieces[i]);
      f := AppendPiece(f, if firstPart then boundary else NoBoundary, parts[i]);
      firstPart := false;
    }
    assert pieces[..|parts|] == pieces;
  }

  method AppendParagraph(before: Filling, index: nat, paragraph: string) returns (f: Filling)
    requires Sized(before) && NoEmptyLine(paragraph)
    ensures Sized(f) && f == AddAll(before, LinePieces(index, Split(paragraph), |Split(paragraph)|))
  {
    var lines := Split(paragraph);
    SplitIsSolid(paragraph);
    hide Sized, Wrapped, NoEmptyLine, Split;
    f := before;
    for n := 0 to |lines|
      invariant Sized(f) && f == AddAll(before, LinePieces(index, lines, n))
    {
      hide AddAll;
      ghost var more := WithBoundary(BoundaryOf(index, n), Wrapped(lines[n], 0));
      AddAllAppend(before, LinePieces(index, lines, n), more);
      f := AppendLine(f, BoundaryOf(index, n), lines[n]);
    }
  }

  /** `chunk`. */
  method ChunkText(text: string) returns (chunks: seq<string>)
    ensures chunks == ChunksOf(text)
  {
    var paragraphs := SplitParagraphs(text);
    ParagraphsAreTidy(text);
    var f := Filling([], "");
    ghost var start := f;
    assert Sized(f);
    for k := 0 to |paragraphs|
      invariant Sized(f) && f == AddAll(start, Pieces(paragraphs, k))
    {
      hide AddAll, Sized, Paragraphs, LinePieces;
      var lines := Split(paragraphs[k]);
      AddAllAppend(start, Pieces(paragraphs, k), LinePieces(k, lines, |lines|));
      f := AppendParagraph(f, k, paragraphs[k]);
    }
    chunks := f.chunks;
    if f.pending != [] {
      chunks := chunks + [f.pending];
    }
  }

  lemma ParagraphsAreTidy(text: string)
    ensures forall i :: 0 <= i < |Paragraphs(text)| ==> TidyParagraph(Paragraphs(text)[i])
    ensures Visible(Concat(Paragraphs(text))) == Visible(text)
  {
    LinesHaveNoBreak(text, 0);
    LinesKeepVisible(text, 0);
    hide LinesFrom, Grouped, Visible, TidyParagraph;
    GroupedKeepsVisible(LinesFrom(text, 0), []);
    assert Concat([]) + Concat(LinesFrom(text, 0)) == Concat(LinesFrom(text, 0));
    assert text[0..] == text;
  }

  // ----- nothing but whitespace is lost ---------------------------------------------------------------------------

  lemma {:induction false} JoinAppend(lines: seq<string>, last: string, separator: string)
    ensures Join(lines + [last], separator) == if lines == [] then last else Join(lines, separator) + separator + last
  {
    if lines != [] {
      assert (lines + [last])[1..] == lines[1..] + [last];
      JoinAppend(lines[1..], last, separator);
      if |lines| > 1 {
        var x, y := lines[0] + separator, Join(lines[1..], separator);
        assert x + (y + separator + last) == x + y + separator + last;
      }
    }
  }

  lemma WithBoundaryText(boundary: Boundary, line: string)
    ensures Concat(WithBoundary(boundary, Wrapped(line, 0))) == BoundaryText(boundary) + line
  {
    var parts := Wrapped(line, 0);
    WrappedRebuilds(line, 0);
    assert line[0..] == line;
    hide Wrapped;
    var first, rest := parts[0], parts[1..];
    assert WithBoundary(boundary, parts)[1..] == rest;
    assert BoundaryText(boundary) + first + Concat(rest) == BoundaryText(boundary) + (first + Concat(rest));
  }

  lemma {:induction false} LinePiecesText(paragraph: nat, lines: seq<string>, n: nat)
    requires 0 < n <= |lines|
    ensures Concat(LinePieces(paragraph, lines, n)) == BoundaryText(BoundaryOf(paragraph, 0)) + Join(lines[..n], "\n")
  {
    var last, init := lines[n - 1], lines[..n - 1];
    var boundary := BoundaryOf(paragraph, n - 1);
    var before := LinePieces(paragraph, lines, n - 1);
    assert lines[..n] == init + [last];
    assert LinePieces(paragraph, lines, n) == before + WithBoundary(boundary, Wrapped(last, 0));
    hide Wrapped, Join, WithBoundary, Concat;
    WithBoundaryText(boundary, last);
    JoinAppend(init, last, "\n");
    ConcatAppend(before, WithBoundary(boundary, Wrapped(last, 0)));
    if n > 1 {
      LinePiecesText(paragraph, lines, n - 1);
      assert BoundaryText(boundary) == "\n";
      hide BoundaryText, BoundaryOf, LinePieces;
      Regroup(BoundaryText(BoundaryOf(paragraph, 0)), Join(init, "\n"), "\n", last);
    } else {
      ConcatNone();
      assert before == [] && init == [];
    }
  }

  lemma ConcatNone()
    ensures Concat<char>([]) == []
  {
  }

  lemma ParagraphPiecesText(index: nat, paragraph: string)
    ensures var lines := Split(paragraph);
      Concat(LinePieces(index, lines, |lines|)) == BoundaryText(BoundaryOf(index, 0)) + paragraph
  {
    var lines := Split(paragraph);
    SplitRejoins(paragraph);
    LinePiecesText(index, lines, |lines|);
    assert lines[..|lines|] == lines;
  }

  lemma NoPiecesText(paragraphs: seq<string>)
    ensures Concat(Pieces(paragraphs, 0)) == [] == Join([], "\n\n")
  {
  }

  /** The pieces of the paragraphs are the paragraphs separated by blank lines. */
  lemma {:induction false} PiecesText(paragraphs: seq<string>, n: nat)
    requires n <= |paragraphs|
    ensures Concat(Pieces(paragraphs, n)) == Join(paragraphs[..n], "\n\n")
  {
    hide Concat, Split, LinePieces, Join;
    NoPiecesText(paragraphs);
    if n > 0 {
      var last := paragraphs[n - 1];
      var lines := Split(last);
      ParagraphPiecesText(n - 1, last);
      PiecesText(paragraphs, n - 1);
      var before := paragraphs[..n - 1];
      assert paragraphs[..n] == before + [last];
      JoinAppend(before, last, "\n\n");
      ConcatAppend(Pieces(paragraphs, n - 1), LinePieces(n - 1, lines, |lines|));
      var x := Join(before, "\n\n");
      assert x + ("\n\n" + last) == x + "\n\n" + last;
    } else {
      assert paragraphs[..n] == [];
    }
  }

  /** The chunks concatenate to the paragraphs joined by blank lines. */
  lemma ChunksRebuildParagraphs(text: string)
    ensures Concat(ChunksOf(text)) == Join(Paragraphs(text), "\n\n")
  {
    var paragraphs := Paragraphs(text);
    var pieces := Pieces(paragraphs, |paragraphs|);
    var start := Filling([], "");
    assert Sized(start) && Held(start) == [];
    var f := AddAll(start, pieces);
    AddAllAppends(start, pieces);
    PiecesText(paragraphs, |paragraphs|);
    assert paragraphs[..|paragraphs|] == paragraphs;
    ConcatAppend(f.chunks, [f.pending]);
    ConcatOne(f.pending);
    hide Paragraphs, Pieces, AddAll, Join;
    if f.pending == [] {
      assert f.chunks + [] == f.chunks && Concat(f.chunks) + [] == Concat(f.chunks);
    }
  }

  /** Every chunk has 1 to 1200 characters, and all but the last at least 400. */
  lemma ChunkSizes(text: string)
    ensures var chunks := ChunksOf(text);
      forall i :: 0 <= i < |chunks| ==> 1 <= |chunks[i]| <= 1200 && (i < |chunks| - 1 ==> |chunks[i]| >= 400)
  {
    var paragraphs := Paragraphs(text);
    var start := Filling([], "");
    assert Sized(start);
    var f := AddAll(start, Pieces(paragraphs, |paragraphs|));
    assert Sized(f);
  }

  /** Chunking loses nothing but whitespace: the visible characters survive in order. */
  lemma ChunksKeepVisible(text: string)
    ensures Visible(Concat(ChunksOf(text))) == Visible(text)
  {
    ChunksRebuildParagraphs(text);
    ParagraphsAreTidy(text);
    JoinKeepsVisible(Paragraphs(text), "\n\n");
  }
}
