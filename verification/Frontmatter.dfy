/** Line splitting and the leading scalar frontmatter block. */
module Frontmatter {
  import opened Wrappers
  import opened Strings

  // ----- separators ---------------------------------------------------------------------------------

  /** The separators beyond a line feed and a carriage return with line feed. */
  predicate IsExplicit(c: char) {
    || c == '\r'
    || c == '\U{000B}' || c == '\U{000C}'
    || c == '\U{001C}' || c == '\U{001D}' || c == '\U{001E}'
    || c == '\U{0085}'
    || c == '\U{2028}' || c == '\U{2029}'
  }

  predicate IsSeparator(c: char) { c == '\n' || IsExplicit(c) }

  /** One past the separator at `i`; a carriage return and line feed are one separator. */
  function AfterSeparator(s: string, i: nat): (r: nat)
    requires i < |s|
    ensures i < r <= |s| && r <= i + 2
  {
    if s[i] == '\r' && i + 1 < |s| && s[i + 1] == '\n' then i + 2 else i + 1
  }

  /** Only a carriage return with its line feed is a separator of two characters. */
  lemma PairedSeparator(s: string, i: nat)
    requires i < |s|
    ensures AfterSeparator(s, i) == i + 2 <==> i + 1 < |s| && s[i..i + 2] == "\r\n"
    ensures AfterSeparator(s, i) == i + 1 || AfterSeparator(s, i) == i + 2
  {
    if i + 1 < |s| {
      assert s[i..i + 2] == [s[i], s[i + 1]];
    }
  }

  datatype LineOf = LineOf(content: string, separatorEnd: nat)

  predicate Plain(s: string) { forall i :: 0 <= i < |s| ==> !IsSeparator(s[i]) }

  function NextSeparator(s: string, from: nat): (i: nat)
    requires from <= |s|
    ensures from <= i <= |s|
    ensures forall j :: from <= j < i ==> !IsSeparator(s[j])
    ensures i < |s| ==> IsSeparator(s[i])
    decreases |s| - from
  {
    if from == |s| || IsSeparator(s[from]) then from else NextSeparator(s, from + 1)
  }

  /** One left-to-right pass over the full separator set. */
  function OnePass(s: string, from: nat): seq<LineOf>
    requires from <= |s|
    decreases |s| - from
  {
    var end := NextSeparator(s, from);
    if from == |s| then []
    else if end == |s| then [LineOf(s[from..], |s|)]
    else [LineOf(s[from..end], AfterSeparator(s, end))] + OnePass(s, AfterSeparator(s, end))
  }

  /** The separators are those of `str.splitlines`. */
  lemma SeparatorsAre(c: char)
    ensures IsSeparator(c) <==>
      c in "\n\r\U{000B}\U{000C}\U{001C}\U{001D}\U{001E}\U{0085}\U{2028}\U{2029}"
  {
  }

  lemma SeparatorEndsLine(s: string, from: nat, end: nat)
    requires from <= end < |s| && IsSeparator(s[end]) && forall j :: from <= j < end ==> !IsSeparator(s[j])
    ensures OnePass(s, from) == [LineOf(s[from..end], AfterSeparator(s, end))] + OnePass(s, AfterSeparator(s, end))
  {
    assert NextSeparator(s, from) == end;
  }

  lemma TextEndsLine(s: string, from: nat)
    requires from <= |s| && forall j :: from <= j < |s| ==> !IsSeparator(s[j])
    ensures OnePass(s, from) == if from == |s| then [] else [LineOf(s[from..], |s|)]
  {
    assert NextSeparator(s, from) == |s|;
  }

  // ----- two-stage splitting -----------------------------------------------------------------------------

  function NextFeed(s: string, from: nat): (i: nat)
    requires from <= |s|
    ensures from <= i <= |s|
    ensures forall j :: from <= j < i ==> s[j] != '\n'
    ensures i < |s| ==> s[i] == '\n'
    decreases |s| - from
  {
    if from == |s| || s[from] == '\n' then from else NextFeed(s, from + 1)
  }

  /** Where the native line at `from` ends: before its line feed and one carriage return. */
  function NativeEnd(s: string, from: nat): (i: nat)
    requires from <= |s|
    ensures from <= i <= |s|
  {
    var feed := NextFeed(s, from);
    if feed < |s| && feed > from && s[feed - 1] == '\r' then feed - 1 else feed
  }

  /** `str::lines`: the contents of the native lines of `s[from..]`. */
  function NativeLines(s: string, from: nat): seq<string>
    requires from <= |s|
    decreases |s| - from
  {
    var feed := NextFeed(s, from);
    if from == |s| then []
    else if feed == |s| then [s[from..]]
    else [s[from..NativeEnd(s, from)]] + NativeLines(s, feed + 1)
  }

  /** The native line that ends at `end` is followed by its separator, or ends the text. */
  predicate EndsNative(s: string, start: nat, end: nat, length: nat) {
    && start <= end && end + length <= |s|
    && (forall j :: start <= j < end ==> s[j] != '\n')
    && (|| (length == 0 && end == |s|)
        || (length == 1 && s[end] == '\n' && (end == start || s[end - 1] != '\r'))
        || (length == 2 && s[end] == '\r' && s[end + 1] == '\n'))
  }

  /** `append_explicitly_separated_lines`. */
  method AppendExplicit(s: string, start: nat, end: nat, length: nat, before: seq<LineOf>) returns (lines: seq<LineOf>)
    requires EndsNative(s, start, end, length)
    ensures lines + OnePass(s, end + length) == before + OnePass(s, start)
  {
    hide OnePass;
    lines := before;
    var lineStart, index := start, start;
    while index < end
      invariant start <= lineStart <= index <= end
      invariant forall j :: lineStart <= j < index ==> !IsSeparator(s[j])
      invariant lines + OnePass(s, lineStart) == before + OnePass(s, start)
    {
      if IsExplicit(s[index]) {
        SeparatorEndsLine(s, lineStart, index);
        assert AfterSeparator(s, index) == index + 1;
        lines := lines + [LineOf(s[lineStart..index], index + 1)];
        lineStart := index + 1;
      }
      index := index + 1;
    }
    if length > 0 {
      SeparatorEndsLine(s, lineStart, end);
    } else {
      TextEndsLine(s, lineStart);
      TextEndsLine(s, |s|);
    }
    if lineStart < end || length > 0 {
      var last := LineOf(s[lineStart..end], end + length);
      assert end == |s| ==> s[lineStart..end] == s[lineStart..];
      assert lines + ([last] + OnePass(s, end + length)) == lines + [last] + OnePass(s, end + length);
      lines := lines + [last];
    }
  }

  lemma NativeStep(s: string, from: nat)
    requires from < |s|
    ensures var end := NativeEnd(s, from);
      var length := SeparatorLength(s, end);
      && NativeLines(s, from) != [] && NativeLines(s, from)[0] == s[from..end]
      && EndsNative(s, from, end, length) && from < end + length
      && NativeLines(s, from)[1..] == NativeLines(s, end + length)
  {
    var feed := NextFeed(s, from);
    var end := NativeEnd(s, from);
    if feed < |s| && end < feed {
      assert SeparatorLength(s, end) == 2;
    }
    if feed == |s| {
      assert s[from..end] == s[from..];
    }
  }

  /** How much of a line feed or carriage return with line feed stands at `end`. */
  function SeparatorLength(s: string, end: nat): (n: nat)
    requires end <= |s|
    ensures end + n <= |s|
  {
    if end + 1 < |s| && s[end] == '\r' && s[end + 1] == '\n' then 2
    else if end < |s| && s[end] == '\n' then 1
    else 0
  }

  /** `lines_with_separators`: the two stages agree with one pass. */
  method LinesWithSeparators(s: string) returns (lines: seq<LineOf>)
    ensures lines == OnePass(s, 0)
  {
    hide OnePass, NativeLines, NativeEnd, EndsNative, SeparatorLength;
    lines := [];
    var cursor: nat := 0;
    var native := NativeLines(s, 0);
    NoLines(s);
    for i := 0 to |native|
      invariant cursor <= |s| && native[i..] == NativeLines(s, cursor)
      invariant lines + OnePass(s, cursor) == OnePass(s, 0)
    {
      if cursor == |s| {
        assert false;
      }
      NativeStep(s, cursor);
      assert native[i] == native[i..][0] && native[i + 1..] == native[i..][1..];
      var end := cursor + |native[i]|;
      var length := SeparatorLength(s, end);
      lines := AppendExplicit(s, cursor, end, length, lines);
      cursor := end + length;
    }
    if cursor < |s| {
      NativeStep(s, cursor);
      assert false;
    }
  }

  lemma NoLines(s: string)
    ensures NativeLines(s, |s|) == [] && OnePass(s, |s|) == []
  {
  }

  // ----- what the lines are ------------------------------------------------------------------------------

  /** The lines tile `s[from..]`: separator-free contents, each followed by one whole separator
      except that the last may end the text. */
  predicate Tiled(s: string, from: nat, lines: seq<LineOf>)
    requires from <= |s|
    decreases |lines|
  {
    if lines == [] then from == |s|
    else
      var end := from + |lines[0].content|;
      && end <= |s| && s[from..end] == lines[0].content && Plain(lines[0].content)
      && (if end == |s| then from < end && lines[0].separatorEnd == end
          else IsSeparator(s[end]) && lines[0].separatorEnd == AfterSeparator(s, end))
      && Tiled(s, lines[0].separatorEnd, lines[1..])
  }

  /** A tiling exists and is unique: it is what one pass, hence the two stages, compute. */
  lemma {:induction false} TilingIsOnePass(s: string, from: nat, lines: seq<LineOf>)
    requires from <= |s|
    ensures Tiled(s, from, lines) <==> lines == OnePass(s, from)
    decreases |lines|, 1
  {
    hide OnePass, IsSeparator, NextSeparator, AfterSeparator;
    if lines == [] {
      if from < |s| {
        OnePassStarts(s, from);
      } else {
        NoLines(s);
      }
    } else if from == |s| {
      NoLines(s);
    } else {
      var end := NextSeparator(s, from);
      var length := |lines[0].content|;
      if Tiled(s, from, lines) {
        PlainPrefix(s, from, length, end);
      }
      if end == |s| {
        TextEndsLine(s, from);
        NoLines(s);
        assert s[from..end] == s[from..];
        TilingIsOnePass(s, |s|, lines[1..]);
      } else {
        SeparatorEndsLine(s, from, end);
        TilingIsOnePass(s, AfterSeparator(s, end), lines[1..]);
      }
      assert lines == [lines[0]] + lines[1..];
    }
  }

  lemma PlainPrefix(s: string, from: nat, length: nat, end: nat)
    requires from <= end <= |s| && from + length <= |s| && Plain(s[from..from + length])
    requires end < |s| ==> IsSeparator(s[end])
    ensures from + length <= end
  {
    forall j | from <= j < from + length ensures !IsSeparator(s[j]) {
      assert s[from..from + length][j - from] == s[j];
    }
  }

  lemma OnePassStarts(s: string, from: nat)
    requires from < |s|
    ensures OnePass(s, from) != []
  {
  }

  /** The contents with the separators that follow them. */
  function Rebuilt(s: string, from: nat, lines: seq<LineOf>): string
    requires from <= |s| && Tiled(s, from, lines)
    decreases |lines|
  {
    if lines == [] then []
    else
      lines[0].content + s[from + |lines[0].content|..lines[0].separatorEnd]
      + Rebuilt(s, lines[0].separatorEnd, lines[1..])
  }

  /** Contents plus separators rebuild the source. */
  lemma {:induction false} LinesRebuildSource(s: string, from: nat, lines: seq<LineOf>)
    requires from <= |s| && Tiled(s, from, lines)
    ensures Rebuilt(s, from, lines) == s[from..]
    decreases |lines|
  {
    if lines != [] {
      var end, next := from + |lines[0].content|, lines[0].separatorEnd;
      RebuiltStep(s, from, lines);
      hide Rebuilt, Tiled, Plain;
      LinesRebuildSource(s, next, lines[1..]);
      Parts(s, from, end, next);
    }
  }

  lemma RebuiltStep(s: string, from: nat, lines: seq<LineOf>)
    requires from <= |s| && Tiled(s, from, lines) && lines != []
    ensures var end, next := from + |lines[0].content|, lines[0].separatorEnd;
      && end <= next <= |s| && Tiled(s, next, lines[1..])
      && Rebuilt(s, from, lines) == s[from..end] + s[end..next] + Rebuilt(s, next, lines[1..])
  {
  }

  /** The lines after a line are the lines of the text after its separator. */
  lemma {:induction false} LaterLines(s: string, from: nat, n: nat)
    requires from <= |s| && n < |OnePass(s, from)|
    ensures OnePass(s, from)[n].separatorEnd <= |s|
    ensures OnePass(s, OnePass(s, from)[n].separatorEnd) == OnePass(s, from)[n + 1..]
    decreases n
  {
    var end := NextSeparator(s, from);
    if end == |s| {
      NoLines(s);
    } else if n > 0 {
      LaterLines(s, AfterSeparator(s, end), n - 1);
    }
  }

  // ----- fields ------------------------------------------------------------------------------------------

  predicate IsAlphabetic(c: char) { 'a' <= c <= 'z' || 'A' <= c <= 'Z' }

  predicate ValidKey(key: string) {
    && key != []
    && (IsAlphabetic(key[0]) || key[0] == '_')
    && forall i :: 1 <= i < |key| ==> IsAlphabetic(key[i]) || '0' <= key[i] <= '9' || key[i] in "_.-"
  }

  /** The ASCII letters, by code. */
  predicate IsLetter(c: char) { 65 <= c as int <= 90 || 97 <= c as int <= 122 }

  /** A key is a letter or underscore followed by letters, digits, underscores, dots and hyphens. */
  lemma ValidKeyExactlyWhen(first: char, rest: string)
    ensures !ValidKey([])
    ensures ValidKey([first] + rest) <==>
      && (IsLetter(first) || first == '_')
      && forall c :: c in rest ==> IsLetter(c) || c in "0123456789" || c in "_.-"
  {
    var key := [first] + rest;
    assert forall i :: 1 <= i < |key| ==> key[i] == rest[i - 1];
    forall c | c in rest ensures exists i :: 1 <= i < |key| && key[i] == c {
      var j :| 0 <= j < |rest| && rest[j] == c;
      assert key[j + 1] == c;
    }
  }

  function FirstColon(line: string, from: nat): (i: nat)
    requires from <= |line|
    ensures from <= i <= |line|
    ensures forall j :: from <= j < i ==> line[j] != ':'
    ensures i < |line| ==> line[i] == ':'
    decreases |line| - from
  {
    if from == |line| || line[from] == ':' then from else FirstColon(line, from + 1)
  }

  datatype Field = Field(key: string, value: string)

  function FieldLine(line: string): Option<Field> {
    var colon := FirstColon(line, 0);
    if colon < |line| && ValidKey(line[..colon]) then Some(Field(line[..colon], Trim(line[colon + 1..]))) else None
  }

  function Unquote(value: string): string {
    if |value| >= 2 && value[0] == value[|value| - 1] && value[0] in "'\"" then value[1..|value| - 1] else value
  }

  /** Two equal quotes around anything are taken off, once; everything else stays. */
  lemma UnquoteTakesQuotes(quote: char, inner: string, value: string)
    ensures quote in "'\"" ==> Unquote([quote] + inner + [quote]) == inner
    ensures Unquote(value) != value ==> value == "'" + Unquote(value) + "'" || value == "\"" + Unquote(value) + "\""
  {
    var quoted := [quote] + inner + [quote];
    assert quoted[1..|quoted| - 1] == inner;
    if Unquote(value) != value {
      assert value == [value[0]] + value[1..|value| - 1] + [value[0]];
    }
  }

  /** The fields of a block of lines; an indented line continues a field and adds nothing. */
  function FieldsOf(lines: seq<LineOf>, fields: map<string, string>): Option<map<string, string>>
    decreases |lines|
  {
    if lines == [] then Some(fields)
    else
      var line := lines[0].content;
      if Blank(line) then None
      else if line[0] in " \t" then
        if fields == map[] then None else FieldsOf(lines[1..], fields)
      else
        var field := FieldLine(line);
        if field.None? then None
        else FieldsOf(lines[1..], fields[field.value.key := Unquote(field.value.value)])
  }

  predicate Indented(line: string) { line != [] && (line[0] == ' ' || line[0] == '\t') }

  /** The value the last field line for the key gives it, if there is one. */
  function LastValue(lines: seq<LineOf>, key: string): Option<string> {
    if lines == [] then None
    else
      var line := lines[|lines| - 1].content;
      var field := FieldLine(line);
      if !Indented(line) && field.Some? && field.value.key == key then Some(Unquote(field.value.value))
      else LastValue(lines[..|lines| - 1], key)
  }

  lemma {:induction false} LastValueFirst(line: LineOf, rest: seq<LineOf>, key: string)
    ensures LastValue([line] + rest, key)
         == if LastValue(rest, key).Some? then LastValue(rest, key) else LastValue([line], key)
  {
    var all := [line] + rest;
    if rest == [] {
      assert all == [line];
    } else {
      assert all[..|all| - 1] == [line] + rest[..|rest| - 1];
      LastValueFirst(line, rest[..|rest| - 1], key);
    }
  }

  lemma FieldFirst(lines: seq<LineOf>, rest: seq<LineOf>)
    requires lines != [] && rest == lines[1..]
    ensures (forall i :: 0 <= i < |lines| ==> !Blank(lines[i].content)) <==>
      !Blank(lines[0].content) && forall i :: 0 <= i < |rest| ==> !Blank(rest[i].content)
    ensures (forall i :: 0 <= i < |lines| ==> Indented(lines[i].content) || FieldLine(lines[i].content).Some?) <==>
      && (Indented(lines[0].content) || FieldLine(lines[0].content).Some?)
      && forall i :: 0 <= i < |rest| ==> Indented(rest[i].content) || FieldLine(rest[i].content).Some?
  {
    hide Blank, FieldLine;
    assert forall i :: 0 <= i < |rest| ==> rest[i] == lines[i + 1];
    assert forall i :: 0 < i < |lines| ==> lines[i] == rest[i - 1];
  }

  /** A block of lines is read exactly when none is blank, each is a field or a continuation, and a
      continuation does not come first; then every key has the value of its last field line. */
  lemma {:induction false} FieldsExactlyWhen(lines: seq<LineOf>, fields: map<string, string>)
    ensures FieldsOf(lines, fields).Some? <==>
      && (forall i :: 0 <= i < |lines| ==> !Blank(lines[i].content))
      && (forall i :: 0 <= i < |lines| ==> Indented(lines[i].content) || FieldLine(lines[i].content).Some?)
      && (fields == map[] && lines != [] ==> !Indented(lines[0].content))
    ensures FieldsOf(lines, fields).Some? ==> forall k ::
      && (k in FieldsOf(lines, fields).value <==> LastValue(lines, k).Some? || k in fields)
      && (k in FieldsOf(lines, fields).value ==>
            FieldsOf(lines, fields).value[k]
            == if LastValue(lines, k).Some? then LastValue(lines, k).value else fields[k])
    decreases |lines|
  {
    hide FieldLine, Unquote;
    if lines != [] && !Blank(lines[0].content) {
      var line, rest := lines[0], lines[1..];
      assert lines == [line] + rest;
      forall k
        ensures LastValue(lines, k) == if LastValue(rest, k).Some? then LastValue(rest, k) else LastValue([line], k)
      {
        LastValueFirst(line, rest, k);
      }
      assert [line][..0] == [];
      assert Indented(line.content) <==> line.content[0] in " \t";
      hide Blank;
      if Indented(line.content) {
        assert FieldsOf(lines, fields) == if fields == map[] then None else FieldsOf(rest, fields);
        assert forall k :: LastValue([line], k) == None;
        hide FieldsOf, LastValue;
        FieldsExactlyWhen(rest, fields);
        FieldFirst(lines, rest);
      } else if FieldLine(line.content).Some? {
        var f := FieldLine(line.content).value;
        var more := fields[f.key := Unquote(f.value)];
        assert f.key in more;
        assert FieldsOf(lines, fields) == FieldsOf(rest, more);
        assert forall k :: LastValue([line], k) == if k == f.key then Some(Unquote(f.value)) else None;
        hide FieldsOf, LastValue;
        FieldsExactlyWhen(rest, more);
        FieldFirst(lines, rest);
      }
    }
  }

  // ----- parsing -----------------------------------------------------------------------------------------

  const FENCE: string := "---"
  const BOM: char := '\U{FEFF}'

  datatype Page = Page(fields: map<string, string>, body: string)

  function WithoutBom(source: string): string { if source != [] && source[0] == BOM then source[1..] else source }

  function Closing(lines: seq<LineOf>, from: nat): (i: nat)
    requires from <= |lines|
    ensures from <= i <= |lines|
    ensures forall j :: from <= j < i ==> lines[j].content != FENCE
    ensures i < |lines| ==> lines[i].content == FENCE
    decreases |lines| - from
  {
    if from == |lines| || lines[from].content == FENCE then from else Closing(lines, from + 1)
  }

  /** The first line from `from` that is not empty. */
  function FirstFilled(lines: seq<LineOf>, from: nat): (i: nat)
    requires from <= |lines|
    ensures from <= i <= |lines|
    ensures forall j :: from <= j < i ==> lines[j].content == []
    ensures i < |lines| ==> lines[i].content != []
    decreases |lines| - from
  {
    if from == |lines| || lines[from].content != [] then from else FirstFilled(lines, from + 1)
  }

  /** The index of the closing fence of a leading block with at least one field, if there is one. */
  function Block(lines: seq<LineOf>): (r: Option<nat>)
    ensures r.Some? ==> 0 < r.value < |lines|
  {
    if lines == [] || lines[0].content != FENCE || Closing(lines, 1) == |lines| then None
    else
      var closing := Closing(lines, 1);
      var fields := FieldsOf(lines[1..closing], map[]);
      if fields.None? || fields.value == map[] then None else Some(closing)
  }

  /** A block is a first line that is the fence, the next line that is the fence, and fields between. */
  lemma BlockExactlyWhen(lines: seq<LineOf>, closing: nat)
    ensures Block(lines) == Some(closing) <==>
      && 0 < closing < |lines| && lines[0].content == "---" && lines[closing].content == "---"
      && (forall i :: 0 < i < closing ==> lines[i].content != "---")
      && FieldsOf(lines[1..closing], map[]).Some? && FieldsOf(lines[1..closing], map[]).value != map[]
  {
    hide FieldsOf;
  }

  /** What a page means: fields and a body after the block, or the untouched source. */
  ghost predicate Means(source: string, page: Page) {
    var s := WithoutBom(source);
    var lines := OnePass(s, 0);
    if Block(lines).None? then page == Page(map[], source)
    else
      var closing := Block(lines).value;
      var n := FirstFilled(lines, closing + 1);
      FieldsOf(lines[1..closing], map[]) == Some(page.fields) && Follows(s, lines[n - 1], page.body)
  }

  /** The body is all the text after the line. */
  predicate Follows(s: string, line: LineOf, body: string) {
    line.separatorEnd <= |s| && body == s[line.separatorEnd..]
  }

  /** The loop over the lines of the block. */
  method ReadFields(block: seq<LineOf>) returns (r: Option<map<string, string>>)
    ensures r == FieldsOf(block, map[])
  {
    hide FieldLine, Blank, Unquote;
    var fields: map<string, string> := map[];
    assert block[0..] == block;
    for i := 0 to |block|
      invariant FieldsOf(block[i..], fields) == FieldsOf(block, map[])
    {
      var line := block[i].content;
      assert block[i..][0] == block[i] && block[i..][1..] == block[i + 1..];
      TrimsAway(line);
      if Trim(line) == [] {
        return None;
      }
      if line[0] in " \t" {
        if fields == map[] {
          return None;
        }
      } else {
        var field := FieldLine(line);
        if field.None? {
          return None;
        }
        fields := fields[field.value.key := Unquote(field.value.value)];
      }
    }
    assert block[|block|..] == [];
    r := Some(fields);
  }

  /** The loop over the empty lines behind the block. */
  method SkipEmptyLines(lines: seq<LineOf>, closing: nat) returns (bodyStart: nat)
    requires closing < |lines|
    ensures bodyStart == lines[FirstFilled(lines, closing + 1) - 1].separatorEnd
  {
    bodyStart := lines[closing].separatorEnd;
    var n := closing + 1;
    while n < |lines| && lines[n].content == []
      invariant closing < n <= |lines|
      invariant FirstFilled(lines, n) == FirstFilled(lines, closing + 1)
      invariant bodyStart == lines[n - 1].separatorEnd
    {
      bodyStart := lines[n].separatorEnd;
      n := n + 1;
    }
  }

  /** `parse_frontmatter`. */
  method ParseFrontmatter(source: string) returns (page: Page)
    ensures Means(source, page)
  {
    var s := WithoutBom(source);
    var lines := LinesWithSeparators(s);
    hide OnePass, FieldsOf;
    if lines == [] || lines[0].content != FENCE {
      return Page(map[], source);
    }
    var closing := Closing(lines, 1);
    if closing == |lines| {
      return Page(map[], source);
    }
    var fields := ReadFields(lines[1..closing]);
    if fields.None? || fields.value == map[] {
      return Page(map[], source);
    }
    var bodyStart := SkipEmptyLines(lines, closing);
    LaterLines(s, 0, FirstFilled(lines, closing + 1) - 1);
    page := Page(fields.value, s[bodyStart..]);
  }

  lemma BlockHasFields(lines: seq<LineOf>)
    requires Block(lines).Some?
    ensures FieldsOf(lines[1..Block(lines).value], map[]) != Some(map[])
  {
    hide FieldsOf;
  }

  /** The body is the text from `start` on, and its lines are those from the `n`th, not empty. */
  predicate Continues(s: string, n: nat, start: nat, body: string) {
    var lines := OnePass(s, 0);
    && n <= |lines| && start <= |s|
    && body == s[start..] && OnePass(s, start) == lines[n..]
    && (n < |lines| ==> lines[n].content != [])
  }

  /** Either the source is untouched and there are no fields, or there are fields and the body is
      a suffix of the source after its byte-order mark, whose lines are exactly the remaining
      lines from the first that is not empty. */
  lemma PageIsSourceOrSuffix(source: string, page: Page)
    requires Means(source, page)
    ensures || page == Page(map[], source)
            || (page.fields != map[] && exists n: nat, start: nat :: Continues(WithoutBom(source), n, start, page.body))
  {
    var s := WithoutBom(source);
    hide *;
    if Block(OnePass(s, 0)).None? {
      MeansSource(source, page);
    } else {
      var n := MeansSuffix(source, page);
      var start := OnePass(s, 0)[n - 1].separatorEnd;
      assert Continues(s, n, start, page.body);
    }
  }

  lemma MeansSource(source: string, page: Page)
    requires Means(source, page) && Block(OnePass(WithoutBom(source), 0)).None?
    ensures page == Page(map[], source)
  {
    hide OnePass, Block;
  }

  lemma MeansTail(source: string, page: Page)
    requires Means(source, page) && Block(OnePass(WithoutBom(source), 0)).Some?
    ensures var lines := OnePass(WithoutBom(source), 0);
      var closing := Block(lines).value;
      && FieldsOf(lines[1..closing], map[]) == Some(page.fields)
      && Follows(WithoutBom(source), lines[FirstFilled(lines, closing + 1) - 1], page.body)
  {
    hide OnePass, FieldsOf, Block, WithoutBom, FirstFilled, Follows;
  }

  lemma MeansSuffix(source: string, page: Page) returns (n: nat)
    requires Means(source, page) && Block(OnePass(WithoutBom(source), 0)).Some?
    ensures var lines := OnePass(WithoutBom(source), 0);
      && 0 < n <= |lines| && page.fields != map[]
      && Continues(WithoutBom(source), n, lines[n - 1].separatorEnd, page.body)
  {
    hide *;
    var lines := OnePass(WithoutBom(source), 0);
    n := FirstFilled(lines, Block(lines).value + 1);
    MeansTail(source, page);
    BlockHasFields(lines);
    SuffixContinues(WithoutBom(source), n, page.body);
  }

  lemma SuffixContinues(s: string, n: nat, body: string)
    requires 0 < n <= |OnePass(s, 0)| && (n < |OnePass(s, 0)| ==> OnePass(s, 0)[n].content != [])
    requires Follows(s, OnePass(s, 0)[n - 1], body)
    ensures Continues(s, n, OnePass(s, 0)[n - 1].separatorEnd, body)
  {
    hide OnePass;
    LaterLines(s, 0, n - 1);
  }

  // ----- the round trip -------------------------------------------------------------------------------------

  /** A field that prints as one line. */
  predicate Printable(f: Field) { ValidKey(f.key) && Plain(f.value) }

  /** A value that can stand without quotes. */
  predicate Bare(value: string) {
    value == [] || (IsVisible(value[0]) && IsVisible(value[|value| - 1]) && value[0] != '"' && value[0] != '\'')
  }

  function PrintValue(value: string): string { if Bare(value) then value else "\"" + value + "\"" }

  predicate AllPrintable(fields: seq<Field>) { forall i :: 0 <= i < |fields| ==> Printable(fields[i]) }

  function PrintLine(f: Field): string { f.key + ": " + PrintValue(f.value) }

  function PrintFields(fields: seq<Field>): string {
    if fields == [] then [] else PrintLine(fields[0]) + "\n" + PrintFields(fields[1..])
  }

  function PrintPage(fields: seq<Field>, body: string): string {
    FENCE + "\n" + (PrintFields(fields) + FENCE + "\n" + body)
  }

  function Collected(fields: seq<Field>, before: map<string, string>): map<string, string>
    decreases |fields|
  {
    if fields == [] then before else Collected(fields[1..], before[fields[0].key := fields[0].value])
  }

  lemma LineThen(s: string, from: nat, content: string, rest: string)
    requires from <= |s| && s[from..] == content + "\n" + rest && Plain(content)
    ensures var next := from + |content| + 1;
      next <= |s| && OnePass(s, from) == [LineOf(content, next)] + OnePass(s, next) && s[next..] == rest
  {
    hide *;
    var end := from + |content|;
    Located(s, from, content, rest);
    FeedSeparates(s, end);
    PlainStays(s, from, content);
    SeparatorEndsLine(s, from, end);
  }

  lemma PlainStays(s: string, from: nat, content: string)
    requires from + |content| <= |s| && Plain(content)
    requires forall j :: from <= j < from + |content| ==> s[j] == content[j - from]
    ensures forall j :: from <= j < from + |content| ==> !IsSeparator(s[j])
  {
    hide IsSeparator;
    forall j | from <= j < from + |content| ensures !IsSeparator(s[j]) {
      assert s[j] == content[j - from];
    }
  }

  lemma Located(s: string, from: nat, content: string, rest: string)
    requires from <= |s| && s[from..] == content + "\n" + rest
    ensures var end := from + |content|;
      && end < |s| && s[from..end] == content && s[end] == '\n' && s[end + 1..] == rest
      && forall j :: from <= j < end ==> s[j] == content[j - from]
  {
    var t := s[from..];
    var end := from + |content|;
    assert |t| == |s| - from && s[end] == t[|content|];
    assert s[from..end] == t[..|content|];
    assert s[end + 1..] == t[|content| + 1..];
    forall j | from <= j < end ensures s[j] == content[j - from] {
      assert s[j] == t[j - from];
    }
  }

  lemma FeedSeparates(s: string, i: nat)
    requires i < |s| && s[i] == '\n'
    ensures IsSeparator(s[i]) && AfterSeparator(s, i) == i + 1
  {
  }

  lemma PrintedValueIsPlain(value: string)
    requires Plain(value)
    ensures Plain(PrintValue(value))
  {
    if !Bare(value) {
      var quoted := "\"" + value + "\"";
      forall i | 0 <= i < |quoted| ensures !IsSeparator(quoted[i]) {
        if 0 < i <= |value| {
          assert quoted[i] == value[i - 1];
        }
      }
    }
  }

  lemma PrintedLineIsPlain(f: Field)
    requires Printable(f)
    ensures Plain(PrintLine(f)) && !Blank(PrintLine(f)) && PrintLine(f)[0] !in " \t" && PrintLine(f) != FENCE
  {
    PrintedValueIsPlain(f.value);
    var line, value := PrintLine(f), PrintValue(f.value);
    hide Trim, Unquote, PrintValue;
    assert line[0] == f.key[0] != '-';
    forall i | 0 <= i < |line| ensures !IsSeparator(line[i]) {
      if i < |f.key| {
        assert line[i] == f.key[i];
      } else if i >= |f.key| + 2 {
        assert line[i] == value[i - |f.key| - 2];
      }
    }
  }

  /** Text with visible ends is not trimmed. */
  lemma VisibleEndsStay(text: string)
    requires text == [] || (IsVisible(text[0]) && IsVisible(text[|text| - 1]))
    ensures Trim(text) == text
  {
  }

  /** A printed value reads back: unquoted as it stands, quoted without its quotes. */
  lemma PrintedValueReads(value: string)
    ensures Trim(PrintValue(value)) == PrintValue(value) && Unquote(PrintValue(value)) == value
  {
    VisibleEndsStay(PrintValue(value));
  }

  /** A line is a field exactly when it is a valid key, a colon and a value, which is trimmed. */
  lemma FieldLineExactlyWhen(line: string, f: Field)
    ensures FieldLine(line) == Some(f) <==>
      ValidKey(f.key) && exists value: string :: line == f.key + ":" + value && f.value == Trim(value)
  {
    hide Trim;
    var colon := FirstColon(line, 0);
    if FieldLine(line) == Some(f) {
      assert line == f.key + ":" + line[colon + 1..];
    }
    forall value: string | ValidKey(f.key) && line == f.key + ":" + value && f.value == Trim(value)
      ensures FieldLine(line) == Some(f)
    {
      assert forall i :: 0 <= i < |f.key| ==> line[i] == f.key[i] && f.key[i] != ':';
      assert line[|f.key|] == ':' && colon == |f.key|;
      assert line[..colon] == f.key && line[colon + 1..] == value;
    }
  }

  lemma PrintedLineReads(f: Field)
    requires Printable(f)
    ensures FieldLine(PrintLine(f)) == Some(Field(f.key, PrintValue(f.value)))
    ensures Unquote(PrintValue(f.value)) == f.value
  {
    var value := PrintValue(f.value);
    PrintedValueReads(f.value);
    hide Plain, Unquote, PrintValue, ValidKey;
    var text := " " + value;
    assert text[1..] == value;
    assert TrimStart(text) == TrimStart(value);
    assert PrintLine(f) == f.key + ":" + text;
    FieldLineExactlyWhen(PrintLine(f), Field(f.key, value));
  }

  /** The lines of a printed block: one for each field, then the fence, then the body's. */
  lemma {:induction false} PrintedLines(s: string, from: nat, fields: seq<Field>, body: string)
    requires AllPrintable(fields) && from <= |s| && s[from..] == PrintFields(fields) + FENCE + "\n" + body
    ensures var lines, n := OnePass(s, from), |fields|;
      && n < |lines| && |body| <= |s|
      && lines[n] == LineOf(FENCE, |s| - |body|)
      && lines[n + 1..] == OnePass(s, |s| - |body|) && s[|s| - |body|..] == body
      && forall i :: 0 <= i < n ==> lines[i].content == PrintLine(fields[i])
    decreases |fields|
  {
    hide OnePass, IsSeparator, PrintLine, Printable, Plain;
    if fields == [] {
      assert s[from..] == FENCE + "\n" + body;
      FenceIsPlain();
      LineThen(s, from, FENCE, body);
    } else {
      var line, rest := PrintLine(fields[0]), PrintFields(fields[1..]) + FENCE + "\n" + body;
      PrintedFirst(fields, body);
      hide PrintFields;
      PrintedLineIsPlain(fields[0]);
      LineThen(s, from, line, rest);
      PrintedLines(s, from + |line| + 1, fields[1..], body);
    }
  }

  lemma PrintedFirst(fields: seq<Field>, body: string)
    requires fields != []
    ensures PrintFields(fields) + FENCE + "\n" + body
         == PrintLine(fields[0]) + "\n" + (PrintFields(fields[1..]) + FENCE + "\n" + body)
  {
    hide PrintLine;
  }

  lemma FenceIsPlain()
    ensures Plain(FENCE)
  {
  }

  lemma {:induction false} PrintedFields(lines: seq<LineOf>, fields: seq<Field>, before: map<string, string>)
    requires AllPrintable(fields) && |lines| == |fields|
    requires forall i :: 0 <= i < |fields| ==> lines[i].content == PrintLine(fields[i])
    ensures FieldsOf(lines, before) == Some(Collected(fields, before))
    decreases |fields|
  {
    if fields != [] {
      PrintedLineIsPlain(fields[0]);
      PrintedLineReads(fields[0]);
      hide PrintLine, FieldLine, Unquote, Printable, PrintValue;
      PrintedFields(lines[1..], fields[1..], before[fields[0].key := fields[0].value]);
    }
  }

  lemma {:induction false} CollectedGrows(fields: seq<Field>, before: map<string, string>)
    ensures before.Keys <= Collected(fields, before).Keys
    ensures fields != [] ==> Collected(fields, before) != map[]
    decreases |fields|
  {
    if fields != [] {
      CollectedGrows(fields[1..], before[fields[0].key := fields[0].value]);
      assert fields[0].key in Collected(fields, before);
    }
  }

  lemma FirstLineIsFilled(s: string, from: nat)
    requires from < |s| && !IsSeparator(s[from])
    ensures OnePass(s, from) != [] && OnePass(s, from)[0].content != []
  {
  }

  /** Lines that start with a printed block are recognized as one. */
  lemma PrintedBlock(lines: seq<LineOf>, fields: seq<Field>)
    requires fields != [] && AllPrintable(fields) && |fields| + 2 <= |lines|
    requires lines[0].content == FENCE == lines[|fields| + 1].content
    requires forall i :: 0 <= i < |fields| ==> lines[i + 1].content == PrintLine(fields[i])
    ensures Block(lines) == Some(|fields| + 1)
    ensures FieldsOf(lines[1..|fields| + 1], map[]) == Some(Collected(fields, map[]))
  {
    hide PrintLine, Printable, FieldsOf, Collected;
    var n := |fields| + 1;
    forall i | 1 <= i < n ensures lines[i].content != FENCE {
      var j := i - 1;
      assert lines[j + 1].content == PrintLine(fields[j]);
      PrintedLineIsPlain(fields[j]);
    }
    assert Closing(lines, 1) == n;
    PrintedFields(lines[1..n], fields, map[]);
    CollectedGrows(fields, map[]);
  }

  /** The lines of a printed page. */
  lemma PrintedPage(fields: seq<Field>, body: string)
    requires AllPrintable(fields)
    ensures var s, n := PrintPage(fields, body), |fields|;
      var lines := OnePass(s, 0);
      && n + 2 <= |lines| && |body| <= |s|
      && lines[0].content == FENCE && lines[n + 1] == LineOf(FENCE, |s| - |body|)
      && lines[n + 2..] == OnePass(s, |s| - |body|) && s[|s| - |body|..] == body
      && forall i :: 0 <= i < n ==> lines[i + 1].content == PrintLine(fields[i])
  {
    var s := PrintPage(fields, body);
    hide OnePass, PrintFields, IsSeparator, PrintLine, Printable;
    var rest := PrintFields(fields) + FENCE + "\n" + body;
    FenceIsPlain();
    assert s[0..] == FENCE + "\n" + rest;
    LineThen(s, 0, FENCE, rest);
    PrintedLines(s, 4, fields, body);
  }

  lemma PrintedBom(fields: seq<Field>, body: string, source: string)
    requires source == PrintPage(fields, body) || source == [BOM] + PrintPage(fields, body)
    ensures WithoutBom(source) == PrintPage(fields, body)
  {
    assert PrintPage(fields, body)[0] == '-';
  }

  lemma BodyIsFilled(s: string, body: string, lines: seq<LineOf>, n: nat)
    requires |body| <= |s| && s[|s| - |body|..] == body && (body == [] || !IsSeparator(body[0]))
    requires n <= |lines| && lines[n..] == OnePass(s, |s| - |body|)
    ensures FirstFilled(lines, n) == n
  {
    if body != [] {
      assert s[|s| - |body|] == body[0];
      FirstLineIsFilled(s, |s| - |body|);
      assert lines[n] == lines[n..][0];
    } else {
      NoLines(s);
    }
  }

  lemma MeansBlock(source: string, page: Page, lines: seq<LineOf>, closing: nat, fields: map<string, string>)
    requires Means(source, page) && lines == OnePass(WithoutBom(source), 0) && Block(lines) == Some(closing)
    requires FieldsOf(lines[1..closing], map[]) == Some(fields) && FirstFilled(lines, closing + 1) == closing + 1
    ensures lines[closing].separatorEnd <= |WithoutBom(source)|
    ensures page == Page(fields, WithoutBom(source)[lines[closing].separatorEnd..])
  {
    hide OnePass, FieldsOf, Block, FirstFilled;
  }

  /** Printing fields and a body and parsing the page, with or without a byte-order mark, gives
      the fields and exactly that body. */
  lemma PageRoundTrip(fields: seq<Field>, body: string, source: string, page: Page)
    requires fields != [] && AllPrintable(fields) && (body == [] || !IsSeparator(body[0]))
    requires source == PrintPage(fields, body) || source == [BOM] + PrintPage(fields, body)
    requires Means(source, page)
    ensures page == Page(Collected(fields, map[]), body)
  {
    hide *;
    var s, n := PrintPage(fields, body), |fields|;
    PrintedBom(fields, body, source);
    PrintedPage(fields, body);
    var lines := OnePass(s, 0);
    PrintedBlock(lines, fields);
    BodyIsFilled(s, body, lines, n + 2);
    MeansBlock(source, page, lines, n + 1, Collected(fields, map[]));
  }
}
