/** The query-relevant display window of one chunk. */
module Snippet {
  import opened Wrappers
  import opened Unicode
  import opened Lists

  // ----- whitespace collapsing ----------------------------------------------------------------

  /** Runs of whitespace become single spaces; none at either end. */
  function Collapsed(text: string): string {
    if text == [] then []
    else
      var init, c := text[..|text| - 1], text[|text| - 1];
      var before := Collapsed(init);
      if IsPythonWhitespace(c) then before
      else if before != [] && IsPythonWhitespace(init[|init| - 1]) then before + [' ', c]
      else before + [c]
  }

  /** `collapse_python_whitespace`. */
  method Collapse(text: string) returns (collapsed: string)
    ensures collapsed == Collapsed(text)
  {
    collapsed := [];
    var pendingSpace := false;
    for i := 0 to |text|
      invariant collapsed == Collapsed(text[..i])
      invariant pendingSpace == (collapsed != [] && IsPythonWhitespace(text[i - 1]))
    {
      assert text[..i + 1][..i] == text[..i];
      if IsPythonWhitespace(text[i]) {
        pendingSpace := collapsed != [];
      } else {
        if pendingSpace {
          collapsed := collapsed + [' '];
          pendingSpace := false;
        }
        collapsed := collapsed + [text[i]];
      }
    }
    assert text[..|text|] == text;
  }

  predicate AllWhitespace(gap: string) { forall i :: 0 <= i < |gap| ==> IsPythonWhitespace(gap[i]) }

  /** Whitespace between two parts becomes one space, unless one of them is blank. */
  function Spaced(before: string, after: string): string {
    if before == [] then after else if after == [] then before else before + " " + after
  }

  /** Words stay apart and stay whole. */
  lemma {:induction false} CollapseKeepsWords(a: string, gap: string, b: string)
    requires gap != [] && AllWhitespace(gap)
    ensures Collapsed(a + gap + b) == Spaced(Collapsed(a), Collapsed(b))
    decreases |b|
  {
    hide IsPythonWhitespace, Collapsed, Spaced;
    var all := a + gap + b;
    LastIsKept(b);
    if b == [] {
      assert all == a + gap;
      CollapsedGap(a, gap);
      SpacedMore(Collapsed(a), [], ' ');
    } else {
      var init, c := b[..|b| - 1], b[|b| - 1];
      var left := a + gap + init;
      assert all[..|all| - 1] == left && all[|all| - 1] == c;
      CollapseKeepsWords(a, gap, init);
      LastOfLeft(a, gap, init);
      LastIsKept(init);
      CollapsedStep(all);
      CollapsedStep(b);
      SpacedMore(Collapsed(a), Collapsed(init), c);
    }
  }

  lemma LastOfLeft(a: string, gap: string, init: string)
    requires gap != [] && AllWhitespace(gap)
    ensures var left := a + gap + init;
      IsPythonWhitespace(left[|left| - 1]) <==> init == [] || IsPythonWhitespace(init[|init| - 1])
  {
    hide IsPythonWhitespace;
    var left := a + gap + init;
    assert init == [] ==> left == a + gap;
  }

  lemma CollapsedStep(text: string)
    requires text != []
    ensures var init, c := text[..|text| - 1], text[|text| - 1];
      var before := Collapsed(init);
      Collapsed(text) ==
        if IsPythonWhitespace(c) then before
        else if before != [] && IsPythonWhitespace(init[|init| - 1]) then before + [' ', c]
        else before + [c]
  {
  }

  lemma LastIsKept(text: string)
    ensures text != [] && !IsPythonWhitespace(text[|text| - 1]) ==> Collapsed(text) != []
    ensures Collapsed([]) == []
  {
  }

  lemma SpacedMore(before: string, after: string, c: char)
    ensures Spaced(before, after + [c]) == if after == [] && before != [] then before + [' ', c]
                                           else Spaced(before, after) + [c]
    ensures after != [] ==> Spaced(before, after + [' ', c]) == Spaced(before, after) + [' ', c]
    ensures Spaced(before, []) == before && (Spaced(before, after) == [] <==> before == [] && after == [])
  {
    if before != [] {
      assert before + " " + (after + [c]) == before + " " + after + [c];
      assert before + " " + (after + [' ', c]) == before + " " + after + [' ', c];
      assert before + " " + [c] == before + [' ', c];
    }
    assert [] + [c] == [c];
  }

  lemma {:induction false} CollapsedGap(a: string, gap: string)
    requires AllWhitespace(gap)
    ensures Collapsed(a + gap) == Collapsed(a)
  {
    hide IsPythonWhitespace;
    if gap == [] {
      assert a + gap == a;
    } else {
      var n := |gap| - 1;
      assert (a + gap)[..|a + gap| - 1] == a + gap[..n];
      CollapsedGap(a, gap[..n]);
    }
  }

  lemma {:induction false} CollapsedWord(word: string)
    requires forall i :: 0 <= i < |word| ==> !IsPythonWhitespace(word[i])
    ensures Collapsed(word) == word
  {
    hide IsPythonWhitespace, Collapsed;
    LastIsKept(word);
    if word != [] {
      var n := |word| - 1;
      CollapsedWord(word[..n]);
      CollapsedStep(word);
      assert word == word[..n] + [word[n]];
    }
  }

  function Inked(text: string): string {
    Filter((c: char) => !IsPythonWhitespace(c), text)
  }

  /** Single inner spaces are the only whitespace. */
  predicate Tidy(r: string) {
    && (r != [] ==> !IsPythonWhitespace(r[0]) && !IsPythonWhitespace(r[|r| - 1]))
    && (forall i :: 0 <= i < |r| && IsPythonWhitespace(r[i]) ==> r[i] == ' ')
    && (forall i :: 0 < i < |r| && r[i] == ' ' ==> r[i - 1] != ' ')
  }

  lemma {:induction false} CollapsedIsTidy(text: string)
    ensures Tidy(Collapsed(text))
  {
    if text != [] {
      CollapsedIsTidy(text[..|text| - 1]);
    }
  }

  /** Collapsing keeps every visible character in order, and collapsing again changes nothing. */
  lemma {:induction false} CollapseKeepsText(text: string)
    ensures Inked(Collapsed(text)) == Inked(text)
    ensures Tidy(Collapsed(text)) && Collapsed(Collapsed(text)) == Collapsed(text)
  {
    CollapsedIsTidy(text);
    CollapsedTidy(Collapsed(text));
    InkedKept(text);
  }

  lemma {:induction false} InkedKept(text: string)
    ensures Inked(Collapsed(text)) == Inked(text)
  {
    if text != [] {
      var init, c := text[..|text| - 1], text[|text| - 1];
      var before := Collapsed(init);
      InkedKept(init);
      assert text == init + [c];
      assert Collapsed(text) == before || Collapsed(text) == before + [c] || Collapsed(text) == before + [' '] + [c];
      assert IsPythonWhitespace(' ') && (IsPythonWhitespace(c) ==> Collapsed(text) == before);
      assert !IsPythonWhitespace(c) ==> Collapsed(text) != before;
      hide Collapsed, IsPythonWhitespace;
      InkedAppend(init, c);
      InkedAppend(before, c);
      InkedAppend(before, ' ');
      InkedAppend(before + [' '], c);
    }
  }

  lemma InkedAppend(text: string, c: char)
    ensures Inked(text + [c]) == Inked(text) + if IsPythonWhitespace(c) then [] else [c]
  {
    FilterAppend((c: char) => !IsPythonWhitespace(c), text, c);
  }

  /** No whitespace at the start and only single spaces inside. */
  predicate TidyStart(text: string) {
    && (text == [] || !IsPythonWhitespace(text[0]))
    && (forall i :: 0 <= i < |text| && IsPythonWhitespace(text[i]) ==> text[i] == ' ')
    && (forall i :: 0 < i < |text| && text[i] == ' ' ==> text[i - 1] != ' ')
  }

  lemma TidyPrefix(text: string)
    requires TidyStart(text) && text != []
    ensures TidyStart(text[..|text| - 1])
    ensures text[|text| - 1] == ' ' || !IsPythonWhitespace(text[|text| - 1])
    ensures |text| == 1 ==> text[0] != ' '
    ensures |text| > 1 && text[|text| - 2] == ' ' ==> text[|text| - 1] != ' '
    ensures |text| > 1 && text[|text| - 2] != ' ' ==> !IsPythonWhitespace(text[|text| - 2])
  {
    assert IsPythonWhitespace(' ');
    hide IsPythonWhitespace;
  }

  lemma {:induction false} CollapsedTidy(text: string)
    requires TidyStart(text)
    ensures Collapsed(text) == if text != [] && text[|text| - 1] == ' ' then text[..|text| - 1] else text
  {
    assert IsPythonWhitespace(' ');
    hide IsPythonWhitespace, TidyStart;
    if text != [] {
      var init, c := text[..|text| - 1], text[|text| - 1];
      TidyPrefix(text);
      CollapsedTidy(init);
      assert text == init + [c];
      if |text| > 1 && init[|init| - 1] == ' ' {
        var start := init[..|init| - 1];
        assert init == start + [' '] && text == start + [' ', c];
      }
    }
  }

  // ----- windows ----------------------------------------------------------------------------------

  /** One past the last space of `text[lo..hi]`, or `lo` if there is none. */
  function AfterLastSpace(text: string, lo: nat, hi: nat): (r: nat)
    requires lo <= hi <= |text|
    ensures lo <= r <= hi
    ensures r > lo ==> text[r - 1] == ' '
    ensures forall i :: r <= i < hi ==> text[i] != ' '
    decreases hi
  {
    if hi == lo || text[hi - 1] == ' ' then hi else AfterLastSpace(text, lo, hi - 1)
  }

  datatype Window = Window(start: nat, end: nat)

  /** `snap`: move the start back to a word, then the end back to the last space if there is one. */
  function Snap(text: string, start: nat, width: nat): (w: Window)
    requires start <= |text|
    ensures w.start <= start && w.start <= w.end <= |text|
    ensures w.end - w.start <= width
    ensures w.start == 0 || text[w.start - 1] == ' '
    ensures forall i :: w.start <= i < start ==> text[i] != ' '
    ensures width > 0 && w.start < |text| ==> w.start < w.end
    ensures |text| <= w.start + width ==> w.end == |text|
    ensures w.end < |text| ==>
      text[w.end] == ' ' || (w.end == w.start + width && forall i :: w.start < i <= w.end ==> text[i] != ' ')
    ensures forall i :: w.end < i <= w.start + width && i < |text| ==> text[i] != ' '
  {
    var from := AfterLastSpace(text, 0, start);
    var to := Min(|text|, from + width);
    if to < |text| then
      var after := AfterLastSpace(text, from, to + 1);
      if after > from + 1 then Window(from, after - 1) else Window(from, to)
    else Window(from, to)
  }

  // ----- canonical terms ------------------------------------------------------------------------------

  datatype Term = Term(name: string, weight: real)

  datatype SnippetError =
    | ZeroWidth
    | InvalidGain
    | InvalidTerm(name: string)
    | InvalidWeight(name: string)
    | ConflictingWeight(name: string)

  predicate IsIdentifier(t: Tables, c: char) { t.alphanumeric(c) || c == '_' }

  function Lowered(t: Tables, name: string): string {
    if name == [] then [] else t.lowercase(name[0]) + Lowered(t, name[1..])
  }

  function LoweredTerms(t: Tables, terms: seq<Term>): (r: seq<Term>)
    ensures |r| == |terms| && forall i :: 0 <= i < |r| ==> r[i] == Term(Lowered(t, terms[i].name), terms[i].weight)
  {
    seq(|terms|, i requires 0 <= i < |terms| => Term(Lowered(t, terms[i].name), terms[i].weight))
  }

  /** Lowercasing works character by character. */
  lemma {:induction false} LoweredJoins(t: Tables, a: string, b: string)
    ensures Lowered(t, a + b) == Lowered(t, a) + Lowered(t, b)
    ensures forall c :: Lowered(t, [c]) == t.lowercase(c)
  {
    if a == [] {
      assert a + b == b;
    } else {
      assert (a + b)[1..] == a[1..] + b;
      LoweredJoins(t, a[1..], b);
    }
  }

  predicate ValidName(t: Tables, name: string) {
    |name| >= 2 && forall i :: 0 <= i < |name| ==> IsIdentifier(t, name[i])
  }

  predicate ValidTerm(t: Tables, term: Term) { ValidName(t, term.name) && 0.0 <= term.weight <= 1.0 }

  /** Every term is valid and equal names carry equal weights. */
  predicate Acceptable(t: Tables, terms: seq<Term>) {
    && (forall i :: 0 <= i < |terms| ==> ValidTerm(t, terms[i]))
    && (forall i, j :: 0 <= i < j < |terms| && Lowered(t, terms[i].name) == Lowered(t, terms[j].name) ==>
        terms[i].weight == terms[j].weight)
  }

  predicate NameLe(a: string, b: string) {
    a == [] || (b != [] && (a[0] < b[0] || (a[0] == b[0] && NameLe(a[1..], b[1..]))))
  }

  predicate TermLe(a: Term, b: Term) { NameLe(a.name, b.name) }

  function TermName(term: Term): string { term.name }

  /** The distinct lowercase terms by name: what the ordered map holds. */
  function Canonical(t: Tables, terms: seq<Term>): seq<Term> {
    Sort(TermLe, FirstBy(TermName, {}, LoweredTerms(t, terms)))
  }

  lemma {:induction false} NameLeTotal(a: string, b: string)
    ensures NameLe(a, b) || NameLe(b, a)
    ensures NameLe(a, b) && NameLe(b, a) ==> a == b
  {
    if a != [] && b != [] && a[0] == b[0] {
      NameLeTotal(a[1..], b[1..]);
      assert a == [a[0]] + a[1..] && b == [b[0]] + b[1..];
    }
  }

  lemma {:induction false} NameLeTransitive(a: string, b: string, c: string)
    requires NameLe(a, b) && NameLe(b, c)
    ensures NameLe(a, c)
  {
    if a != [] && a[0] == b[0] == c[0] {
      NameLeTransitive(a[1..], b[1..], c[1..]);
    }
  }

  lemma TermLeIsTotal()
    ensures TotalOrder(TermLe)
  {
    forall x: Term, y: Term ensures TermLe(x, y) || TermLe(y, x) {
      NameLeTotal(x.name, y.name);
    }
    forall x: Term, y: Term, z: Term | TermLe(x, y) && TermLe(y, z) ensures TermLe(x, z) {
      NameLeTransitive(x.name, y.name, z.name);
    }
  }

  /** Accepted terms become the same set of lowercase terms, strictly ordered by name. */
  lemma CanonicalIsStrict(t: Tables, terms: seq<Term>)
    requires Acceptable(t, terms)
    ensures var r := Canonical(t, terms);
      && (forall x :: x in r <==> x in LoweredTerms(t, terms))
      && (forall i, j :: 0 <= i < j < |r| ==> TermLe(r[i], r[j]) && r[i].name != r[j].name)
  {
    var lowered := LoweredTerms(t, terms);
    var first := FirstBy(TermName, {}, lowered);
    var r := Canonical(t, terms);
    FirstByMembers(TermName, {}, lowered);
    TermLeIsTotal();
    SortSorts(TermLe, first);
    SortKeepsDistinct(TermLe, TermName, first);
    CanonicalMembers(t, terms);
    hide Sort, FirstBy, NameLe, LoweredTerms, TotalOrder, Acceptable;
    assert forall i, j :: 0 <= i < j < |r| ==> TermName(r[i]) != TermName(r[j]);
  }

  lemma CanonicalMembers(t: Tables, terms: seq<Term>)
    requires Acceptable(t, terms)
    ensures forall x :: x in Canonical(t, terms) <==> x in LoweredTerms(t, terms)
  {
    var lowered := LoweredTerms(t, terms);
    var first := FirstBy(TermName, {}, lowered);
    FirstByMembers(TermName, {}, lowered);
    SortPermutes(TermLe, first);
    hide Sort, FirstBy, NameLe, Lowered;
    forall x | x in lowered ensures x in first {
      var i := FirstByCovers(TermName, {}, lowered, x);
      assert first[i] in lowered && TermName(first[i]) == TermName(x);
    }
  }

  /** What an ordered map by name holds: sorted, with each name once. */
  ghost predicate Strict(s: seq<Term>) { SortedBy(TermLe, s) && DistinctBy(TermName, s) }

  lemma StrictHeads(a: seq<Term>, b: seq<Term>)
    requires Strict(a) && Strict(b) && a != [] && b != [] && a[0] in b && b[0] in a
    ensures a[0] == b[0]
  {
    hide NameLe;
    var i :| 0 <= i < |b| && b[i] == a[0];
    var j :| 0 <= j < |a| && a[j] == b[0];
    NameLeTotal(a[0].name, a[0].name);
    NameLeTotal(b[0].name, b[0].name);
    NameLeTotal(a[0].name, b[0].name);
    assert i > 0 ==> TermLe(b[0], b[i]);
    assert j > 0 ==> TermLe(a[0], a[j]);
    assert TermName(a[j]) == TermName(a[0]);
  }

  /** Two such lists with the same members are equal. */
  lemma {:induction false} StrictIsUnique(a: seq<Term>, b: seq<Term>)
    requires Strict(a) && Strict(b) && forall x :: x in a <==> x in b
    ensures a == b
  {
    hide NameLe;
    assert a != [] ==> a[0] in a;
    assert b != [] ==> b[0] in b;
    if a != [] {
      StrictHeads(a, b);
      var first, ta, tb := a[0], a[1..], b[1..];
      forall x ensures x in ta <==> x in tb {
        StrictTail(a, x);
        StrictTail(b, x);
      }
      StrictIsUnique(ta, tb);
      assert a == [first] + ta && b == [first] + tb;
    }
  }

  lemma StrictTail(s: seq<Term>, x: Term)
    requires Strict(s) && s != []
    ensures x in s[1..] <==> x in s && x != s[0]
  {
    hide NameLe;
    if x in s[1..] {
      var i :| 0 <= i < |s[1..]| && s[1..][i] == x;
      assert s[i + 1] == x && TermName(s[0]) != TermName(s[i + 1]);
    }
    assert s == [s[0]] + s[1..];
  }

  function Named(terms: seq<Term>, name: string): Option<Term> {
    if terms == [] then None else if terms[0].name == name then Some(terms[0]) else Named(terms[1..], name)
  }

  lemma {:induction false} NamedFinds(terms: seq<Term>, name: string)
    ensures Named(terms, name).Some? ==> Named(terms, name).value in terms && Named(terms, name).value.name == name
    ensures Named(terms, name).None? ==> forall x :: x in terms ==> x.name != name
  {
    if terms != [] {
      NamedFinds(terms[1..], name);
      assert terms == [terms[0]] + terms[1..];
    }
  }

  lemma InsertTerm(terms: seq<Term>, x: Term)
    requires Strict(terms) && forall y :: y in terms ==> y.name != x.name
    ensures Strict(Insert(TermLe, x, terms))
    ensures forall y :: y in Insert(TermLe, x, terms) <==> y == x || y in terms
  {
    TermLeIsTotal();
    hide NameLe, TotalOrder;
    InsertSorts(TermLe, x, terms);
    InsertKeepsDistinct(TermLe, TermName, x, terms);
    InsertPermutes(TermLe, x, terms);
    hide Insert, SortedBy, DistinctBy;
    var r := Insert(TermLe, x, terms);
    forall y ensures y in r <==> y == x || y in terms {
      assert y in r <==> y in multiset(r);
      assert y in terms <==> y in multiset(terms);
    }
  }

  /** The terms accepted so far and the ordered map of them. */
  ghost predicate Collects(t: Tables, terms: seq<Term>, canonical: seq<Term>) {
    && Acceptable(t, terms)
    && Strict(canonical)
    && forall x :: x in canonical <==> x in LoweredTerms(t, terms)
  }

  /** One accepted term: its name is new, or known with the same weight. */
  lemma CollectsMore(t: Tables, terms: seq<Term>, canonical: seq<Term>, term: Term)
    requires Collects(t, terms, canonical)
    ensures var lowered := Term(Lowered(t, term.name), term.weight);
      var known := Named(canonical, lowered.name);
      && (Acceptable(t, terms + [term]) <==> ValidTerm(t, term) && (known.None? || known.value.weight == term.weight))
      && (Acceptable(t, terms + [term]) ==>
            Collects(t, terms + [term], if known.None? then Insert(TermLe, lowered, canonical) else canonical))
  {
    var lowered := Term(Lowered(t, term.name), term.weight);
    var known := Named(canonical, lowered.name);
    NamedFinds(canonical, lowered.name);
    if known.None? {
      InsertTerm(canonical, lowered);
    }
    AcceptsMore(t, terms, canonical, term);
    hide Strict, Insert, Lowered, Acceptable, ValidTerm;
    var all := LoweredTerms(t, terms + [term]);
    assert all == LoweredTerms(t, terms) + [lowered];
  }

  lemma AcceptsMore(t: Tables, terms: seq<Term>, canonical: seq<Term>, term: Term)
    requires Collects(t, terms, canonical)
    ensures var known := Named(canonical, Lowered(t, term.name));
      Acceptable(t, terms + [term]) <==> ValidTerm(t, term) && (known.None? || known.value.weight == term.weight)
  {
    hide Strict, Lowered, ValidTerm;
    var name, more := Lowered(t, term.name), terms + [term];
    NamedFinds(canonical, name);
    var n := |terms|;
    assert more[n] == term && forall i :: 0 <= i < n ==> more[i] == terms[i];
    assert forall i :: 0 <= i < n ==> LoweredTerms(t, terms)[i] in canonical;
    if Named(canonical, name).Some? {
      var i :| 0 <= i < n && LoweredTerms(t, terms)[i] == Named(canonical, name).value;
      assert Lowered(t, more[i].name) == Lowered(t, more[n].name);
    }
  }

  /** `validate_term`. */
  method ValidateTerm(t: Tables, name: string) returns (ok: bool)
    ensures ok <==> ValidName(t, name)
  {
    if |name| < 2 {
      return false;
    }
    for i := 0 to |name|
      invariant forall j :: 0 <= j < i ==> IsIdentifier(t, name[j])
    {
      if !(t.alphanumeric(name[i]) || name[i] == '_') {
        return false;
      }
    }
    ok := true;
  }

  /** `canonical_terms`, whose ordered map is a list kept in name order. */
  method CanonicalTerms(t: Tables, terms: seq<Term>) returns (r: Result<seq<Term>, SnippetError>)
    ensures r.Ok? <==> Acceptable(t, terms)
    ensures r.Ok? ==> r.value == Canonical(t, terms)
  {
    var canonical: seq<Term> := [];
    for i := 0 to |terms|
      invariant Collects(t, terms[..i], canonical)
    {
      hide Strict, Insert, Collects, Lowered, ValidName;
      var term := terms[i];
      assert terms[..i + 1] == terms[..i] + [term];
      PrefixAcceptable(t, terms, i + 1);
      CollectsMore(t, terms[..i], canonical, term);
      var valid := ValidateTerm(t, term.name);
      if !valid {
        return Err(InvalidTerm(term.name));
      }
      if !(0.0 <= term.weight <= 1.0) {
        return Err(InvalidWeight(term.name));
      }
      var name := Lowered(t, term.name);
      var known := Named(canonical, name);
      if known.None? {
        canonical := Insert(TermLe, Term(name, term.weight), canonical);
      } else if known.value.weight != term.weight {
        return Err(ConflictingWeight(name));
      }
    }
    assert terms[..|terms|] == terms;
    CanonicalIsStrict(t, terms);
    StrictIsUnique(canonical, Canonical(t, terms));
    r := Ok(canonical);
  }

  lemma PrefixAcceptable(t: Tables, terms: seq<Term>, n: nat)
    requires n <= |terms|
    ensures Acceptable(t, terms) ==> Acceptable(t, terms[..n])
  {
  }

  // ----- term spans -----------------------------------------------------------------------------------

  datatype Span = Span(start: nat, end: nat, term: nat)

  /** A whole-word, case-insensitive occurrence of the term. */
  predicate Occurs(t: Tables, text: string, term: Term, start: nat) {
    var end := start + |term.name|;
    && term.weight > 0.0
    && end <= |text|
    && (start == 0 || !IsIdentifier(t, text[start - 1]))
    && (end == |text| || !IsIdentifier(t, text[end]))
    && forall i :: 0 <= i < |term.name| ==> t.lowercase(text[start + i]) == t.lowercase(term.name[i])
  }

  predicate IsSpan(t: Tables, text: string, terms: seq<Term>, s: Span) {
    && s.term < |terms|
    && s.end == s.start + |terms[s.term].name|
    && Occurs(t, text, terms[s.term], s.start)
  }

  /** `term_spans` finds every occurrence of every weighted term, and nothing else. */
  method TermSpans(t: Tables, text: string, terms: seq<Term>) returns (spans: seq<Span>)
    ensures forall s :: s in spans <==> IsSpan(t, text, terms, s)
  {
    spans := [];
    for i := 0 to |terms|
      invariant forall s :: s in spans <==> IsSpan(t, text, terms, s) && s.term < i
    {
      if terms[i].weight > 0.0 && |terms[i].name| <= |text| {
        var length := |terms[i].name|;
        for start := 0 to |text| - length + 1
          invariant forall s :: s in spans <==>
            IsSpan(t, text, terms, s) && (s.term < i || (s.term == i && s.start < start))
        {
          if Occurs(t, text, terms[i], start) {
            spans := spans + [Span(start, start + length, i)];
          }
        }
      }
    }
  }

  predicate SpanLe(a: Span, b: Span) {
    a.start < b.start || (a.start == b.start && (a.end < b.end || (a.end == b.end && a.term <= b.term)))
  }

  // ----- scoring ------------------------------------------------------------------------------------------

  predicate Covers(w: Window, spans: seq<Span>, term: nat) {
    exists i :: 0 <= i < |spans| && spans[i].term == term && w.start <= spans[i].start && spans[i].end <= w.end
  }

  /** The total weight of the first `n` terms that have a span inside the window. */
  function Score(w: Window, terms: seq<Term>, spans: seq<Span>, n: nat): real
    requires n <= |terms|
  {
    if n == 0 then 0.0
    else Score(w, terms, spans, n - 1) + if Covers(w, spans, n - 1) then terms[n - 1].weight else 0.0
  }

  function WindowScore(w: Window, terms: seq<Term>, spans: seq<Span>): real {
    Score(w, terms, spans, |terms|)
  }

  function Centered(text: string, span: Span, width: nat): (r: nat)
    requires width <= |text| && span.start <= span.end
    ensures r <= |text| - width && r <= span.start
  {
    var size := span.end - span.start;
    var lead := if size <= width then (width - size) / 2 else 0;
    Min(if span.start >= lead then span.start - lead else 0, |text| - width)
  }

  /** A span that fits is centred, up to one character, unless the text ends too close to it. */
  lemma CenteredBalances(text: string, span: Span, width: nat)
    requires width <= |text| && span.start <= span.end <= |text| && span.end - span.start <= width
    ensures var r := Centered(text, span, width);
      && r <= span.start && span.end <= r + width
      && var before, after := span.start - r, r + width - span.end;
         && (r > 0 ==> before <= after + 1 || r == |text| - width)
         && (r > 0 && r < |text| - width ==> before <= after <= before + 1)
         && (r == 0 && r < |text| - width ==> before <= after)
         && (r == |text| - width && r > 0 ==> after <= before + 1)
  {
  }

  /** A window for a span that does not fit starts with it, or ends with the text. */
  lemma WideSpanStartsWindow(text: string, span: Span, width: nat)
    requires width <= |text| && span.start <= span.end && span.end - span.start > width
    ensures var r := Centered(text, span, width); r == span.start || (r == |text| - width && r < span.start)
  {
  }

  function Candidate(text: string, span: Span, width: nat): Window
    requires width <= |text| && span.start <= span.end
  {
    Snap(text, Centered(text, span, width), width)
  }

  /** Where the word begins in which the candidate is to start. */
  function WordStart(text: string, span: Span, width: nat): (r: nat)
    requires width <= |text| && span.start <= span.end
    ensures r <= |text|
  {
    AfterLastSpace(text, 0, Centered(text, span, width))
  }

  /** A candidate holds its span exactly when the span still fits after the window has moved back to a
      word, and the end is not moved back to a space before the end of the span. */
  lemma CandidateHoldsSpanExactlyWhen(text: string, span: Span, width: nat)
    requires width <= |text| && span.start <= span.end <= |text|
    ensures var w, from := Candidate(text, span, width), WordStart(text, span, width);
      w.start <= span.start && span.end <= w.end <==>
        && span.end <= from + width
        && (|| |text| <= from + width
            || (exists i :: span.end <= i <= from + width && i > from && text[i] == ' ')
            || (forall i :: from < i <= from + width ==> text[i] != ' '))
  {
    var centered := Centered(text, span, width);
    var w, from := Candidate(text, span, width), WordStart(text, span, width);
    assert w.start == from;
    if w.end < |text| && |text| > from + width && text[w.end] == ' ' && w.end > from {
      assert forall i :: w.end < i <= from + width ==> text[i] != ' ';
    }
  }

  // ----- what a score adds up -----------------------------------------------------------------------------

  /** A span can be missed although it fits: the window goes back to the start of the word it touches. */
  lemma CandidateCanMissSpan()
    ensures var text, span := "xxxxxxxx-ab cd", Span(9, 11, 0);
      && text[span.start..span.end] == "ab"
      && Candidate(text, span, 4) == Window(0, 4)
  {
    var text := "xxxxxxxx-ab cd";
    assert Centered(text, Span(9, 11, 0), 4) == 8;
    var w := Snap(text, 8, 4);
    assert forall i :: 0 <= i < 8 ==> text[i] == 'x';
    assert w.start == 0;
    assert w.end == 4;
  }

  /** A term is covered when an occurrence of it lies inside the window. */
  lemma CoversExactlyWhen(t: Tables, text: string, terms: seq<Term>, spans: seq<Span>, w: Window, k: nat)
    requires k < |terms| && forall x :: x in spans <==> IsSpan(t, text, terms, x)
    ensures Covers(w, spans, k) <==>
      exists start: nat :: w.start <= start && start + |terms[k].name| <= w.end && Occurs(t, text, terms[k], start)
  {
    hide Occurs;
    if Covers(w, spans, k) {
      var i :| 0 <= i < |spans| && spans[i].term == k && w.start <= spans[i].start && spans[i].end <= w.end;
      assert spans[i] in spans;
      assert Occurs(t, text, terms[k], spans[i].start);
    }
    forall start: nat | w.start <= start && start + |terms[k].name| <= w.end && Occurs(t, text, terms[k], start)
      ensures Covers(w, spans, k)
    {
      var span := Span(start, start + |terms[k].name|, k);
      assert span in spans;
      var i :| 0 <= i < |spans| && spans[i] == span;
    }
  }

  /** A window that covers no term scores nothing, and covering one more term adds exactly its weight. */
  lemma {:induction false} ScoresDiffer(v: Window, w: Window, terms: seq<Term>, spans: seq<Span>, k: nat, n: nat)
    requires k < n <= |terms| && Covers(w, spans, k) && !Covers(v, spans, k)
    requires forall i :: 0 <= i < n && i != k ==> (Covers(v, spans, i) <==> Covers(w, spans, i))
    ensures Score(w, terms, spans, n) == Score(v, terms, spans, n) + terms[k].weight
  {
    if k < n - 1 {
      ScoresDiffer(v, w, terms, spans, k, n - 1);
    } else {
      ScoresAgree(v, w, terms, spans, n - 1);
    }
  }

  lemma {:induction false} ScoresAgree(v: Window, w: Window, terms: seq<Term>, spans: seq<Span>, n: nat)
    requires n <= |terms| && forall i :: 0 <= i < n ==> (Covers(v, spans, i) <==> Covers(w, spans, i))
    ensures Score(w, terms, spans, n) == Score(v, terms, spans, n)
  {
    if n > 0 {
      ScoresAgree(v, w, terms, spans, n - 1);
    }
  }

  lemma {:induction false} NothingScoresNothing(w: Window, terms: seq<Term>, spans: seq<Span>, n: nat)
    requires n <= |terms| && forall i :: 0 <= i < n ==> !Covers(w, spans, i)
    ensures Score(w, terms, spans, n) == 0.0
  {
    if n > 0 {
      NothingScoresNothing(w, terms, spans, n - 1);
    }
  }

  /** A word that no identifier character touches is an occurrence; one inside a longer word is not. */
  lemma WholeWordsOccur(t: Tables, before: string, word: string, after: string, term: Term)
    requires |word| == |term.name| && term.weight > 0.0
    requires forall i :: 0 <= i < |word| ==> t.lowercase(word[i]) == t.lowercase(term.name[i])
    ensures Occurs(t, before + word + after, term, |before|) <==>
      && (before == [] || !(t.alphanumeric(before[|before| - 1]) || before[|before| - 1] == '_'))
      && (after == [] || !(t.alphanumeric(after[0]) || after[0] == '_'))
  {
    var text := before + word + after;
    assert forall i :: 0 <= i < |word| ==> text[|before| + i] == word[i];
  }

  // ----- the choice -----------------------------------------------------------------------------------------

  datatype Snippet = Snippet(text: string, clippedStart: bool, clippedEnd: bool)

  function Cut(text: string, w: Window): Snippet
    requires w.start <= w.end <= |text|
  {
    Snippet(text[w.start..w.end], w.start > 0, w.end < |text|)
  }

  /** Earlier spans first; of those that start together shorter ones first, then earlier terms. */
  predicate InOrder(spans: seq<Span>) {
    forall i, j :: 0 <= i < j < |spans| ==>
      || spans[i].start < spans[j].start
      || (spans[i].start == spans[j].start && spans[i].end < spans[j].end)
      || (spans[i].start == spans[j].start && spans[i].end == spans[j].end && spans[i].term <= spans[j].term)
  }

  predicate Ordered(spans: seq<Span>) { forall i :: 0 <= i < |spans| ==> spans[i].start <= spans[i].end }

  function CandidateScore(text: string, terms: seq<Term>, spans: seq<Span>, width: nat, i: nat): real
    requires width <= |text| && i < |spans| && Ordered(spans)
  {
    WindowScore(Candidate(text, spans[i], width), terms, spans)
  }

  /** The window is the head unless some candidate beats it by more than the gain, and then it is
      the earliest candidate of maximal score. */
  predicate Best(text: string, terms: seq<Term>, spans: seq<Span>, width: nat, gain: real, n: nat, w: Window)
    requires width <= |text| && n <= |spans| && Ordered(spans)
  {
    var head := Snap(text, 0, width);
    var bar := WindowScore(head, terms, spans) + gain;
    if forall i :: 0 <= i < n ==> CandidateScore(text, terms, spans, width, i) <= bar then w == head
    else
      exists c :: 0 <= c < n
        && w == Candidate(text, spans[c], width)
        && CandidateScore(text, terms, spans, width, c) > bar
        && (forall i :: 0 <= i < n ==> CandidateScore(text, terms, spans, width, i) <= CandidateScore(text, terms,
          spans, width, c))
        && (forall i :: 0 <= i < c ==> CandidateScore(text, terms, spans, width, i) < CandidateScore(text, terms,
          spans, width, c))
  }

  /** The candidate loop of `snippet`. */
  method Choose(text: string, terms: seq<Term>, spans: seq<Span>, width: nat, gain: real) returns (w: Window)
    requires width <= |text| && Ordered(spans) && gain >= 0.0
    ensures Best(text, terms, spans, width, gain, |spans|, w)
  {
    hide Snap, Centered, WindowScore, Candidate;
    var head := Snap(text, 0, width);
    var headScore := WindowScore(head, terms, spans);
    var bar := headScore + gain;
    w := head;
    var chosenScore := headScore;
    ghost var c: nat := |spans|;
    for i := 0 to |spans|
      invariant forall j :: 0 <= j < i ==>
        CandidateScore(text, terms, spans, width, j) <= (if c < i then chosenScore else bar)
      invariant c == |spans| ==> w == head && chosenScore == headScore
      invariant c == |spans| || c < i
      invariant c < i ==> w == Candidate(text, spans[c], width)
      invariant c < i ==> chosenScore == CandidateScore(text, terms, spans, width, c) > bar
      invariant c < i ==> forall j :: 0 <= j < c ==> CandidateScore(text, terms, spans, width, j) < chosenScore
    {
      var window := Candidate(text, spans[i], width);
      var score := WindowScore(window, terms, spans);
      if score > bar && score > chosenScore {
        chosenScore := score;
        w := window;
        c := i;
      }
    }
  }

  /** All the occurrences, by start, then end, then term name. */
  ghost predicate SpansOf(t: Tables, text: string, terms: seq<Term>, spans: seq<Span>) {
    InOrder(spans) && Ordered(spans) && forall x :: x in spans <==> IsSpan(t, text, terms, x)
  }

  method SortedSpans(t: Tables, text: string, terms: seq<Term>) returns (spans: seq<Span>)
    ensures SpansOf(t, text, terms, spans)
  {
    var found := TermSpans(t, text, terms);
    spans := Sort(SpanLe, found);
    SortPermutes(SpanLe, found);
    assert TotalOrder(SpanLe);
    SortSorts(SpanLe, found);
    hide Sort, TotalOrder, Occurs;
    assert InOrder(spans);
    forall i | 0 <= i < |spans| ensures spans[i].start <= spans[i].end {
      assert spans[i] in found;
    }
  }

  /** The snippet shows the chosen window, which starts a word and fits the width. */
  ghost predicate Shows(text: string, terms: seq<Term>, spans: seq<Span>, width: nat, gain: real, w: Window, s: Snippet)
    requires width <= |text| && Ordered(spans)
  {
    && w.start < w.end <= |text|
    && w.end - w.start <= width
    && (w.start == 0 || text[w.start - 1] == ' ')
    && text == text[..w.start] + s.text + text[w.end..] && |s.text| == w.end - w.start
    && (s.clippedStart <==> text[..w.start] != []) && (s.clippedEnd <==> text[w.end..] != [])
    && Best(text, terms, spans, width, gain, |spans|, w)
  }

  /** What a snippet of the collapsed text promises. */
  ghost predicate Faithful(t: Tables, text: string, terms: seq<Term>, width: nat, gain: real, s: Snippet) {
    if |text| <= width then s == Snippet(text, false, false)
    else exists w: Window, spans: seq<Span> ::
      SpansOf(t, text, terms, spans) && Shows(text, terms, spans, width, gain, w, s)
  }

  /** `snippet`. */
  method MakeSnippet(t: Tables, text: string, terms: seq<Term>, width: nat, gain: real)
    returns (r: Result<Snippet, SnippetError>)
    ensures r.Ok? <==> width > 0 && 0.0 <= gain <= 1.0 && Acceptable(t, terms)
    ensures r.Ok? ==> Faithful(t, Collapsed(text), Canonical(t, terms), width, gain, r.value)
  {
    hide *;
    if width == 0 {
      return Err(ZeroWidth);
    }
    if !(0.0 <= gain <= 1.0) {
      return Err(InvalidGain);
    }
    var canonical := CanonicalTerms(t, terms);
    if canonical.Err? {
      return Err(canonical.error);
    }
    var collapsed := Collapse(text);
    if |collapsed| <= width {
      ShortIsFaithful(t, collapsed, canonical.value, width, gain);
      return Ok(Snippet(collapsed, false, false));
    }
    var spans := SortedSpans(t, collapsed, canonical.value);
    OrderedSpans(t, collapsed, canonical.value, spans);
    var w := Choose(collapsed, canonical.value, spans, width, gain);
    WindowsFit(collapsed, canonical.value, spans, width, gain, w);
    CutIsFaithful(t, collapsed, canonical.value, spans, width, gain, w);
    r := Ok(Cut(collapsed, w));
  }

  lemma ShortIsFaithful(t: Tables, text: string, terms: seq<Term>, width: nat, gain: real)
    requires |text| <= width
    ensures Faithful(t, text, terms, width, gain, Snippet(text, false, false))
  {
  }

  lemma OrderedSpans(t: Tables, text: string, terms: seq<Term>, spans: seq<Span>)
    requires SpansOf(t, text, terms, spans)
    ensures Ordered(spans)
  {
  }

  lemma CutIsFaithful(t: Tables, text: string, terms: seq<Term>, spans: seq<Span>, width: nat, gain: real, w: Window)
    requires width < |text| && Ordered(spans) && SpansOf(t, text, terms, spans)
    requires w.start < w.end <= |text| && w.end - w.start <= width && (w.start == 0 || text[w.start - 1] == ' ')
    requires Best(text, terms, spans, width, gain, |spans|, w)
    ensures Faithful(t, text, terms, width, gain, Cut(text, w))
  {
    hide SpansOf, Best, Ordered;
    assert text == text[..w.start] + text[w.start..w.end] + text[w.end..];
    assert Shows(text, terms, spans, width, gain, w, Cut(text, w));
  }

  lemma WindowsFit(text: string, terms: seq<Term>, spans: seq<Span>, width: nat, gain: real, w: Window)
    requires 0 < width < |text| && Ordered(spans) && Best(text, terms, spans, width, gain, |spans|, w)
    ensures w.start <= w.end <= |text| && 0 < w.end - w.start <= width
    ensures w.start == 0 || text[w.start - 1] == ' '
  {
    hide Snap, Centered, WindowScore, Score;
  }
}
