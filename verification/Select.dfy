/** Exact-identifier rescue, result slots and the confidence gate. */
module Select {
  import opened Wrappers
  import opened Bytes
  import opened Lists
  import opened Rank

  // ----- identifiers --------------------------------------------------------------------------

  predicate IsDigit(b: Byte) { 48 <= b <= 57 }
  predicate IsUpper(b: Byte) { 65 <= b <= 90 }
  predicate IsLower(b: Byte) { 97 <= b <= 122 }
  predicate IsIdentifier(b: Byte) { IsDigit(b) || IsUpper(b) || IsLower(b) || b == 95 }

  /** The identifier bytes of the text are exactly the run from `a` to `b`. */
  predicate OneRun(text: Text, a: nat, b: nat) {
    a < b <= |text| && forall i :: 0 <= i < |text| ==> (IsIdentifier(text[i]) <==> a <= i < b)
  }

  function NextIdentifier(text: Text, from: nat): (i: nat)
    requires from <= |text|
    ensures from <= i <= |text|
    ensures forall j :: from <= j < i ==> !IsIdentifier(text[j])
    ensures i < |text| ==> IsIdentifier(text[i])
    decreases |text| - from
  {
    if from == |text| || IsIdentifier(text[from]) then from else NextIdentifier(text, from + 1)
  }

  function RunEnd(text: Text, from: nat): (i: nat)
    requires from <= |text|
    ensures from <= i <= |text|
    ensures forall j :: from <= j < i ==> IsIdentifier(text[j])
    ensures i < |text| ==> !IsIdentifier(text[i])
    decreases |text| - from
  {
    if from == |text| || !IsIdentifier(text[from]) then from else RunEnd(text, from + 1)
  }

  function SingleToken(query: Text): Option<Text> {
    var a := NextIdentifier(query, 0);
    var b := RunEnd(query, a);
    if a < b && NextIdentifier(query, b) == |query| then Some(query[a..b]) else None
  }

  /** A query has a single token exactly when its identifier bytes form one run. */
  lemma SingleTokenIsOneRun(query: Text)
    ensures SingleToken(query).Some? <==> exists a: nat, b: nat :: OneRun(query, a, b)
    ensures forall a: nat, b: nat :: OneRun(query, a, b) ==> SingleToken(query) == Some(query[a..b])
  {
    var a := NextIdentifier(query, 0);
    var b := RunEnd(query, a);
    forall c: nat, d: nat | OneRun(query, c, d) ensures c == a && d == b && NextIdentifier(query, b) == |query| {
      assert IsIdentifier(query[c]) && IsIdentifier(query[d - 1]);
      assert (d < |query| ==> !IsIdentifier(query[d])) && (b < |query| ==> !IsIdentifier(query[b]));
    }
    if SingleToken(query).Some? {
      assert OneRun(query, a, b);
    }
  }

  /** `single_ascii_identifier_token`: the scan that gives up at the second token. */
  method ScanSingleToken(query: Text) returns (r: Option<Text>)
    ensures r == SingleToken(query)
  {
    var tokens: seq<Text> := [];
    var start: Option<nat> := None;
    ghost var a: nat := NextIdentifier(query, 0);
    ghost var b: nat := RunEnd(query, a);
    ghost var c: nat := NextIdentifier(query, b);
    for index := 0 to |query|
      invariant tokens == if a < b < index then [query[a..b]] else []
      invariant start == if a < index <= b then Some(a) else if c < index then Some(c) else None
    {
      if IsIdentifier(query[index]) {
        if start.None? {
          start := Some(index);
        }
      } else if start.Some? {
        tokens := tokens + [query[start.value..index]];
        start := None;
        if |tokens| > 1 {
          return None;
        }
      }
    }
    if start.Some? {
      assert query[start.value..] == query[start.value..|query|];
      tokens := tokens + [query[start.value..]];
    }
    r := if |tokens| == 1 then Some(tokens[0]) else None;
  }

  /** An occurrence of the token that no identifier byte touches. */
  predicate OccursAt(text: Text, token: Text, start: nat) {
    && start + |token| <= |text|
    && text[start..start + |token|] == token
    && (start == 0 || !IsIdentifier(text[start - 1]))
    && (start + |token| == |text| || !IsIdentifier(text[start + |token|]))
  }

  predicate ContainsIdentifier(text: Text, token: Text) {
    exists start :: 0 <= start <= |text| && OccursAt(text, token, start)
  }

  /** A token between bytes that are not identifier bytes occurs there; one inside a longer identifier does
      not. */
  lemma WholeTokensOccur(before: Text, token: Text, after: Text)
    ensures OccursAt(before + token + after, token, |before|) <==>
      (before == [] || !IsIdentifier(before[|before| - 1])) && (after == [] || !IsIdentifier(after[0]))
  {
    var text := before + token + after;
    assert text[|before|..|before| + |token|] == token;
  }

  /** A text contains a token exactly when it is the token with other text around it, and what stands next
      to the token, if anything, is not an identifier byte. */
  ghost predicate StandsIn(text: Text, before: Text, token: Text, after: Text) {
    && text == before + token + after
    && (before == [] || !IdentifierByte(before[|before| - 1] as int))
    && (after == [] || !IdentifierByte(after[0] as int))
  }

  lemma ContainsExactlyWhen(text: Text, token: Text)
    ensures ContainsIdentifier(text, token) <==> exists before, after :: StandsIn(text, before, token, after)
  {
    hide OccursAt, StandsIn;
    if start :| 0 <= start <= |text| && OccursAt(text, token, start) {
      OccurrenceStands(text, token, start);
    }
    if before, after :| StandsIn(text, before, token, after) {
      StandingOccurs(text, before, token, after);
    }
  }

  lemma OccurrenceStands(text: Text, token: Text, start: nat)
    requires OccursAt(text, token, start)
    ensures start + |token| <= |text| && StandsIn(text, text[..start], token, text[start + |token|..])
  {
    assert text == text[..start] + token + text[start + |token|..];
  }

  lemma StandingOccurs(text: Text, before: Text, token: Text, after: Text)
    requires StandsIn(text, before, token, after)
    ensures |before| <= |text| && OccursAt(text, token, |before|)
  {
    WholeTokensOccur(before, token, after);
  }

  /** Identifier bytes are ASCII letters, digits and the underscore. */
  lemma IdentifiersAre(b: Byte)
    ensures IsIdentifier(b) <==> IdentifierByte(b as int)
  {
  }

  predicate IdentifierByte(b: int) {
    b == '_' as int || 'a' as int <= b <= 'z' as int || 'A' as int <= b <= 'Z' as int || '0' as int <= b <= '9' as int
  }

  /** `foo_bar`, `x1` and `camelCase` are narrow enough to rescue; `plain`, `Word` and `URL` are not. */
  lemma RescuableExamples()
    ensures Rescuable([102, 111, 111, 95, 98, 97, 114]) && Rescuable([120, 49])
    ensures Rescuable([99, 97, 109, 101, 108, 67, 97, 115, 101])
    ensures !Rescuable([112, 108, 97, 105, 110]) && !Rescuable([87, 111, 114, 100]) && !Rescuable([85, 82, 76])
  {
    var snake, short: Text := [102, 111, 111, 95, 98, 97, 114], [120, 49];
    var camel: Text := [99, 97, 109, 101, 108, 67, 97, 115, 101];
    assert snake[3] == 95 && IsDigit(short[1]) && IsUpper(camel[5]);
  }

  /** Some byte of the token makes it one: an underscore, a digit, or a capital after a small first letter. */
  ghost predicate RescuedBy(token: Text, before: Text, b: Byte, after: Text) {
    && token == before + [b] + after
    && (b as int == '_' as int || '0' as int <= b as int <= '9' as int
        || ('A' as int <= b as int <= 'Z' as int && before != [] && 'a' as int <= before[0] as int <= 'z' as int))
  }

  lemma RescuableExactlyWhen(token: Text)
    ensures Rescuable(token) <==> exists before, b, after :: RescuedBy(token, before, b, after)
  {
    RescuableAt(token);
    hide Rescuable;
    if i :| 0 <= i < |token| && RescuesAt(token, i) {
      SplitHere(token, i);
      assert RescuedBy(token, token[..i], token[i], token[i + 1..]);
    }
    if before, b, after :| RescuedBy(token, before, b, after) {
      assert token[|before|] == b;
      assert RescuesAt(token, |before|);
    }
  }

  predicate RescuesAt(token: Text, i: nat)
    requires i < |token|
  {
    token[i] == 95 || IsDigit(token[i]) || (i > 0 && IsUpper(token[i]) && IsLower(token[0]))
  }

  lemma RescuableAt(token: Text)
    ensures Rescuable(token) <==> exists i :: 0 <= i < |token| && RescuesAt(token, i)
  {
    if 95 in token {
      var i :| 0 <= i < |token| && token[i] == 95;
      assert RescuesAt(token, i);
    } else if i :| 0 <= i < |token| && (IsDigit(token[i]) || (i > 0 && IsUpper(token[i]) && IsLower(token[0]))) {
      assert RescuesAt(token, i);
    }
  }

  lemma SplitHere(token: Text, i: nat)
    requires i < |token|
    ensures token == token[..i] + [token[i]] + token[i + 1..]
  {
  }

  /** Underscore, digit or lower camel case: the tokens narrow enough to rescue. */
  predicate Rescuable(token: Text) {
    || 95 in token
    || (exists i :: 0 <= i < |token| && IsDigit(token[i]))
    || (token != [] && IsLower(token[0]) && exists i :: 1 <= i < |token| && IsUpper(token[i]))
  }

  datatype LiteralChunk = LiteralChunk(path: PageId, ordinal: nat, text: Text)
  datatype ExactMatch = ExactMatch(path: PageId, ordinal: nat)

  predicate LiteralLe(a: LiteralChunk, b: LiteralChunk) {
    a.path < b.path || (a.path == b.path && a.ordinal <= b.ordinal)
  }

  function Matches(token: Text, chunks: seq<LiteralChunk>): seq<LiteralChunk> {
    Sort(LiteralLe, Filter((c: LiteralChunk) => ContainsIdentifier(c.text, token), chunks))
  }

  /** `exact_identifier_match`. */
  function ExactIdentifierMatch(query: Text, leader: Option<PageId>, chunks: seq<LiteralChunk>): Option<ExactMatch> {
    match SingleToken(query)
    case None => None
    case Some(token) =>
      var matches := Matches(token, chunks);
      if !Rescuable(token) || matches == [] then None
      else if exists i :: 0 <= i < |matches| && matches[i].path != matches[0].path then None
      else if leader != Some(matches[0].path) then None
      else Some(ExactMatch(matches[0].path, matches[0].ordinal))
  }

  /** The page is the only one that contains the token, it leads the lexical ranking, and the
      chunk is its first that does. */
  predicate IsRescue(token: Text, leader: Option<PageId>, chunks: seq<LiteralChunk>, m: ExactMatch) {
    && Rescuable(token)
    && leader == Some(m.path)
    && (exists c :: c in chunks && ContainsIdentifier(c.text, token) && c.path == m.path && c.ordinal == m.ordinal)
    && (forall c :: c in chunks && ContainsIdentifier(c.text, token) ==> c.path == m.path && m.ordinal <= c.ordinal)
  }

  lemma LiteralLeIsTotal()
    ensures TotalOrder(LiteralLe)
  {
  }

  lemma MatchesAre(token: Text, chunks: seq<LiteralChunk>)
    ensures var matches := Matches(token, chunks);
      && (forall c :: c in matches <==> c in chunks && ContainsIdentifier(c.text, token))
      && (forall i :: 0 <= i < |matches| ==> LiteralLe(matches[0], matches[i]))
  {
    var holds := (c: LiteralChunk) => ContainsIdentifier(c.text, token);
    FilterMembers(holds, chunks);
    SortPermutes(LiteralLe, Filter(holds, chunks));
    LiteralLeIsTotal();
    SortSorts(LiteralLe, Filter(holds, chunks));
    hide Sort, Filter, TotalOrder, ContainsIdentifier;
  }

  /** The rescue fires exactly when a unique leading page contains the query's one token. */
  lemma ExactMatchMeaning(query: Text, leader: Option<PageId>, chunks: seq<LiteralChunk>, m: ExactMatch)
    ensures ExactIdentifierMatch(query, leader, chunks) == Some(m)
       <==> SingleToken(query).Some? && IsRescue(SingleToken(query).value, leader, chunks, m)
  {
    hide Matches, Rescuable, ContainsIdentifier, SingleToken;
    if SingleToken(query).Some? {
      var token := SingleToken(query).value;
      var matches := Matches(token, chunks);
      MatchesAre(token, chunks);
      if matches != [] {
        assert matches[0] in matches;
        assert forall i :: 0 <= i < |matches| ==> matches[i] in matches;
      }
    }
  }

  // ----- slots -----------------------------------------------------------------------------------

  datatype ExitCode = ExitOk | ExitEmpty | ExitUnsure

  datatype Config = Config(limit: nat, minScore: real, maxGap: real, apply: bool)

  predicate ValidConfig(cfg: Config) { -1.0 <= cfg.minScore <= 1.0 && cfg.maxGap >= 0.0 }

  datatype SelectedChunk = SelectedChunk(ordinal: nat, text: Text)

  datatype Explanation = Explanation(
    denseRank: Option<nat>, bm25Rank: Option<nat>, rrf: Option<real>, contributions: seq<Contribution>)

  datatype RankedHit = RankedHit(
    path: PageId,
    denseChunk: SelectedChunk,
    lexicalChunk: Option<SelectedChunk>,
    score: real,
    finalRank: nat,
    explanation: Explanation)

  datatype SelectedHit = SelectedHit(path: PageId, chunk: SelectedChunk, score: real, exact: bool,
                                     explanation: Explanation)

  predicate RankedLe(a: RankedHit, b: RankedHit) {
    || a.finalRank < b.finalRank
    || (a.finalRank == b.finalRank && a.path < b.path)
    || (a.finalRank == b.finalRank && a.path == b.path && a.denseChunk.ordinal <= b.denseChunk.ordinal)
  }

  function RankedPath(h: RankedHit): PageId { h.path }

  /** The literal chunk an exact match points at, if it is still there. */
  function LiteralText(chunks: seq<LiteralChunk>, m: ExactMatch): Option<SelectedChunk> {
    if chunks == [] then None
    else if chunks[0].path == m.path && chunks[0].ordinal == m.ordinal then
      Some(SelectedChunk(chunks[0].ordinal, chunks[0].text))
    else LiteralText(chunks[1..], m)
  }

  function Chosen(hit: RankedHit, exact: Option<ExactMatch>, chunks: seq<LiteralChunk>): SelectedHit {
    var literal :=
      if exact.Some? && exact.value.path == hit.path then LiteralText(chunks, exact.value) else None;
    var chunk :=
      if literal.Some? then literal.value
      else if hit.lexicalChunk.Some? then hit.lexicalChunk.value
      else hit.denseChunk;
    SelectedHit(hit.path, chunk, hit.score, false, hit.explanation)
  }

  /** One hit per page in final-rank order. */
  function Selected(ranked: seq<RankedHit>, exact: Option<ExactMatch>, chunks: seq<LiteralChunk>): (r: seq<SelectedHit>)
    ensures var ordered := FirstBy(RankedPath, {}, Sort(RankedLe, ranked));
      |r| == |ordered| && forall i :: 0 <= i < |r| ==> r[i] == Chosen(ordered[i], exact, chunks)
  {
    var ordered := FirstBy(RankedPath, {}, Sort(RankedLe, ranked));
    seq(|ordered|, i requires 0 <= i < |ordered| => Chosen(ordered[i], exact, chunks))
  }

  function PositionOf(hits: seq<SelectedHit>, path: PageId): (i: nat)
    ensures i <= |hits| && (i < |hits| ==> hits[i].path == path)
    ensures forall j :: 0 <= j < i ==> hits[j].path != path
  {
    if hits == [] || hits[0].path == path then 0 else 1 + PositionOf(hits[1..], path)
  }

  /** The slots: the first hits, with the exact page marked and, if it fell outside, swapped
      into the last slot. */
  function Shown(selected: seq<SelectedHit>, exact: Option<ExactMatch>, limit: nat): seq<SelectedHit> {
    var first := Take(selected, limit);
    if limit == 0 || exact.None? || PositionOf(selected, exact.value.path) == |selected| then first
    else
      var marked := selected[PositionOf(selected, exact.value.path)].(exact := true);
      var at := PositionOf(first, exact.value.path);
      if at < |first| then first[at := first[at].(exact := true)]
      else if |first| == limit then first[..|first| - 1] + [marked]
      else first + [marked]
  }

  predicate NoneExact(hits: seq<SelectedHit>) { forall i :: 0 <= i < |hits| ==> !hits[i].exact }

  predicate Has(hits: seq<SelectedHit>, path: PageId) { exists i :: 0 <= i < |hits| && hits[i].path == path }

  predicate HasExact(hits: seq<SelectedHit>, path: PageId) {
    exists i :: 0 <= i < |hits| && hits[i].path == path && hits[i].exact
  }

  /** The slots never exceed the limit, are filled whenever anything was ranked, mark nothing but
      the matched page, and always hold it when it was ranked. */
  lemma ShownIsBounded(selected: seq<SelectedHit>, exact: Option<ExactMatch>, limit: nat)
    requires NoneExact(selected)
    ensures var shown := Shown(selected, exact, limit);
      && |shown| == |Take(selected, limit)|
      && (forall i :: 0 <= i < |shown| ==> exists j :: 0 <= j < |selected| && shown[i].(exact := false) == selected[j])
      && (forall i :: 0 <= i < |shown| && shown[i].exact ==> exact.Some? && shown[i].path == exact.value.path)
      && (limit > 0 && exact.Some? && Has(selected, exact.value.path) ==> HasExact(shown, exact.value.path))
  {
    var shown := Shown(selected, exact, limit);
    var first := Take(selected, limit);
    if limit > 0 && exact.Some? {
      var path := exact.value.path;
      var position := PositionOf(selected, path);
      var at := PositionOf(first, path);
      if position < |selected| {
        if at < |first| {
          assert shown[at].path == path && shown[at].exact;
        } else {
          assert |selected| <= limit ==> first == selected;
          assert shown[|shown| - 1].path == path && shown[|shown| - 1].exact;
        }
      }
    }
    forall i | 0 <= i < |shown| ensures exists j :: 0 <= j < |selected| && shown[i].(exact := false) == selected[j] {
      var j := if exact.Some? && shown[i].path == exact.value.path then PositionOf(selected, exact.value.path) else i;
      if shown[i].exact {
        assert shown[i].(exact := false) == selected[j];
      } else {
        assert shown[i].(exact := false) == selected[i];
      }
    }
  }

  // ----- the gate ---------------------------------------------------------------------------------

  datatype GateHit = GateHit(path: PageId, score: real)

  datatype GateVerdict = GateVerdict(
    noHits: bool,
    floorFired: bool,
    top: Option<real>,
    floorDropped: seq<GateHit>,
    gapDropped: seq<GateHit>,
    rescued: seq<GateHit>)

  /** The largest score, zero for no hits. */
  function Anchor(hits: seq<SelectedHit>): (m: real)
    ensures forall i :: 0 <= i < |hits| ==> hits[i].score <= m
    ensures hits != [] ==> exists i :: 0 <= i < |hits| && hits[i].score == m
  {
    if hits == [] then 0.0
    else
      var last := hits[|hits| - 1].score;
      var init := hits[..|hits| - 1];
      if init != [] && Anchor(init) >= last then
        var i :| 0 <= i < |init| && init[i].score == Anchor(init);
        assert hits[i].score == Anchor(init);
        Anchor(init)
      else
        assert hits[|hits| - 1].score == last;
        last
  }

  function Top(hits: seq<SelectedHit>): Option<real> { if hits == [] then None else Some(Anchor(hits)) }

  function Named(hits: seq<SelectedHit>): (r: seq<GateHit>)
    ensures |r| == |hits| && forall i :: 0 <= i < |r| ==> r[i] == GateHit(hits[i].path, hits[i].score)
  {
    seq(|hits|, i requires 0 <= i < |hits| => GateHit(hits[i].path, hits[i].score))
  }

  /** The hit survives on its score alone. */
  predicate Scores(hit: SelectedHit, baseline: real, anchor: real, cfg: Config) {
    baseline >= cfg.minScore && hit.score >= anchor - cfg.maxGap
  }

  predicate Keeps(hit: SelectedHit, baseline: real, anchor: real, cfg: Config) {
    hit.exact || Scores(hit, baseline, anchor, cfg)
  }

  function Kept(hits: seq<SelectedHit>, baseline: real, cfg: Config): seq<SelectedHit> {
    var anchor := Anchor(hits);
    Filter((h: SelectedHit) => Keeps(h, baseline, anchor, cfg), hits)
  }

  function Dropped(hits: seq<SelectedHit>, baseline: real, cfg: Config): seq<SelectedHit> {
    var anchor := Anchor(hits);
    Filter((h: SelectedHit) => !Keeps(h, baseline, anchor, cfg), hits)
  }

  function Rescued(hits: seq<SelectedHit>, baseline: real, cfg: Config): seq<SelectedHit> {
    var anchor := Anchor(hits);
    Filter((h: SelectedHit) => h.exact && !Scores(h, baseline, anchor, cfg), hits)
  }

  function Verdict(hits: seq<SelectedHit>, baseline: real, cfg: Config): GateVerdict {
    var floor := hits != [] && baseline < cfg.minScore;
    GateVerdict(
      hits == [], floor, Top(Kept(hits, baseline, cfg)),
      if floor then Named(Dropped(hits, baseline, cfg)) else [],
      if floor then [] else Named(Dropped(hits, baseline, cfg)),
      Named(Rescued(hits, baseline, cfg)))
  }

  /** `apply_gate`: one loop for each branch of the floor test. */
  method ApplyGate(hits: seq<SelectedHit>, baseline: real, cfg: Config)
    returns (kept: seq<SelectedHit>, verdict: GateVerdict)
    ensures kept == Kept(hits, baseline, cfg) && verdict == Verdict(hits, baseline, cfg)
  {
    if hits == [] {
      return [], GateVerdict(true, false, None, [], [], []);
    }
    var anchor := MaximumScore(hits);
    var keep := (h: SelectedHit) => Keeps(h, baseline, anchor, cfg);
    var drop := (h: SelectedHit) => !Keeps(h, baseline, anchor, cfg);
    var rescue := (h: SelectedHit) => h.exact && !Scores(h, baseline, anchor, cfg);
    var dropped, rescued: seq<SelectedHit> := [], [];
    kept := [];
    for i := 0 to |hits|
      invariant kept == Filter(keep, hits[..i])
      invariant dropped == Filter(drop, hits[..i])
      invariant rescued == Filter(rescue, hits[..i])
    {
      hide Filter;
      var hit := hits[i];
      assert hits[..i + 1] == hits[..i] + [hit];
      FilterAppend(keep, hits[..i], hit);
      FilterAppend(drop, hits[..i], hit);
      FilterAppend(rescue, hits[..i], hit);
      if baseline < cfg.minScore {
        if hit.exact {
          rescued := rescued + [hit];
          kept := kept + [hit];
        } else {
          dropped := dropped + [hit];
        }
      } else {
        var passes := hit.score >= anchor - cfg.maxGap;
        if passes || hit.exact {
          if !passes {
            rescued := rescued + [hit];
          }
          kept := kept + [hit];
        } else {
          dropped := dropped + [hit];
        }
      }
    }
    assert hits[..|hits|] == hits;
    var floor := baseline < cfg.minScore;
    verdict := GateVerdict(false, floor, Top(kept), if floor then Named(dropped) else [],
                           if floor then [] else Named(dropped), Named(rescued));
  }

  method MaximumScore(hits: seq<SelectedHit>) returns (m: real)
    requires hits != []
    ensures m == Anchor(hits)
  {
    m := hits[0].score;
    for i := 1 to |hits|
      invariant m == Anchor(hits[..i])
    {
      assert hits[..i + 1][..i] == hits[..i];
      if hits[i].score >= m {
        m := hits[i].score;
      }
    }
    assert hits[..|hits|] == hits;
  }

  /** Every shown hit is kept or dropped, once and in order, and a rescue is always kept. */
  lemma GatePartitions(hits: seq<SelectedHit>, baseline: real, cfg: Config)
    ensures multiset(Kept(hits, baseline, cfg)) + multiset(Dropped(hits, baseline, cfg)) == multiset(hits)
    ensures Subsequence(Kept(hits, baseline, cfg), hits) && Subsequence(Dropped(hits, baseline, cfg), hits)
    ensures Subsequence(Rescued(hits, baseline, cfg), Kept(hits, baseline, cfg))
    ensures forall h :: h in Dropped(hits, baseline, cfg) ==> !h.exact
  {
    var anchor := Anchor(hits);
    var keep := (h: SelectedHit) => Keeps(h, baseline, anchor, cfg);
    var drop := (h: SelectedHit) => !Keeps(h, baseline, anchor, cfg);
    var rescue := (h: SelectedHit) => h.exact && !Scores(h, baseline, anchor, cfg);
    FilterSplits(keep, drop, hits);
    FilterIsSubsequence(keep, hits);
    FilterIsSubsequence(drop, hits);
    FilterMonotone(rescue, keep, hits);
    FilterMembers(drop, hits);
    hide Filter, Subsequence;
  }

  /** A shown hit is kept exactly when it is exact, or the baseline reaches the floor and no shown hit
      scores more than the gap above it. */
  lemma KeptExactlyWhen(hits: seq<SelectedHit>, baseline: real, cfg: Config, h: SelectedHit)
    requires h in hits
    ensures h in Kept(hits, baseline, cfg) <==>
      h.exact || (baseline >= cfg.minScore && forall g :: g in hits ==> g.score - h.score <= cfg.maxGap)
    ensures h in Dropped(hits, baseline, cfg) <==> h !in Kept(hits, baseline, cfg)
  {
    var anchor := Anchor(hits);
    FilterMembers((g: SelectedHit) => Keeps(g, baseline, anchor, cfg), hits);
    FilterMembers((g: SelectedHit) => !Keeps(g, baseline, anchor, cfg), hits);
    hide Filter;
    var best :| 0 <= best < |hits| && hits[best].score == anchor;
    assert hits[best] in hits;
    forall g | g in hits ensures g.score <= anchor {
      var i :| 0 <= i < |hits| && hits[i] == g;
    }
  }

  /** The verdict names every dropped hit once and in order, under the rule that dropped it, every exact
      hit that would have been dropped otherwise, and the best score that is left. */
  lemma VerdictTells(hits: seq<SelectedHit>, baseline: real, cfg: Config)
    ensures var v, dropped := Verdict(hits, baseline, cfg), Dropped(hits, baseline, cfg);
      && (v.noHits <==> hits == [])
      && (v.floorFired <==> hits != [] && baseline < cfg.minScore)
      && v.floorDropped + v.gapDropped == Named(dropped)
      && (v.floorFired ==> v.gapDropped == []) && (!v.floorFired ==> v.floorDropped == [])
      && (forall h :: h in hits ==> (h in Rescued(hits, baseline, cfg) <==>
            h.exact && (baseline < cfg.minScore || exists g :: g in hits && g.score - h.score > cfg.maxGap)))
      && v.rescued == Named(Rescued(hits, baseline, cfg))
      && (v.top.Some? <==> Kept(hits, baseline, cfg) != [])
      && (v.top.Some? ==> (exists g :: g in Kept(hits, baseline, cfg) && g.score == v.top.value)
                          && forall g :: g in Kept(hits, baseline, cfg) ==> g.score <= v.top.value)
  {
    var anchor, kept := Anchor(hits), Kept(hits, baseline, cfg);
    FilterMembers((h: SelectedHit) => h.exact && !Scores(h, baseline, anchor, cfg), hits);
    hide Filter, Kept, Dropped;
    forall g | g in hits ensures g.score <= anchor {
      var i :| 0 <= i < |hits| && hits[i] == g;
    }
    if hits != [] {
      var best :| 0 <= best < |hits| && hits[best].score == anchor;
      assert hits[best] in hits;
    }
    if kept != [] {
      var best :| 0 <= best < |kept| && kept[best].score == Anchor(kept);
      assert kept[best] in kept;
      forall g | g in kept ensures g.score <= Anchor(kept) {
        var i :| 0 <= i < |kept| && kept[i] == g;
      }
    }
  }

  /** Raising the gap or lowering the floor only keeps more, in the same order. */
  lemma GateIsMonotone(hits: seq<SelectedHit>, baseline: real, strict: Config, lenient: Config)
    requires strict.maxGap <= lenient.maxGap && lenient.minScore <= strict.minScore
    ensures Subsequence(Kept(hits, baseline, strict), Kept(hits, baseline, lenient))
  {
    var anchor := Anchor(hits);
    FilterMonotone((h: SelectedHit) => Keeps(h, baseline, anchor, strict),
                   (h: SelectedHit) => Keeps(h, baseline, anchor, lenient), hits);
  }

  /** The gate leaves nothing exactly when the floor fires and no shown hit is exact. */
  lemma GateEmptiesExactlyWhen(hits: seq<SelectedHit>, baseline: real, cfg: Config)
    requires ValidConfig(cfg) && hits != []
    ensures Kept(hits, baseline, cfg) == [] <==> baseline < cfg.minScore && NoneExact(hits)
  {
    var anchor := Anchor(hits);
    var keep := (h: SelectedHit) => Keeps(h, baseline, anchor, cfg);
    FilterMembers(keep, hits);
    hide Filter;
    var best :| 0 <= best < |hits| && hits[best].score == anchor;
    assert hits[best] in hits;
    var kept := Kept(hits, baseline, cfg);
    if kept != [] {
      assert kept[0] in kept;
      var i :| 0 <= i < |hits| && hits[i] == kept[0];
    } else {
      assert forall i :: 0 <= i < |hits| ==> hits[i] in hits && hits[i] !in kept;
    }
  }

  /** An exact hit survives every gate. */
  lemma ExactSurvives(hits: seq<SelectedHit>, baseline: real, cfg: Config, path: PageId)
    requires HasExact(hits, path)
    ensures HasExact(Kept(hits, baseline, cfg), path)
  {
    var anchor := Anchor(hits);
    var keep := (h: SelectedHit) => Keeps(h, baseline, anchor, cfg);
    FilterMembers(keep, hits);
    hide Filter;
    var i :| 0 <= i < |hits| && hits[i].path == path && hits[i].exact;
    assert hits[i] in hits && keep(hits[i]);
    assert hits[i] in Kept(hits, baseline, cfg);
  }

  // ----- selection --------------------------------------------------------------------------------------

  datatype SelectionError =
    MissingBaseline | InvalidRankSignal(path: PageId) | MinScoreOutsideCosineRange | NegativeMaxGap

  datatype Outcome = Outcome(hits: seq<SelectedHit>, applied: bool, gate: Option<GateVerdict>, exit: ExitCode)

  predicate ValidContribution(c: Contribution) { c.rank != 0 && c.weight >= 0.0 }

  predicate ValidHit(h: RankedHit) {
    && h.finalRank != 0
    && h.explanation.denseRank != Some(0)
    && h.explanation.bm25Rank != Some(0)
    && forall i :: 0 <= i < |h.explanation.contributions| ==> ValidContribution(h.explanation.contributions[i])
  }

  /** The hits before the gate. */
  function Slots(query: Text, ranked: seq<RankedHit>, chunks: seq<LiteralChunk>, leader: Option<PageId>,
                 limit: nat): seq<SelectedHit> {
    var exact := ExactIdentifierMatch(query, leader, chunks);
    Shown(Selected(ranked, exact, chunks), exact, limit)
  }

  function Concluded(shown: seq<SelectedHit>, baseline: Option<real>, cfg: Config): Outcome {
    var gated := if baseline.Some? then Kept(shown, baseline.value, cfg) else [];
    var hits := if cfg.apply then gated else shown;
    Outcome(hits, cfg.apply,
            if baseline.Some? then Some(Verdict(shown, baseline.value, cfg)) else None,
            if hits != [] then ExitOk else if baseline.None? then ExitEmpty else ExitUnsure)
  }

  predicate Selectable(baseline: Option<real>, ranked: seq<RankedHit>) {
    (forall i :: 0 <= i < |ranked| ==> ValidHit(ranked[i])) && (baseline.None? ==> ranked == [])
  }

  function FirstInvalid(ranked: seq<RankedHit>): (i: nat)
    ensures i <= |ranked| && (i < |ranked| ==> !ValidHit(ranked[i]))
    ensures forall j :: 0 <= j < i ==> ValidHit(ranked[j])
  {
    if ranked == [] || !ValidHit(ranked[0]) then 0 else 1 + FirstInvalid(ranked[1..])
  }

  /** The fault of a refused selection: the first invalid hit, or the missing baseline. */
  function Fault(ranked: seq<RankedHit>): SelectionError {
    var i := FirstInvalid(ranked);
    if i < |ranked| then InvalidRankSignal(ranked[i].path) else MissingBaseline
  }

  /** The slot changes of `select`, made in place; appending is never needed, because a page
      outside the slots means that they are full. */
  method FillSlots(selected: seq<SelectedHit>, exact: Option<ExactMatch>, limit: nat) returns (shown: seq<SelectedHit>)
    ensures shown == Shown(selected, exact, limit)
  {
    shown := Take(selected, limit);
    if limit > 0 && exact.Some? {
      var position := PositionOf(selected, exact.value.path);
      if position < |selected| {
        var at := PositionOf(shown, exact.value.path);
        if at < |shown| {
          shown := shown[at := shown[at].(exact := true)];
        } else if |shown| == limit {
          shown := shown[..|shown| - 1];
          shown := shown + [selected[position].(exact := true)];
        } else {
          assert false;
        }
      }
    }
  }

  /** `validate_hit`. */
  method ValidateHit(hit: RankedHit) returns (r: Result<(), SelectionError>)
    ensures r == if ValidHit(hit) then Ok(()) else Err(InvalidRankSignal(hit.path))
  {
    var e := hit.explanation;
    var invalid := hit.finalRank == 0 || e.denseRank == Some(0) || e.bm25Rank == Some(0);
    for i := 0 to |e.contributions|
      invariant !invalid ==> hit.finalRank != 0 && e.denseRank != Some(0) && e.bm25Rank != Some(0)
      invariant !invalid ==> forall j :: 0 <= j < i ==> ValidContribution(e.contributions[j])
      invariant invalid ==> !ValidHit(hit)
    {
      if e.contributions[i].rank == 0 || e.contributions[i].weight < 0.0 {
        assert !ValidContribution(e.contributions[i]);
        invalid := true;
      }
    }
    r := if invalid then Err(InvalidRankSignal(hit.path)) else Ok(());
  }

  /** `SelectionConfig::new`. */
  function NewConfig(limit: nat, minScore: real, maxGap: real, apply: bool): (r: Result<Config, SelectionError>)
    ensures r.Ok? <==> ValidConfig(Config(limit, minScore, maxGap, apply))
    ensures r.Ok? ==> r.value == Config(limit, minScore, maxGap, apply)
  {
    if !(-1.0 <= minScore <= 1.0) then Err(MinScoreOutsideCosineRange)
    else if maxGap < 0.0 then Err(NegativeMaxGap)
    else Ok(Config(limit, minScore, maxGap, apply))
  }

  /** `select`. */
  method Select(query: Text, baseline: Option<real>, ranked: seq<RankedHit>, chunks: seq<LiteralChunk>,
                leader: Option<PageId>, cfg: Config)
    returns (r: Result<Outcome, SelectionError>)
    ensures r.Ok? <==> Selectable(baseline, ranked)
    ensures r.Ok? ==> r.value == Concluded(Slots(query, ranked, chunks, leader, cfg.limit), baseline, cfg)
    ensures r.Err? ==> r.error == Fault(ranked)
  {
    hide FirstInvalid;
    for i := 0 to |ranked|
      invariant forall j :: 0 <= j < i ==> ValidHit(ranked[j])
    {
      var checked := ValidateHit(ranked[i]);
      if checked.Err? {
        return Err(checked.error);
      }
    }
    if baseline.None? && ranked != [] {
      return Err(MissingBaseline);
    }
    hide ExactIdentifierMatch, Selected, Shown, Kept, Verdict, ValidHit;
    var exact := ExactIdentifierMatch(query, leader, chunks);
    var shown := FillSlots(Selected(ranked, exact, chunks), exact, cfg.limit);
    var gated: seq<SelectedHit>, gate := [], None;
    if baseline.Some? {
      var verdict;
      gated, verdict := ApplyGate(shown, baseline.value, cfg);
      gate := Some(verdict);
    }
    var hits := if cfg.apply then gated else shown;
    var exit := if hits != [] then ExitOk else if baseline.None? then ExitEmpty else ExitUnsure;
    r := Ok(Outcome(hits, cfg.apply, gate, exit));
  }

  lemma SelectedPages(ranked: seq<RankedHit>, exact: Option<ExactMatch>, chunks: seq<LiteralChunk>)
    ensures var selected := Selected(ranked, exact, chunks);
      && NoneExact(selected)
      && (forall h :: h in ranked ==> Has(selected, h.path))
      && (ranked != [] ==> selected != [])
      && (forall i, j :: 0 <= i < j < |selected| ==> selected[i].path != selected[j].path)
      && (forall i :: 0 <= i < |selected| ==>
        exists h :: h in ranked && h.path == selected[i].path && h.score == selected[i].score)
  {
    var selected := Selected(ranked, exact, chunks);
    var sorted := Sort(RankedLe, ranked);
    var ordered := FirstBy(RankedPath, {}, sorted);
    SortPermutes(RankedLe, ranked);
    FirstByMembers(RankedPath, {}, sorted);
    hide Sort, FirstBy;
    forall h | h in ranked ensures Has(selected, h.path) {
      var i := FirstByCovers(RankedPath, {}, sorted, h);
      assert selected[i].path == h.path;
    }
    if ranked != [] {
      assert ranked[0] in ranked;
    }
    forall i, j | 0 <= i < j < |selected| ensures selected[i].path != selected[j].path {
      assert RankedPath(ordered[i]) != RankedPath(ordered[j]);
    }
    forall i | 0 <= i < |selected| ensures exists h ::
      h in ranked && h.path == selected[i].path && h.score == selected[i].score {
      assert ordered[i] in ranked;
    }
  }

  /** The hit of a page is its best-ranked entry, and hits stand in the order of final ranks and,
      where these are equal, of pages. */
  lemma SelectedIsRanked(ranked: seq<RankedHit>, exact: Option<ExactMatch>, chunks: seq<LiteralChunk>)
    ensures var selected := Selected(ranked, exact, chunks);
      exists source: seq<RankedHit> ::
        && |source| == |selected|
        && (forall i :: 0 <= i < |source| ==> source[i] in ranked && selected[i] == Chosen(source[i], exact, chunks))
        && (forall i, j :: 0 <= i < j < |source| ==>
              || source[i].finalRank < source[j].finalRank
              || (source[i].finalRank == source[j].finalRank && source[i].path < source[j].path))
        && (forall i, h :: 0 <= i < |source| && h in ranked && h.path == source[i].path ==>
              || source[i].finalRank < h.finalRank
              || (source[i].finalRank == h.finalRank && source[i].denseChunk.ordinal <= h.denseChunk.ordinal))
  {
    var sorted := Sort(RankedLe, ranked);
    var ordered := FirstBy(RankedPath, {}, sorted);
    var selected := Selected(ranked, exact, chunks);
    SortPermutes(RankedLe, ranked);
    RankedLeIsTotal();
    SortSorts(RankedLe, ranked);
    FirstByMembers(RankedPath, {}, sorted);
    FirstByLeast(RankedLe, RankedPath, {}, sorted);
    hide Sort, FirstBy, TotalOrder, Chosen;
    forall i, j | 0 <= i < j < |ordered|
      ensures ordered[i].finalRank < ordered[j].finalRank ||
        (ordered[i].finalRank == ordered[j].finalRank && ordered[i].path < ordered[j].path)
    {
      assert RankedPath(ordered[i]) != RankedPath(ordered[j]);
      assert RankedLe(ordered[i], ordered[j]);
    }
    forall i, h | 0 <= i < |ordered| && h in ranked && h.path == ordered[i].path
      ensures ordered[i].finalRank < h.finalRank ||
        (ordered[i].finalRank == h.finalRank && ordered[i].denseChunk.ordinal <= h.denseChunk.ordinal)
    {
      assert h in sorted && RankedPath(h) == RankedPath(ordered[i]);
      assert RankedLe(ordered[i], h);
    }
    assert |ordered| == |selected|;
  }

  lemma RankedLeIsTotal()
    ensures TotalOrder(RankedLe)
  {
  }

  /** A ranking without repeated pages, already in final-rank order, is selected as it stands. */
  lemma SelectedAsRanked(ranked: seq<RankedHit>, exact: Option<ExactMatch>, chunks: seq<LiteralChunk>)
    requires forall i, j :: 0 <= i < j < |ranked| ==>
      ranked[i].finalRank < ranked[j].finalRank && ranked[i].path != ranked[j].path
    ensures var selected := Selected(ranked, exact, chunks);
      |selected| == |ranked| && forall i :: 0 <= i < |selected| ==> selected[i] == Chosen(ranked[i], exact, chunks)
  {
    assert SortedBy(RankedLe, ranked);
    SortOfSorted(RankedLe, ranked);
    assert DistinctBy(RankedPath, ranked);
    FirstByOfDistinct(RankedPath, {}, ranked);
    hide Sort, FirstBy, Chosen;
  }

  /** The slots are the first selected hits, except that the last may be the exact match from
      further down; nothing else moves, and only the exact match is marked. */
  lemma ShownIsPrefix(selected: seq<SelectedHit>, exact: Option<ExactMatch>, limit: nat, i: nat)
    requires NoneExact(selected) && i < |Shown(selected, exact, limit)|
    requires forall a, b :: 0 <= a < b < |selected| ==> selected[a].path != selected[b].path
    ensures var shown := Shown(selected, exact, limit);
      && |shown| == Min(limit, |selected|)
      && (shown[i].(exact := false) == selected[i]
          || (i == |shown| - 1 && shown[i].exact && limit < |selected|
              && exists k :: limit <= k < |selected| && shown[i].(exact := false) == selected[k]))
      && (shown[i].exact <==> exact.Some? && shown[i].path == exact.value.path)
  {
    var first := Take(selected, limit);
    if exact.Some? && limit > 0 {
      var k := PositionOf(selected, exact.value.path);
      assert k < |first| ==> first[k] == selected[k];
    }
  }

  /** With at least one slot and one ranked page, the exit is Unsure exactly when the gate
      applies, the baseline is below the floor and nothing shown is exact; otherwise it is Ok. */
  lemma UnsureExactlyWhen(query: Text, baseline: real, ranked: seq<RankedHit>, chunks: seq<LiteralChunk>,
                          leader: Option<PageId>, cfg: Config)
    requires ValidConfig(cfg) && cfg.limit > 0 && ranked != []
    ensures var shown := Slots(query, ranked, chunks, leader, cfg.limit);
      var exit := Concluded(shown, Some(baseline), cfg).exit;
      && (exit == ExitUnsure <==> cfg.apply && baseline < cfg.minScore && NoneExact(shown))
      && (exit == ExitOk || exit == ExitUnsure)
  {
    var exact := ExactIdentifierMatch(query, leader, chunks);
    SelectedPages(ranked, exact, chunks);
    ShownIsBounded(Selected(ranked, exact, chunks), exact, cfg.limit);
    hide ExactIdentifierMatch, Selected, Shown, Kept, Verdict;
    GateEmptiesExactlyWhen(Slots(query, ranked, chunks, leader, cfg.limit), baseline, cfg);
  }

  /** A ranked exact match is always returned, marked exact, with exit code Ok. */
  lemma ExactMatchIsReturned(query: Text, baseline: real, ranked: seq<RankedHit>, chunks: seq<LiteralChunk>,
                             leader: Option<PageId>, cfg: Config)
    requires cfg.limit > 0 && ExactIdentifierMatch(query, leader, chunks).Some?
    requires exists h :: h in ranked && h.path == ExactIdentifierMatch(query, leader, chunks).value.path
    ensures var path := ExactIdentifierMatch(query, leader, chunks).value.path;
      var outcome := Concluded(Slots(query, ranked, chunks, leader, cfg.limit), Some(baseline), cfg);
      HasExact(outcome.hits, path) && outcome.exit == ExitOk && |outcome.hits| <= cfg.limit
  {
    var exact := ExactIdentifierMatch(query, leader, chunks);
    var shown := Slots(query, ranked, chunks, leader, cfg.limit);
    SelectedPages(ranked, exact, chunks);
    ShownIsBounded(Selected(ranked, exact, chunks), exact, cfg.limit);
    KeptIsShorter(shown, baseline, cfg);
    hide ExactIdentifierMatch, Selected, Shown, Kept, Verdict;
    ExactSurvives(shown, baseline, cfg, exact.value.path);
  }

  lemma KeptIsShorter(hits: seq<SelectedHit>, baseline: real, cfg: Config)
    ensures |Kept(hits, baseline, cfg)| <= |hits|
  {
    var anchor := Anchor(hits);
    FilterMembers((h: SelectedHit) => Keeps(h, baseline, anchor, cfg), hits);
  }
}
