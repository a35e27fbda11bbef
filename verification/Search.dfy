/** The search kernel: validated inputs, ranking, selection, gating and snippets. */
module Search {
  import opened Wrappers
  import opened Bytes
  import opened Lists
  import opened Rank
  import opened Select
  import Snippet
  import Unicode

  const SNIPPET_WIDTH: nat := 280
  const SNIPPET_GAIN: real := 0.75

  // ----- inputs -----------------------------------------------------------------------------------

  datatype ChunkMeta = ChunkMeta(id: ChunkId, text: Text)
  datatype LexicalScore = LexicalScore(id: ChunkId, bm25: real, rank: nat)

  /** Snippet statistics, with the lowercase terms and the weights computed from them. */
  datatype Statistics = Statistics(
    total: nat, terms: seq<string>, weights: Result<seq<Snippet.Term>, Snippet.SnippetError>)

  datatype Request = Request(
    query: Text,
    pages: seq<PageId>,
    chunks: seq<ChunkMeta>,
    dense: seq<Scored>,
    lexical: seq<LexicalScore>,
    statistics: Statistics,
    selection: Config)

  /** What the kernel takes from libraries: score rounding, character tables, UTF-8 decoding and
      the lexical terms of a query. */
  datatype Env = Env(round: Rounding, tables: Unicode.Tables, decode: Text -> string, queryTerms: Text -> set<string>)

  datatype SearchError =
    | DuplicatePageMetadata(page: PageId)
    | MissingPageMetadata(page: PageId)
    | DuplicateChunkMetadata(chunk: ChunkId)
    | MissingChunkMetadata(chunk: ChunkId)
    | DuplicateDenseCandidate(chunk: ChunkId)
    | MissingDenseCandidate(chunk: ChunkId)
    | InvalidLexicalRank(chunk: ChunkId, expected: nat, actual: nat)
    | DuplicateLexicalCandidate(chunk: ChunkId)
    | LexicalOrder(previous: ChunkId, current: ChunkId)
    | SnippetChunkCountMismatch
    | DuplicateSnippetTerm(term: string)
    | SnippetTermsMismatch
    | SelectionFailed(cause: SelectionError)
    | SnippetFailed(reason: Snippet.SnippetError)

  // ----- validation -----------------------------------------------------------------------------------

  predicate Distinct<T(==)>(s: seq<T>) { forall i, j :: 0 <= i < j < |s| ==> s[i] != s[j] }

  function Members<T>(s: seq<T>): set<T> { set x | x in s }

  method IndexPages(pages: seq<PageId>) returns (r: Result<set<PageId>, SearchError>)
    ensures r.Ok? <==> Distinct(pages)
    ensures r.Ok? ==> r.value == Members(pages)
  {
    var known := {};
    for i := 0 to |pages|
      invariant Distinct(pages[..i]) && known == Members(pages[..i])
    {
      if pages[i] in known {
        return Err(DuplicatePageMetadata(pages[i]));
      }
      known := known + {pages[i]};
    }
    assert pages[..|pages|] == pages;
    r := Ok(known);
  }

  function ById(chunks: seq<ChunkMeta>): map<ChunkId, Text> {
    if chunks == [] then map[]
    else
      var last := chunks[|chunks| - 1];
      ById(chunks[..|chunks| - 1])[last.id := last.text]
  }

  lemma {:induction false} ByIdKeys(chunks: seq<ChunkMeta>)
    ensures forall id :: id in ById(chunks) <==> exists i :: 0 <= i < |chunks| && chunks[i].id == id
    ensures forall id :: id in ById(chunks) ==> ChunkMeta(id, ById(chunks)[id]) in chunks
  {
    if chunks != [] {
      ByIdKeys(chunks[..|chunks| - 1]);
    }
  }

  predicate ValidChunks(pages: set<PageId>, chunks: seq<ChunkMeta>) {
    && (forall i :: 0 <= i < |chunks| ==> chunks[i].id.page in pages)
    && (forall i, j :: 0 <= i < j < |chunks| ==> chunks[i].id != chunks[j].id)
  }

  method IndexChunks(pages: set<PageId>, chunks: seq<ChunkMeta>) returns (r: Result<map<ChunkId, Text>, SearchError>)
    ensures r.Ok? <==> ValidChunks(pages, chunks)
    ensures r.Ok? ==> r.value == ById(chunks)
  {
    var texts: map<ChunkId, Text> := map[];
    for i := 0 to |chunks|
      invariant ValidChunks(pages, chunks[..i]) && texts == ById(chunks[..i])
    {
      ByIdKeys(chunks[..i]);
      assert chunks[..i + 1][..i] == chunks[..i];
      if chunks[i].id.page !in pages {
        return Err(MissingPageMetadata(chunks[i].id.page));
      }
      if chunks[i].id in texts {
        return Err(DuplicateChunkMetadata(chunks[i].id));
      }
      texts := texts[chunks[i].id := chunks[i].text];
    }
    assert chunks[..|chunks|] == chunks;
    r := Ok(texts);
  }

  /** Every chunk has exactly one dense candidate. */
  predicate ValidDense(dense: seq<Scored>, chunks: set<ChunkId>) {
    && (forall i :: 0 <= i < |dense| ==> dense[i].id in chunks)
    && (forall i, j :: 0 <= i < j < |dense| ==> dense[i].id != dense[j].id)
    && (forall id :: id in chunks ==> exists i :: 0 <= i < |dense| && dense[i].id == id)
  }

  method ValidateDense(dense: seq<Scored>, chunks: set<ChunkId>) returns (e: Option<SearchError>)
    ensures e.None? <==> ValidDense(dense, chunks)
  {
    var seen: set<ChunkId> := {};
    for i := 0 to |dense|
      invariant forall id :: id in seen <==> exists j :: 0 <= j < i && dense[j].id == id
      invariant forall j :: 0 <= j < i ==> dense[j].id in chunks
      invariant forall j, k :: 0 <= j < k < i ==> dense[j].id != dense[k].id
    {
      if dense[i].id !in chunks {
        return Some(MissingChunkMetadata(dense[i].id));
      }
      if dense[i].id in seen {
        return Some(DuplicateDenseCandidate(dense[i].id));
      }
      seen := seen + {dense[i].id};
    }
    var missing := chunks - seen;
    if missing != {} {
      var id :| id in missing;
      return Some(MissingDenseCandidate(id));
    }
    forall id | id in chunks ensures id in seen {
      assert id in missing <==> id !in seen;
    }
    e := None;
  }

  /** Known distinct chunks, ranked consecutively in BM25 order. */
  predicate ValidLexical(lexical: seq<LexicalScore>, chunks: set<ChunkId>) {
    && (forall i :: 0 <= i < |lexical| ==> lexical[i].rank == i + 1 && lexical[i].id in chunks)
    && (forall i, j :: 0 <= i < j < |lexical| ==> lexical[i].id != lexical[j].id && lexical[i].bm25 <= lexical[j].bm25)
  }

  method ValidateLexical(lexical: seq<LexicalScore>, chunks: set<ChunkId>) returns (e: Option<SearchError>)
    ensures e.None? <==> ValidLexical(lexical, chunks)
  {
    var seen: set<ChunkId> := {};
    for i := 0 to |lexical|
      invariant forall id :: id in seen <==> exists j :: 0 <= j < i && lexical[j].id == id
      invariant ValidLexical(lexical[..i], chunks)
    {
      var candidate := lexical[i];
      if candidate.rank != i + 1 {
        return Some(InvalidLexicalRank(candidate.id, i + 1, candidate.rank));
      }
      if candidate.id !in chunks {
        return Some(MissingChunkMetadata(candidate.id));
      }
      if candidate.id in seen {
        return Some(DuplicateLexicalCandidate(candidate.id));
      }
      if i > 0 && candidate.bm25 < lexical[i - 1].bm25 {
        return Some(LexicalOrder(lexical[i - 1].id, candidate.id));
      }
      seen := seen + {candidate.id};
    }
    assert lexical[..|lexical|] == lexical;
    e := None;
  }

  predicate ValidStatistics(env: Env, query: Text, statistics: Statistics, count: nat) {
    && statistics.total == count
    && Distinct(statistics.terms)
    && (count == 0 || Members(statistics.terms) == env.queryTerms(query))
  }

  method ValidateStatistics(env: Env, query: Text, statistics: Statistics, count: nat) returns (e: Option<SearchError>)
    ensures e.None? <==> ValidStatistics(env, query, statistics, count)
  {
    if statistics.total != count {
      return Some(SnippetChunkCountMismatch);
    }
    var terms := statistics.terms;
    var actual := {};
    for i := 0 to |terms|
      invariant Distinct(terms[..i]) && actual == Members(terms[..i])
    {
      if terms[i] in actual {
        return Some(DuplicateSnippetTerm(terms[i]));
      }
      actual := actual + {terms[i]};
    }
    assert terms[..|terms|] == terms;
    if statistics.total != 0 && env.queryTerms(query) != actual {
      return Some(SnippetTermsMismatch);
    }
    e := None;
  }

  predicate WellFormed(env: Env, r: Request) {
    && Distinct(r.pages)
    && ValidChunks(Members(r.pages), r.chunks)
    && ValidDense(r.dense, ById(r.chunks).Keys)
    && ValidLexical(r.lexical, ById(r.chunks).Keys)
    && ValidStatistics(env, r.query, r.statistics, |r.chunks|)
  }

  // ----- composition -------------------------------------------------------------------------------------

  function LexicalIds(lexical: seq<LexicalScore>): (r: seq<ChunkId>)
    ensures |r| == |lexical| && forall i :: 0 <= i < |r| ==> r[i] == lexical[i].id
  {
    seq(|lexical|, i requires 0 <= i < |lexical| => lexical[i].id)
  }

  function Literal(chunks: seq<ChunkMeta>): (r: seq<LiteralChunk>)
    ensures |r| == |chunks|
    ensures forall i :: 0 <= i < |r| ==> r[i] == LiteralChunk(chunks[i].id.page, chunks[i].id.ordinal, chunks[i].text)
  {
    seq(|chunks|, i requires 0 <= i < |chunks| => LiteralChunk(chunks[i].id.page, chunks[i].id.ordinal, chunks[i].text))
  }

  /** The first of the candidate lexical pages that has a dense entry. */
  function FirstDense(pages: seq<PageId>, chunks: seq<ChunkId>): Option<PageId> {
    if chunks == [] then None
    else if chunks[0].page in pages then Some(chunks[0].page)
    else FirstDense(pages, chunks[1..])
  }

  function Leader(dense: seq<DenseRanked>, lexical: seq<ChunkId>): Option<PageId> {
    FirstDense(Pages(dense), LexicalPages(lexical))
  }

  predicate Loaded(texts: map<ChunkId, Text>, h: Hybrid) {
    h.dense.chunk in texts && (h.lexicalChunk.Some? ==> h.lexicalChunk.value in texts)
  }

  function Excerpt(texts: map<ChunkId, Text>, id: ChunkId): SelectedChunk
    requires id in texts
  {
    SelectedChunk(id.ordinal, texts[id])
  }

  function Explained(h: Hybrid): Explanation {
    Explanation(Some(h.denseRank), h.lexicalRank,
                if h.fusion.Some? then Some(h.fusion.value.total) else None,
                if h.fusion.Some? then h.fusion.value.contributions else [])
  }

  function ToHit(texts: map<ChunkId, Text>, h: Hybrid, finalRank: nat): RankedHit
    requires Loaded(texts, h)
  {
    RankedHit(h.dense.chunk.page, Excerpt(texts, h.dense.chunk),
              if h.lexicalChunk.Some? then Some(Excerpt(texts, h.lexicalChunk.value)) else None,
              h.dense.score, finalRank, Explained(h))
  }

  function ToHits(texts: map<ChunkId, Text>, hybrids: seq<Hybrid>): (r: seq<RankedHit>)
    requires forall i :: 0 <= i < |hybrids| ==> Loaded(texts, hybrids[i])
    ensures |r| == |hybrids| && forall i :: 0 <= i < |r| ==> r[i] == ToHit(texts, hybrids[i], i + 1)
  {
    seq(|hybrids|, i requires 0 <= i < |hybrids| => ToHit(texts, hybrids[i], i + 1))
  }

  function Dense(env: Env, r: Request): seq<DenseRanked> { DenseRank(env.round, r.dense) }

  function Hybrids(env: Env, r: Request): seq<Hybrid> {
    HybridRank(Dense(env, r), LexicalIds(r.lexical), |Dense(env, r)| + CANDIDATES)
  }

  function Ranked(env: Env, r: Request): (hits: seq<RankedHit>)
    requires WellFormed(env, r)
  {
    HybridsAreLoaded(env, r);
    ToHits(ById(r.chunks), Hybrids(env, r))
  }

  function Baseline(env: Env, r: Request): Option<real> {
    if Dense(env, r) == [] then None else Some(Dense(env, r)[0].score)
  }

  function ExactMatchOf(env: Env, r: Request): Option<ExactMatch> {
    ExactIdentifierMatch(r.query, Leader(Dense(env, r), LexicalIds(r.lexical)), Literal(r.chunks))
  }

  function ShownOf(env: Env, r: Request): seq<SelectedHit>
    requires WellFormed(env, r)
  {
    Slots(r.query, Ranked(env, r), Literal(r.chunks), Leader(Dense(env, r), LexicalIds(r.lexical)), r.selection.limit)
  }

  /** What selection concludes for the request; nothing at all for an empty corpus. */
  function OutcomeOf(env: Env, r: Request): Outcome
    requires WellFormed(env, r)
  {
    Concluded(ShownOf(env, r), Baseline(env, r), r.selection)
  }

  // ----- the ranking only names loaded chunks ------------------------------------------------------------

  /** A fused entry is a dense entry of its page with, if any, a lexical chunk of the same page. */
  predicate Grounded(dense: seq<DenseRanked>, lexical: seq<ChunkId>, h: Hybrid) {
    && h.dense in dense
    && h.denseRank > 0
    && h.lexicalRank != Some(0)
    && (h.lexicalChunk.Some? ==> h.lexicalChunk.value in lexical && h.lexicalChunk.value.page == h.dense.chunk.page)
    && (h.fusion.Some? ==> forall c :: c in h.fusion.value.contributions ==> ValidContribution(c))
  }

  lemma {:induction false} LexicalIndexFinds(chunks: seq<ChunkId>, p: PageId)
    ensures var i := LexicalIndex(chunks, p); i < |chunks| ==> chunks[i].page == p
  {
    if chunks != [] {
      LexicalIndexFinds(chunks[1..], p);
    }
  }

  lemma SharesAreValid(dense: seq<DenseRanked>, lexical: seq<ChunkId>, p: PageId)
    ensures forall c :: c in Fusion(dense, lexical, p).contributions ==> ValidContribution(c)
  {
    TwoSources(dense, lexical, p);
    hide FromSources, FirstBy, UsableOf, Total;
  }

  lemma HybridizedIsGrounded(dense: seq<DenseRanked>, lexical: seq<ChunkId>, p: PageId)
    requires p in Pages(dense)
    ensures Grounded(dense, lexical, Hybridized(dense, lexical, p))
  {
    SharesAreValid(dense, lexical, p);
    LexicalIndexFinds(LexicalPages(lexical), p);
    FirstByMembers(ChunkPage, {}, lexical);
    hide Fusion, FirstBy, ValidContribution;
    assert forall i :: 0 <= i < |LexicalPages(lexical)| ==> LexicalPages(lexical)[i] in lexical;
  }

  lemma HybridsAreGrounded(dense: seq<DenseRanked>, lexical: seq<ChunkId>, limit: nat)
    ensures forall i :: 0 <= i < |HybridRank(dense, lexical, limit)| ==>
      Grounded(dense, lexical, HybridRank(dense, lexical, limit)[i])
  {
    var hybrids := HybridRank(dense, lexical, limit);
    OrderIsDense(dense, lexical);
    hide Order, Usable, Hybridized, Grounded;
    forall i | 0 <= i < |hybrids| ensures Grounded(dense, lexical, hybrids[i]) {
      if Usable(dense, lexical) != [] {
        var p := Take(Order(dense, lexical), limit)[i];
        assert p in Order(dense, lexical);
        HybridizedIsGrounded(dense, lexical, p);
      } else {
        FallbackIsGrounded(dense, lexical, i);
      }
    }
  }

  lemma FallbackIsGrounded(dense: seq<DenseRanked>, lexical: seq<ChunkId>, i: nat)
    requires i < |dense|
    ensures Grounded(dense, lexical, Hybrid(dense[i], None, i + 1, None, None))
  {
  }

  lemma DenseIsKnown(env: Env, r: Request)
    requires WellFormed(env, r)
    ensures forall i :: 0 <= i < |Dense(env, r)| ==> Dense(env, r)[i].chunk in ById(r.chunks)
  {
    DenseRankIsBest(r.dense);
    hide BestChunks, ById, SortedBy;
    var best := BestChunks(r.dense);
    forall i | 0 <= i < |Dense(env, r)| ensures Dense(env, r)[i].chunk in ById(r.chunks) {
      assert best[i] in r.dense;
    }
  }

  lemma HybridsAreLoaded(env: Env, r: Request)
    requires WellFormed(env, r)
    ensures forall i :: 0 <= i < |Hybrids(env, r)| ==> Loaded(ById(r.chunks), Hybrids(env, r)[i])
  {
    var dense, lexical := Dense(env, r), LexicalIds(r.lexical);
    HybridsAreGrounded(dense, lexical, |dense| + CANDIDATES);
    DenseIsKnown(env, r);
    hide HybridRank, Dense, ById;
    forall i | 0 <= i < |Hybrids(env, r)| ensures Loaded(ById(r.chunks), Hybrids(env, r)[i]) {
      var h := Hybrids(env, r)[i];
      assert Grounded(dense, lexical, h);
    }
  }

  /** Selection never refuses what the kernel ranks. */
  lemma RankedIsSelectable(env: Env, r: Request)
    requires WellFormed(env, r)
    ensures Selectable(Baseline(env, r), Ranked(env, r))
  {
    var dense, lexical := Dense(env, r), LexicalIds(r.lexical);
    HybridsAreGrounded(dense, lexical, |dense| + CANDIDATES);
    HybridsAreLoaded(env, r);
    hide HybridRank, ById, DenseRank, WellFormed, Loaded;
    forall i | 0 <= i < |Ranked(env, r)| ensures ValidHit(Ranked(env, r)[i]) {
      assert Grounded(dense, lexical, Hybrids(env, r)[i]);
    }
    if Ranked(env, r) != [] {
      assert Grounded(dense, lexical, Hybrids(env, r)[0]);
    }
  }

  // ----- the response -----------------------------------------------------------------------------------

  datatype SearchHit = SearchHit(path: PageId, score: real, text: Text, snippet: Snippet.Snippet, exact: bool)

  datatype Response = Response(
    hits: seq<SearchHit>, applied: bool, gate: Option<GateVerdict>, explained: map<PageId, Explanation>, exit: ExitCode)

  /** A returned hit is the selected hit, its rounded score and a faithful snippet of its text. */
  ghost predicate Presents(env: Env, terms: seq<Snippet.Term>, selected: SelectedHit, hit: SearchHit) {
    && hit.path == selected.path
    && hit.score == env.round(selected.score)
    && hit.text == selected.chunk.text
    && hit.exact == selected.exact
    && Snippet.Faithful(env.tables, Snippet.Collapsed(env.decode(hit.text)), Snippet.Canonical(env.tables, terms),
                        SNIPPET_WIDTH, SNIPPET_GAIN, hit.snippet)
  }

  function ExplainedBy(hits: seq<SelectedHit>): map<PageId, Explanation> {
    if hits == [] then map[]
    else
      var last := hits[|hits| - 1];
      ExplainedBy(hits[..|hits| - 1])[last.path := last.explanation]
  }

  /** The response of a well-formed request. */
  ghost predicate Answers(env: Env, r: Request, response: Response)
    requires WellFormed(env, r)
  {
    var outcome := OutcomeOf(env, r);
    && response.applied == outcome.applied
    && response.gate == outcome.gate
    && response.exit == outcome.exit
    && response.explained == ExplainedBy(ShownOf(env, r))
    && |response.hits| == |outcome.hits|
    && (response.hits != [] ==>
        && r.statistics.weights.Ok?
        && forall i :: 0 <= i < |response.hits| ==>
             Presents(env, r.statistics.weights.value, outcome.hits[i], response.hits[i]))
  }

  /** The snippet inputs a response needs. */
  predicate Weighable(env: Env, r: Request)
    requires WellFormed(env, r)
  {
    || r.dense == []
    || (r.statistics.weights.Ok?
        && (OutcomeOf(env, r).hits == [] || Snippet.Acceptable(env.tables, r.statistics.weights.value)))
  }

  method Present(env: Env, terms: seq<Snippet.Term>, selected: seq<SelectedHit>)
    returns (r: Result<seq<SearchHit>, Snippet.SnippetError>)
    ensures r.Ok? <==> selected == [] || Snippet.Acceptable(env.tables, terms)
    ensures r.Ok? ==> |r.value| == |selected| && forall i :: 0 <= i < |selected| ==>
      Presents(env, terms, selected[i], r.value[i])
  {
    hide Snippet.Faithful, Snippet.Acceptable, Snippet.Collapsed, Snippet.Canonical;
    var hits: seq<SearchHit> := [];
    for i := 0 to |selected|
      invariant i > 0 ==> Snippet.Acceptable(env.tables, terms)
      invariant |hits| == i && forall j :: 0 <= j < i ==> Presents(env, terms, selected[j], hits[j])
    {
      var hit := selected[i];
      var window := Snippet.MakeSnippet(env.tables, env.decode(hit.chunk.text), terms, SNIPPET_WIDTH, SNIPPET_GAIN);
      if window.Err? {
        return Err(window.error);
      }
      hits := hits + [SearchHit(hit.path, env.round(hit.score), hit.chunk.text, window.value, hit.exact)];
    }
    r := Ok(hits);
  }

  method Validate(env: Env, request: Request) returns (r: Result<map<ChunkId, Text>, SearchError>)
    ensures r.Ok? <==> WellFormed(env, request)
    ensures r.Ok? ==> r.value == ById(request.chunks)
  {
    hide ValidChunks, ValidDense, ValidLexical, ValidStatistics, ById;
    var pages := IndexPages(request.pages);
    if pages.Err? {
      return Err(pages.error);
    }
    var texts := IndexChunks(pages.value, request.chunks);
    if texts.Err? {
      return Err(texts.error);
    }
    var dense := ValidateDense(request.dense, texts.value.Keys);
    if dense.Some? {
      return Err(dense.value);
    }
    var lexical := ValidateLexical(request.lexical, texts.value.Keys);
    if lexical.Some? {
      return Err(lexical.value);
    }
    var statistics := ValidateStatistics(env, request.query, request.statistics, |request.chunks|);
    if statistics.Some? {
      return Err(statistics.value);
    }
    r := texts;
  }

  /** The two selections of a corpus that is not empty: without the gate, for the explanation,
      and as asked. Neither can fail. */
  method SelectBoth(env: Env, request: Request, texts: map<ChunkId, Text>)
    returns (ungated: Outcome, outcome: Outcome)
    requires WellFormed(env, request) && texts == ById(request.chunks) && Dense(env, request) != []
    ensures ungated.hits == ShownOf(env, request) && outcome == OutcomeOf(env, request)
  {
    hide WellFormed, ById, HybridRank, Slots, Concluded, FirstDense, DenseRank;
    var selection := request.selection;
    var dense := Dense(env, request);
    var lexical := LexicalIds(request.lexical);
    HybridsAreLoaded(env, request);
    var hybrids := HybridRank(dense, lexical, |dense| + CANDIDATES);
    assert hybrids == Hybrids(env, request);
    var ranked := ToHits(texts, hybrids);
    assert ranked == Ranked(env, request);
    RankedIsSelectable(env, request);
    hide Ranked, Dense, Leader, LexicalIds, Literal, Selectable;
    var literal := Literal(request.chunks);
    var leader := Leader(dense, lexical);
    var baseline := Some(dense[0].score);
    UngatedIsShown(env, request);
    var bypassed := Select.Select(request.query, baseline, ranked, literal, leader, selection.(apply := false));
    if bypassed.Err? {
      assert false;
    } else {
      ungated := bypassed.value;
    }
    outcome := ungated;
    if selection.apply {
      var gated := Select.Select(request.query, baseline, ranked, literal, leader, selection);
      if gated.Err? {
        assert false;
      } else {
        outcome := gated.value;
      }
    }
  }

  /** `compose_search`: it answers every well-formed request, and nothing else. */
  method ComposeSearch(env: Env, request: Request) returns (r: Result<Response, SearchError>)
    ensures r.Ok? <==> WellFormed(env, request) && Weighable(env, request)
    ensures r.Ok? ==> Answers(env, request, r.value)
  {
    var valid := Validate(env, request);
    if valid.Err? {
      return Err(valid.error);
    }
    hide WellFormed, ById, OutcomeOf, ShownOf, Presents, ExplainedBy, Dense;
    var dense := Dense(env, request);
    EmptyCorpus(env, request);
    if dense == [] {
      return Ok(Response([], request.selection.apply, None, map[], ExitEmpty));
    }
    var ungated, outcome := SelectBoth(env, request, valid.value);
    if request.statistics.weights.Err? {
      return Err(SnippetFailed(request.statistics.weights.error));
    }
    var hits := Present(env, request.statistics.weights.value, outcome.hits);
    if hits.Err? {
      return Err(SnippetFailed(hits.error));
    }
    r := Ok(Response(hits.value, outcome.applied, outcome.gate, ExplainedBy(ungated.hits), outcome.exit));
  }

  /** Without the gate, the outcome is exactly the shown hits. */
  lemma UngatedIsShown(env: Env, r: Request)
    requires WellFormed(env, r)
    ensures Concluded(ShownOf(env, r), Baseline(env, r), r.selection.(apply := false)).hits == ShownOf(env, r)
  {
    hide WellFormed, Slots, DenseRank;
  }

  /** An empty corpus concludes with no hits, no verdict and the empty exit. */
  lemma EmptyCorpus(env: Env, r: Request)
    requires WellFormed(env, r)
    ensures Dense(env, r) == [] <==> r.dense == []
    ensures r.dense == [] ==>
      ShownOf(env, r) == [] && OutcomeOf(env, r) == Outcome([], r.selection.apply, None, ExitEmpty) &&
        ExplainedBy([]) == map[]
  {
    DenseRankIsBest(r.dense);
    if r.dense == [] {
      assert BestChunks(r.dense) == [];
      RankedIsSelectable(env, r);
      NothingSelected(ExactMatchOf(env, r), Literal(r.chunks), r.selection.limit);
    } else {
      assert r.dense[0] in r.dense;
    }
  }

  lemma NothingSelected(exact: Option<ExactMatch>, chunks: seq<LiteralChunk>, limit: nat)
    ensures Selected([], exact, chunks) == [] && Shown([], exact, limit) == []
  {
  }

  // ----- an exact match always comes back -------------------------------------------------------------------

  lemma {:induction false} FirstDenseIsUsable(pages: seq<PageId>, chunks: seq<ChunkId>)
    ensures FirstDense(pages, chunks) == if UsableOf(pages, chunks) == []
      then None else Some(UsableOf(pages, chunks)[0])
  {
    if chunks != [] {
      FirstDenseIsUsable(pages, chunks[1..]);
    }
  }

  /** The ranking limit never cuts a page of the fused order. */
  lemma OrderIsRanked(env: Env, r: Request, p: PageId)
    requires WellFormed(env, r) && Usable(Dense(env, r), LexicalIds(r.lexical)) != []
    requires p in Order(Dense(env, r), LexicalIds(r.lexical))
    ensures exists h :: h in Ranked(env, r) && h.path == p
  {
    var dense, lexical := Dense(env, r), LexicalIds(r.lexical);
    OrderFitsDense(dense, lexical);
    OrderIsDense(dense, lexical);
    HybridsAreLoaded(env, r);
    var hits := Ranked(env, r);
    hide Order, Usable, Fusion, WellFormed, Dense, ById, LexicalIndex, LexicalPages;
    var order := Order(dense, lexical);
    var i :| 0 <= i < |order| && order[i] == p;
    assert Hybrids(env, r)[i] == Hybridized(dense, lexical, p);
    assert hits[i].path == p;
    assert hits[i] in hits;
  }

  /** The lexical leader is always in the fused ranking. */
  lemma LeaderIsRanked(env: Env, r: Request)
    requires WellFormed(env, r) && Leader(Dense(env, r), LexicalIds(r.lexical)).Some?
    ensures exists h :: h in Ranked(env, r) && h.path == Leader(Dense(env, r), LexicalIds(r.lexical)).value
  {
    var dense, lexical := Dense(env, r), LexicalIds(r.lexical);
    FirstDenseIsUsable(Pages(dense), LexicalPages(lexical));
    hide WellFormed, Dense, UsableOf, FirstDense, LexicalPages, Order;
    OrderIsDense(dense, lexical);
    assert Usable(dense, lexical)[0] in Usable(dense, lexical);
    OrderIsRanked(env, r, Usable(dense, lexical)[0]);
  }

  ghost predicate ReturnsExact(response: Response, path: PageId) {
    exists i :: 0 <= i < |response.hits| && response.hits[i].path == path && response.hits[i].exact
  }

  /** End to end: whenever the exact-identifier match finds a page, the response holds that page
      marked exact and exits Ok, for every limit of at least one, every floor and every gap. */
  lemma ExactMatchAlwaysReturned(env: Env, r: Request, response: Response)
    requires WellFormed(env, r) && Answers(env, r, response)
    requires r.selection.limit > 0 && ExactMatchOf(env, r).Some?
    ensures ReturnsExact(response, ExactMatchOf(env, r).value.path)
    ensures response.exit == ExitOk && |response.hits| <= r.selection.limit
  {
    var dense, lexical, literal := Dense(env, r), LexicalIds(r.lexical), Literal(r.chunks);
    var leader := Leader(dense, lexical);
    var path := ExactMatchOf(env, r).value.path;
    ExactMatchMeaning(r.query, leader, literal, ExactMatchOf(env, r).value);
    hide SingleToken, IsRescue, ExactIdentifierMatch, WellFormed, DenseRank, Slots, Concluded;
    assert leader == Some(path) by {
      LeaderOfRescue(r.query, leader, literal);
    }
    LeaderIsRanked(env, r);
    hide Leader, Ranked, ExplainedBy;
    LeaderNeedsDense(dense, lexical);
    ExactMatchIsReturned(r.query, dense[0].score, Ranked(env, r), literal, leader, r.selection);
    var outcome := OutcomeOf(env, r);
    var i :| 0 <= i < |outcome.hits| && outcome.hits[i].path == path && outcome.hits[i].exact;
    assert Presents(env, r.statistics.weights.value, outcome.hits[i], response.hits[i]);
  }

  lemma LeaderOfRescue(query: Text, leader: Option<PageId>, chunks: seq<LiteralChunk>)
    requires ExactIdentifierMatch(query, leader, chunks).Some?
    ensures leader == Some(ExactIdentifierMatch(query, leader, chunks).value.path)
  {
    ExactMatchMeaning(query, leader, chunks, ExactIdentifierMatch(query, leader, chunks).value);
  }

  lemma LeaderNeedsDense(dense: seq<DenseRanked>, lexical: seq<ChunkId>)
    requires Leader(dense, lexical).Some?
    ensures dense != []
  {
    FirstDenseIsUsable(Pages(dense), LexicalPages(lexical));
    UsableMembers(Pages(dense), LexicalPages(lexical));
    assert Usable(dense, lexical)[0] in Usable(dense, lexical);
  }

  // ----- every hit is explained ------------------------------------------------------------------------------

  predicate DistinctPaths(hits: seq<SelectedHit>) {
    forall i, j :: 0 <= i < j < |hits| ==> hits[i].path != hits[j].path
  }

  lemma {:induction false} ExplainedByAll(hits: seq<SelectedHit>)
    requires DistinctPaths(hits)
    ensures forall i :: 0 <= i < |hits| ==>
      hits[i].path in ExplainedBy(hits) && ExplainedBy(hits)[hits[i].path] == hits[i].explanation
  {
    if hits != [] {
      var init, last := hits[..|hits| - 1], hits[|hits| - 1];
      ExplainedByAll(init);
      assert ExplainedBy(hits) == ExplainedBy(init)[last.path := last.explanation];
      hide ExplainedBy;
      forall i | 0 <= i < |hits|
        ensures hits[i].path in ExplainedBy(hits) && ExplainedBy(hits)[hits[i].path] == hits[i].explanation
      {
        if i < |init| {
          assert init[i] == hits[i] && hits[i].path != last.path;
        }
      }
    }
  }

  lemma ShownIsDistinct(selected: seq<SelectedHit>, exact: Option<ExactMatch>, limit: nat)
    requires DistinctPaths(selected)
    ensures DistinctPaths(Shown(selected, exact, limit))
  {
  }

  lemma ShownOfIsDistinct(env: Env, r: Request)
    requires WellFormed(env, r)
    ensures DistinctPaths(ShownOf(env, r))
  {
    var exact := ExactMatchOf(env, r);
    hide WellFormed, DenseRank, Ranked, Shown, ExactIdentifierMatch;
    SelectedPages(Ranked(env, r), exact, Literal(r.chunks));
    ShownIsDistinct(Selected(Ranked(env, r), exact, Literal(r.chunks)), exact, r.selection.limit);
  }

  /** Gated or not, the returned hits are shown hits. */
  lemma OutcomeIsShown(env: Env, r: Request)
    requires WellFormed(env, r)
    ensures Subsequence(OutcomeOf(env, r).hits, ShownOf(env, r))
    ensures forall h :: h in OutcomeOf(env, r).hits ==> h in ShownOf(env, r)
  {
    var shown := ShownOf(env, r);
    hide WellFormed, Dense, Slots;
    SubsequenceOfItself(shown);
    if Baseline(env, r).Some? {
      var baseline, anchor := Baseline(env, r).value, Anchor(shown);
      FilterMembers((h: SelectedHit) => Keeps(h, baseline, anchor, r.selection), shown);
      GatePartitions(shown, baseline, r.selection);
    }
  }

  lemma {:induction false} SubsequenceOfItself<T>(s: seq<T>)
    ensures Subsequence(s, s)
  {
    if s != [] {
      SubsequenceOfItself(s[1..]);
    }
  }

  /** Every returned hit has the explanation it was ranked with. */
  lemma EveryHitIsExplained(env: Env, r: Request, response: Response, i: nat)
    requires WellFormed(env, r) && Answers(env, r, response) && i < |response.hits|
    ensures response.hits[i].path in response.explained
    ensures response.explained[response.hits[i].path] == OutcomeOf(env, r).hits[i].explanation
  {
    hide WellFormed, Dense, OutcomeOf, ShownOf, ExplainedBy;
    ShownOfIsDistinct(env, r);
    ExplainedByAll(ShownOf(env, r));
    OutcomeIsShown(env, r);
    assert Presents(env, r.statistics.weights.value, OutcomeOf(env, r).hits[i], response.hits[i]);
    assert OutcomeOf(env, r).hits[i] in OutcomeOf(env, r).hits;
  }

  // ----- what the hits say ---------------------------------------------------------------------------------------

  /** The hit is a dense page at its dense score, quoting a chunk of that page. */
  predicate Quotes(env: Env, r: Request, path: PageId, chunk: SelectedChunk, score: real) {
    && ChunkMeta(ChunkId(path, chunk.ordinal), chunk.text) in r.chunks
    && exists i :: 0 <= i < |Dense(env, r)| && Dense(env, r)[i].chunk.page == path && Dense(env, r)[i].score == score
  }

  lemma RankedQuotes(env: Env, r: Request, h: RankedHit)
    requires WellFormed(env, r) && h in Ranked(env, r)
    ensures Quotes(env, r, h.path, h.denseChunk, h.score)
    ensures h.lexicalChunk.Some? ==> Quotes(env, r, h.path, h.lexicalChunk.value, h.score)
  {
    var dense, lexical := Dense(env, r), LexicalIds(r.lexical);
    var i :| 0 <= i < |Ranked(env, r)| && Ranked(env, r)[i] == h;
    HybridsAreGrounded(dense, lexical, |dense| + CANDIDATES);
    HybridsAreLoaded(env, r);
    ByIdKeys(r.chunks);
    hide WellFormed, Dense, ById, HybridRank;
    var hybrid := Hybrids(env, r)[i];
    assert Grounded(dense, lexical, hybrid) && Loaded(ById(r.chunks), hybrid);
    assert h == ToHit(ById(r.chunks), hybrid, i + 1);
    var j :| 0 <= j < |dense| && dense[j] == hybrid.dense;
  }

  lemma {:induction false} LiteralTextIsLoaded(chunks: seq<ChunkMeta>, m: ExactMatch)
    ensures var t := LiteralText(Literal(chunks), m);
      t.Some? ==> t.value.ordinal == m.ordinal && ChunkMeta(ChunkId(m.path, m.ordinal), t.value.text) in chunks
  {
    if chunks != [] {
      assert Literal(chunks)[1..] == Literal(chunks[1..]);
      LiteralTextIsLoaded(chunks[1..], m);
    }
  }

  lemma ChosenQuotes(env: Env, r: Request, h: RankedHit)
    requires WellFormed(env, r) && h in Ranked(env, r)
    ensures var s := Chosen(h, ExactMatchOf(env, r), Literal(r.chunks)); Quotes(env, r, s.path, s.chunk, s.score)
  {
    RankedQuotes(env, r, h);
    var exact := ExactMatchOf(env, r);
    hide WellFormed, Dense, ExactMatchOf, LiteralText, Ranked;
    if exact.Some? {
      LiteralTextIsLoaded(r.chunks, exact.value);
    }
  }

  lemma SelectedQuotes(env: Env, r: Request, s: SelectedHit)
    requires WellFormed(env, r) && s in Selected(Ranked(env, r), ExactMatchOf(env, r), Literal(r.chunks))
    ensures Quotes(env, r, s.path, s.chunk, s.score)
  {
    var ranked, exact, literal := Ranked(env, r), ExactMatchOf(env, r), Literal(r.chunks);
    var ordered := FirstBy(RankedPath, {}, Sort(RankedLe, ranked));
    SortPermutes(RankedLe, ranked);
    FirstByMembers(RankedPath, {}, Sort(RankedLe, ranked));
    hide WellFormed, Dense, ExactMatchOf, Chosen, Ranked, Sort, FirstBy, Quotes;
    var i :| 0 <= i < |ordered| && s == Chosen(ordered[i], exact, literal);
    assert ordered[i] in Sort(RankedLe, ranked);
    ChosenQuotes(env, r, ordered[i]);
  }

  /** Every outcome hit quotes a chunk of its own page at the page's dense score. */
  lemma OutcomeQuotes(env: Env, r: Request, s: SelectedHit)
    requires WellFormed(env, r) && s in OutcomeOf(env, r).hits
    ensures Quotes(env, r, s.path, s.chunk, s.score)
  {
    OutcomeIsShown(env, r);
    var ranked, exact, literal := Ranked(env, r), ExactMatchOf(env, r), Literal(r.chunks);
    var selected := Selected(ranked, exact, literal);
    SelectedPages(ranked, exact, literal);
    ShownIsBounded(selected, exact, r.selection.limit);
    hide WellFormed, Dense, ExactIdentifierMatch, Ranked, Selected, Shown, Quotes, OutcomeOf;
    var i :| 0 <= i < |ShownOf(env, r)| && ShownOf(env, r)[i] == s;
    var j :| 0 <= j < |selected| && s.(exact := false) == selected[j];
    SelectedQuotes(env, r, selected[j]);
  }

  ghost predicate Idempotent(round: Rounding) { forall x :: round(round(x)) == round(x) }

  /** The baseline, the best score of the corpus, bounds every returned score, and every returned
      text is a chunk of the returned page. */
  lemma BaselineBoundsResponse(env: Env, r: Request, response: Response, i: nat)
    requires WellFormed(env, r) && Answers(env, r, response) && i < |response.hits|
    requires Monotone(env.round) && Idempotent(env.round)
    ensures Baseline(env, r).Some? && response.hits[i].score <= Baseline(env, r).value
    ensures exists n: nat :: ChunkMeta(ChunkId(response.hits[i].path, n), response.hits[i].text) in r.chunks
  {
    var outcome := OutcomeOf(env, r);
    assert Presents(env, r.statistics.weights.value, outcome.hits[i], response.hits[i]);
    OutcomeQuotes(env, r, outcome.hits[i]);
    BaselineBoundsScores(env.round, r.dense);
    hide WellFormed, OutcomeOf, DenseRank, Answers;
    var s := outcome.hits[i];
    assert ChunkMeta(ChunkId(response.hits[i].path, s.chunk.ordinal), response.hits[i].text) in r.chunks;
    var j :| 0 <= j < |Dense(env, r)| && Dense(env, r)[j].chunk.page == s.path && Dense(env, r)[j].score == s.score;
    DenseIsRounded(env, r, 0);
    assert env.round(s.score) <= env.round(Dense(env, r)[0].score);
  }

  /** The baseline is the rounded score of the best chunk of the corpus; there is none for an empty corpus. */
  lemma BaselineIsBestScore(env: Env, r: Request)
    ensures Baseline(env, r).Some? <==> r.dense != []
    ensures r.dense != [] ==>
      exists best :: IsBest(best, r.dense) && Baseline(env, r).value == env.round(best.score)
  {
    FirstIsBest(r.dense);
    var dense := DenseRank(env.round, r.dense);
    hide DenseRank, BestChunks, IsBest;
    assert r.dense != [] ==> dense[0].score == env.round(BestChunks(r.dense)[0].score);
  }

  lemma DenseIsRounded(env: Env, r: Request, i: nat)
    requires i < |Dense(env, r)|
    ensures exists x :: Dense(env, r)[i].score == env.round(x)
  {
    assert Dense(env, r)[i].score == env.round(BestChunks(r.dense)[i].score);
  }

  /** With a corpus and at least one slot, the response is Unsure exactly when the gate applies,
      the baseline is below the floor and no shown hit is exact; otherwise it is Ok. */
  lemma UnsureResponseExactlyWhen(env: Env, r: Request, response: Response)
    requires WellFormed(env, r) && Answers(env, r, response) && ValidConfig(r.selection)
    requires r.selection.limit > 0 && r.dense != []
    ensures Baseline(env, r).Some?
    ensures response.exit == ExitUnsure <==>
      r.selection.apply && Baseline(env, r).value < r.selection.minScore && NoneExact(ShownOf(env, r))
    ensures response.exit == ExitOk || response.exit == ExitUnsure
  {
    EmptyCorpus(env, r);
    SomethingIsRanked(env, r);
    hide WellFormed, Dense, ShownOf, Concluded;
    UnsureExactlyWhen(r.query, Baseline(env, r).value, Ranked(env, r), Literal(r.chunks),
                      Leader(Dense(env, r), LexicalIds(r.lexical)), r.selection);
  }

  lemma SomethingIsRanked(env: Env, r: Request)
    requires WellFormed(env, r) && Dense(env, r) != []
    ensures Ranked(env, r) != []
  {
    var dense, lexical := Dense(env, r), LexicalIds(r.lexical);
    OrderIsDense(dense, lexical);
    HybridsAreLoaded(env, r);
    hide WellFormed, Dense, Order, Usable, ById;
    if Usable(dense, lexical) != [] {
      assert Pages(dense)[0] in Take(Pages(dense), CANDIDATES);
      assert Order(dense, lexical) != [];
    }
    assert Hybrids(env, r) != [];
  }

  // ----- the order of the hits ------------------------------------------------------------------------------

  lemma DenseHasOnePerPage(env: Env, r: Request)
    ensures OnePerPage(Dense(env, r))
  {
    DenseRankIsBest(r.dense);
    hide BestChunks, SortedBy;
  }

  lemma HybridsAreDistinct(env: Env, r: Request)
    ensures forall i, j :: 0 <= i < j < |Hybrids(env, r)| ==>
      HybridPage(Hybrids(env, r)[i]) != HybridPage(Hybrids(env, r)[j])
  {
    var dense, lexical := Dense(env, r), LexicalIds(r.lexical);
    var hybrids := Hybrids(env, r);
    DenseHasOnePerPage(env, r);
    hide Dense, HybridRank, OnePerPage, Usable, Order, DenseRankOf;
    OrderIsDistinct(dense, lexical);
    forall i, j | 0 <= i < j < |hybrids| ensures HybridPage(hybrids[i]) != HybridPage(hybrids[j]) {
      HybridFollows(dense, lexical, |dense| + CANDIDATES, i);
      HybridFollows(dense, lexical, |dense| + CANDIDATES, j);
    }
  }

  /** The selected hits are the ranked pages in ranked order. */
  lemma SelectedFollowsRanking(env: Env, r: Request)
    requires WellFormed(env, r)
    ensures var selected := Selected(Ranked(env, r), ExactMatchOf(env, r), Literal(r.chunks));
      && |selected| == |Hybrids(env, r)|
      && (forall i :: 0 <= i < |selected| ==>
            selected[i] == Chosen(Ranked(env, r)[i], ExactMatchOf(env, r), Literal(r.chunks)))
      && (forall i :: 0 <= i < |selected| ==> selected[i].path == HybridPage(Hybrids(env, r)[i]))
  {
    HybridsAreDistinct(env, r);
    HybridsAreLoaded(env, r);
    var ranked := Ranked(env, r);
    hide WellFormed, Dense, Hybrids, ExactMatchOf, ById;
    forall i, j | 0 <= i < j < |ranked|
      ensures ranked[i].finalRank < ranked[j].finalRank && ranked[i].path != ranked[j].path
    {
      assert ranked[i].path == HybridPage(Hybrids(env, r)[i]) && ranked[j].path == HybridPage(Hybrids(env, r)[j]);
    }
    SelectedAsRanked(ranked, ExactMatchOf(env, r), Literal(r.chunks));
  }

  /** Slot `i` shows the page ranked there. */
  predicate InPlace(env: Env, r: Request, hit: SelectedHit, i: nat) {
    i < |Hybrids(env, r)| && hit.path == HybridPage(Hybrids(env, r)[i])
  }

  /** The slot shows the exact match, which is ranked below all the slots. */
  predicate SwappedIn(env: Env, r: Request, hit: SelectedHit) {
    && hit.exact
    && exists k :: r.selection.limit <= k < |Hybrids(env, r)| && hit.path == HybridPage(Hybrids(env, r)[k])
  }

  /** The slots show the best-ranked pages in ranked order; only the last may instead show an exact
      match ranked below them. */
  lemma ShownFollowsRanking(env: Env, r: Request, i: nat)
    requires WellFormed(env, r) && i < |ShownOf(env, r)|
    ensures |ShownOf(env, r)| == Min(r.selection.limit, |Hybrids(env, r)|)
    ensures InPlace(env, r, ShownOf(env, r)[i], i) ||
      (i == |ShownOf(env, r)| - 1 && SwappedIn(env, r, ShownOf(env, r)[i]))
  {
    var exact := ExactMatchOf(env, r);
    var selected := Selected(Ranked(env, r), exact, Literal(r.chunks));
    assert ShownOf(env, r) == Shown(selected, exact, r.selection.limit);
    SelectedFollowsRanking(env, r);
    SelectedPages(Ranked(env, r), exact, Literal(r.chunks));
    hide WellFormed, Dense, Hybrids, ExactMatchOf, Ranked, Selected, ShownOf, Shown;
    ShownIsPrefix(selected, exact, r.selection.limit, i);
    var hit := ShownOf(env, r)[i];
    if hit.(exact := false) != selected[i] {
      var k :| r.selection.limit <= k < |selected| && hit.(exact := false) == selected[k];
      assert hit.path == selected[k].path;
    }
  }

  /** Whatever is ranked and not shown is ranked below every page that is shown in its place. */
  lemma LeftOutRanksLower(env: Env, r: Request, i: nat, k: nat)
    requires WellFormed(env, r) && i < |ShownOf(env, r)| && InPlace(env, r, ShownOf(env, r)[i], i)
    requires k < |Hybrids(env, r)| && !Has(ShownOf(env, r), HybridPage(Hybrids(env, r)[k]))
    ensures i < k
  {
    hide WellFormed, Hybrids, ShownOf;
    forall m | 0 <= m <= i && m < |Hybrids(env, r)| ensures Has(ShownOf(env, r), HybridPage(Hybrids(env, r)[m])) {
      ShownFollowsRanking(env, r, m);
      assert ShownOf(env, r)[m].path == HybridPage(Hybrids(env, r)[m]);
    }
  }

  /** Of two returned hits the first is the better-ranked page, unless the second is exact. */
  lemma HitsFollowRanking(env: Env, r: Request, response: Response, i: nat, j: nat) returns (a: nat, b: nat)
    requires WellFormed(env, r) && Answers(env, r, response) && i < j < |response.hits| && !response.hits[j].exact
    ensures a < b < |Hybrids(env, r)|
    ensures HybridPage(Hybrids(env, r)[a]) == response.hits[i].path
    ensures HybridPage(Hybrids(env, r)[b]) == response.hits[j].path
  {
    var outcome, shown := OutcomeOf(env, r), ShownOf(env, r);
    assert Presents(env, r.statistics.weights.value, outcome.hits[i], response.hits[i]);
    assert Presents(env, r.statistics.weights.value, outcome.hits[j], response.hits[j]);
    OutcomeIsShown(env, r);
    hide WellFormed, Hybrids, ShownOf, OutcomeOf, Subsequence;
    a, b := SubsequenceOrder(outcome.hits, shown, i, j);
    ShownFollowsRanking(env, r, a);
    ShownFollowsRanking(env, r, b);
  }

  // ----- what a hit quotes ------------------------------------------------------------------------------------

  /** The chunk a page is shown with: the matched one if it is the exact match, else its lexical chunk,
      else its best dense chunk. */
  function QuotedChunk(env: Env, r: Request, h: Hybrid): ChunkId {
    var exact := ExactMatchOf(env, r);
    if exact.Some? && exact.value.path == HybridPage(h) then ChunkId(exact.value.path, exact.value.ordinal)
    else if h.lexicalChunk.Some? then h.lexicalChunk.value
    else h.dense.chunk
  }

  lemma {:induction false} LiteralTextFinds(chunks: seq<ChunkMeta>, m: ExactMatch, c: ChunkMeta)
    requires c in chunks && c.id == ChunkId(m.path, m.ordinal)
    requires forall i, j :: 0 <= i < j < |chunks| ==> chunks[i].id != chunks[j].id
    ensures LiteralText(Literal(chunks), m) == Some(SelectedChunk(m.ordinal, c.text))
  {
    LiteralTextNext(chunks, m);
    hide LiteralText, Literal;
    if chunks[0].id != c.id {
      assert chunks == [chunks[0]] + chunks[1..];
      LiteralTextFinds(chunks[1..], m, c);
    } else {
      IdNamesOne(chunks, 0, c);
    }
  }

  lemma LiteralTextNext(chunks: seq<ChunkMeta>, m: ExactMatch)
    requires chunks != []
    ensures LiteralText(Literal(chunks), m)
         == if chunks[0].id == ChunkId(m.path, m.ordinal) then Some(SelectedChunk(m.ordinal, chunks[0].text))
            else LiteralText(Literal(chunks[1..]), m)
  {
    assert Literal(chunks)[1..] == Literal(chunks[1..]);
  }

  lemma IdNamesOne(chunks: seq<ChunkMeta>, i: nat, c: ChunkMeta)
    requires c in chunks && i < |chunks| && chunks[i].id == c.id
    requires forall a, b :: 0 <= a < b < |chunks| ==> chunks[a].id != chunks[b].id
    ensures chunks[i] == c
  {
    var j :| 0 <= j < |chunks| && chunks[j] == c;
  }

  lemma {:induction false} ByIdHolds(chunks: seq<ChunkMeta>, c: ChunkMeta)
    requires c in chunks && forall i, j :: 0 <= i < j < |chunks| ==> chunks[i].id != chunks[j].id
    ensures c.id in ById(chunks) && ById(chunks)[c.id] == c.text
  {
    var n := |chunks| - 1;
    assert chunks == chunks[..n] + [chunks[n]];
    if c != chunks[n] {
      var i :| 0 <= i < |chunks| && chunks[i] == c;
      assert chunks[i].id != chunks[n].id && c in chunks[..n];
      ByIdHolds(chunks[..n], c);
    }
  }

  /** The chunk of a selected hit is exactly the quoted one, with its loaded text. */
  lemma SelectedQuotesItsChunk(env: Env, r: Request, i: nat)
    requires WellFormed(env, r) && i < |Ranked(env, r)|
    ensures var s := Chosen(Ranked(env, r)[i], ExactMatchOf(env, r), Literal(r.chunks));
      var id := QuotedChunk(env, r, Hybrids(env, r)[i]);
      && s.score == Hybrids(env, r)[i].dense.score && s.explanation == Explained(Hybrids(env, r)[i])
      && id.page == s.path && id.ordinal == s.chunk.ordinal
      && id in ById(r.chunks) && s.chunk.text == ById(r.chunks)[id]
  {
    var dense, lexical := Dense(env, r), LexicalIds(r.lexical);
    HybridsAreLoaded(env, r);
    HybridsAreGrounded(dense, lexical, |dense| + CANDIDATES);
    var h, ranked := Hybrids(env, r)[i], Ranked(env, r)[i];
    assert Grounded(dense, lexical, h) && Loaded(ById(r.chunks), h) && ranked == ToHit(ById(r.chunks), h, i + 1);
    var exact := ExactMatchOf(env, r);
    assert ValidChunks(Members(r.pages), r.chunks);
    hide WellFormed, Dense, HybridRank, Ranked, ExactMatchOf, LiteralText, ById;
    if exact.Some? && exact.value.path == HybridPage(h) {
      var c := ExactChunk(env, r);
      LiteralTextFinds(r.chunks, exact.value, c);
      ByIdHolds(r.chunks, c);
    }
  }

  lemma ExactChunk(env: Env, r: Request) returns (c: ChunkMeta)
    requires ExactMatchOf(env, r).Some?
    ensures c in r.chunks && c.id == ChunkId(ExactMatchOf(env, r).value.path, ExactMatchOf(env, r).value.ordinal)
  {
    var leader, m := Leader(Dense(env, r), LexicalIds(r.lexical)), ExactMatchOf(env, r).value;
    var literal := Literal(r.chunks);
    ExactMatchMeaning(r.query, leader, literal, m);
    hide SingleToken, ExactIdentifierMatch, Leader, Dense, Rescuable;
    var l :| l in literal && l.path == m.path && l.ordinal == m.ordinal;
    var i :| 0 <= i < |literal| && literal[i] == l;
    c := r.chunks[i];
  }

  /** An explanation tells the page's place in the dense ranking, its place among the lexical pages and,
      if the ranking was fused, a total that is the sum of the shares it lists. */
  lemma ExplanationTells(env: Env, r: Request, k: nat)
    requires k < |Hybrids(env, r)|
    ensures var h, dense, lexical := Hybrids(env, r)[k], Dense(env, r), LexicalIds(r.lexical);
      var e := Explained(h);
      && e.denseRank == Some(DenseRankOf(dense, HybridPage(h)))
      && e.bm25Rank == h.lexicalRank
      && NamesLexical(h, if Usable(dense, lexical) == [] then [] else LexicalPages(lexical))
      && (e.rrf.Some? <==> Usable(dense, lexical) != [])
      && (e.rrf.Some? ==>
            && e.rrf.value == DenseShare(dense, HybridPage(h)) + LexicalShare(dense, lexical, HybridPage(h))
            && e.rrf.value == Total(e.contributions))
      && (e.rrf.None? ==> e.contributions == [])
  {
    var dense, lexical := Dense(env, r), LexicalIds(r.lexical);
    var limit := |dense| + CANDIDATES;
    DenseHasOnePerPage(env, r);
    hide Dense, OnePerPage;
    HybridFollows(dense, lexical, limit, k);
    HybridLexical(dense, lexical, limit, k);
    HybridEntry(dense, lexical, limit, k);
    FusedTotalIsBothShares(dense, lexical, HybridPage(Hybrids(env, r)[k]));
    hide HybridRank, Usable, Order, LexicalPages, NamesLexical, DenseRankOf, DenseShare, LexicalShare;
    hide Total, LexicalIndex;
  }

  /** Every returned hit is a ranked page: it quotes the exact match's chunk, else the page's first lexical
      chunk, else its best dense chunk, with the loaded text, its own rounded dense score, and the
      explanation of its ranks. */
  lemma HitsQuoteTheirChunk(env: Env, r: Request, response: Response, i: nat) returns (k: nat)
    requires WellFormed(env, r) && Answers(env, r, response) && i < |response.hits|
    ensures k < |Hybrids(env, r)| && HybridPage(Hybrids(env, r)[k]) == response.hits[i].path
    ensures var id := QuotedChunk(env, r, Hybrids(env, r)[k]);
      id in ById(r.chunks) && response.hits[i].text == ById(r.chunks)[id]
    ensures response.hits[i].score == env.round(Hybrids(env, r)[k].dense.score)
    ensures response.hits[i].path in response.explained
    ensures response.explained[response.hits[i].path] == Explained(Hybrids(env, r)[k])
  {
    EveryHitIsExplained(env, r, response, i);
    var outcome := OutcomeOf(env, r);
    assert Presents(env, r.statistics.weights.value, outcome.hits[i], response.hits[i]);
    hide WellFormed, Hybrids, OutcomeOf, ShownOf, ById, QuotedChunk;
    OutcomeIsShown(env, r);
    assert outcome.hits[i] in outcome.hits;
    k := ShownIsSelected(env, r, outcome.hits[i]);
    SelectedQuotesItsChunk(env, r, k);
  }

  lemma ShownIsSelected(env: Env, r: Request, hit: SelectedHit) returns (k: nat)
    requires WellFormed(env, r) && hit in ShownOf(env, r)
    ensures k < |Ranked(env, r)| == |Hybrids(env, r)| && HybridPage(Hybrids(env, r)[k]) == hit.path
    ensures hit.(exact := false) == Chosen(Ranked(env, r)[k], ExactMatchOf(env, r), Literal(r.chunks))
  {
    var exact, literal := ExactMatchOf(env, r), Literal(r.chunks);
    var selected := Selected(Ranked(env, r), exact, literal);
    assert ShownOf(env, r) == Shown(selected, exact, r.selection.limit);
    assert |Ranked(env, r)| == |Hybrids(env, r)|;
    hide WellFormed, Hybrids, ExactMatchOf, Shown, Ranked, Selected, Chosen, ShownOf;
    SelectedFollowsRanking(env, r);
    SelectedPages(Ranked(env, r), exact, literal);
    ShownIsBounded(selected, exact, r.selection.limit);
    var x :| 0 <= x < |ShownOf(env, r)| && ShownOf(env, r)[x] == hit;
    k :| 0 <= k < |selected| && hit.(exact := false) == selected[k];
    assert hit.path == selected[k].path;
  }
}
