/** Dense ranking, reciprocal-rank fusion and the shipped hybrid order, over exact reals. */
module Rank {
  import opened Wrappers
  import opened Lists

  const RRF_K: nat := 60
  const CANDIDATES: nat := 25
  const LEXICAL_WEIGHT: real := 0.2

  /** A page is its place in the order of canonical paths. */
  type PageId = nat

  datatype ChunkId = ChunkId(page: PageId, ordinal: nat)

  predicate ChunkLe(a: ChunkId, b: ChunkId) {
    a.page < b.page || (a.page == b.page && a.ordinal <= b.ordinal)
  }

  // ----- dense ranking -------------------------------------------------------------------------

  /** A chunk and its unrounded cosine. */
  datatype Scored = Scored(id: ChunkId, score: real)

  predicate Better(a: Scored, b: Scored) {
    a.score > b.score || (a.score == b.score && ChunkLe(a.id, b.id))
  }

  function ScoredPage(c: Scored): PageId { c.id.page }

  /** The best chunk of every page, best page first. */
  function BestChunks(candidates: seq<Scored>): seq<Scored> {
    FirstBy(ScoredPage, {}, Sort(Better, candidates))
  }

  /** `dense_rank` collapses to one entry per page, its chunk of maximal cosine with the smallest
      id on ties, in descending order. */
  lemma DenseRankIsBest(candidates: seq<Scored>)
    ensures var best := BestChunks(candidates);
      && SortedBy(Better, best)
      && (forall i, j :: 0 <= i < j < |best| ==> best[i].id.page != best[j].id.page)
      && (forall i :: 0 <= i < |best| ==> best[i] in candidates)
      && (forall i, c :: 0 <= i < |best| && c in candidates && c.id.page == best[i].id.page ==> Better(best[i], c))
      && (forall c :: c in candidates ==> exists i :: 0 <= i < |best| && best[i].id.page == c.id.page)
  {
    var sorted := Sort(Better, candidates);
    var best := BestChunks(candidates);
    SortPermutes(Better, candidates);
    BetterIsTotal();
    SortSorts(Better, candidates);
    FirstByMembers(ScoredPage, {}, sorted);
    FirstByLeast(Better, ScoredPage, {}, sorted);
    hide Sort, FirstBy, TotalOrder, Better;
    forall c | c in candidates ensures exists i :: 0 <= i < |best| && best[i].id.page == c.id.page {
      var i := FirstByCovers(ScoredPage, {}, sorted, c);
      assert best[i].id.page == c.id.page;
    }
    assert SortedBy(Better, best);
    hide SortedBy;
    forall i, c | 0 <= i < |best| && c in candidates && c.id.page == best[i].id.page ensures Better(best[i], c) {
      assert ScoredPage(c) == ScoredPage(best[i]);
    }
  }

  /** Pages stand in the order of their best cosine, then of their paths; a page's chunk has the largest
      cosine, then the smallest ordinal. */
  lemma DenseOrderIs(candidates: seq<Scored>)
    ensures var best := BestChunks(candidates);
      && (forall i, j :: 0 <= i < j < |best| ==>
            || best[i].score > best[j].score
            || (best[i].score == best[j].score && best[i].id.page < best[j].id.page))
      && (forall i, c :: 0 <= i < |best| && c in candidates && c.id.page == best[i].id.page ==>
            best[i].score > c.score || (best[i].score == c.score && best[i].id.ordinal <= c.id.ordinal))
  {
    DenseRankIsBest(candidates);
    var best := BestChunks(candidates);
    hide BestChunks;
    forall i, j | 0 <= i < j < |best|
      ensures best[i].score > best[j].score
        || (best[i].score == best[j].score && best[i].id.page < best[j].id.page)
    {
      assert Better(best[i], best[j]);
    }
  }

  ghost predicate IsBest(best: Scored, candidates: seq<Scored>) {
    best in candidates && forall c :: c in candidates ==> c.score <= best.score
  }

  lemma FirstIsBest(candidates: seq<Scored>)
    ensures BestChunks(candidates) == [] <==> candidates == []
    ensures candidates != [] ==> IsBest(BestChunks(candidates)[0], candidates)
  {
    hide BestChunks;
    var best := BestChunks(candidates);
    BestAreCandidates(candidates);
    forall c | c in candidates ensures best != [] && c.score <= best[0].score {
      BoundedByFirst(candidates, c);
    }
    assert candidates != [] ==> candidates[0] in candidates;
  }

  lemma BestAreCandidates(candidates: seq<Scored>)
    ensures BestChunks(candidates) != [] ==> BestChunks(candidates)[0] in candidates
  {
    hide BestChunks, SortedBy;
    DenseRankIsBest(candidates);
  }

  lemma BoundedByFirst(candidates: seq<Scored>, c: Scored)
    requires c in candidates
    ensures BestChunks(candidates) != [] && c.score <= BestChunks(candidates)[0].score
  {
    hide BestChunks;
    var i := BestOf(candidates, c);
    DenseOrderIs(candidates);
  }

  lemma BestOf(candidates: seq<Scored>, c: Scored) returns (i: nat)
    requires c in candidates
    ensures i < |BestChunks(candidates)| && BestChunks(candidates)[i].id.page == c.id.page
  {
    hide BestChunks, SortedBy;
    DenseRankIsBest(candidates);
    i :| 0 <= i < |BestChunks(candidates)| && BestChunks(candidates)[i].id.page == c.id.page;
  }

  lemma BetterIsTotal()
    ensures TotalOrder(Better)
  {
  }

  /** The public score is a rounding of the cosine. */
  type Rounding = real -> real

  ghost predicate Monotone(round: Rounding) { forall x, y :: x <= y ==> round(x) <= round(y) }

  datatype DenseRanked = DenseRanked(chunk: ChunkId, score: real)

  function DenseRank(round: Rounding, candidates: seq<Scored>): (r: seq<DenseRanked>)
    ensures |r| == |BestChunks(candidates)|
    ensures forall i :: 0 <= i < |r| ==>
      r[i] == DenseRanked(BestChunks(candidates)[i].id, round(BestChunks(candidates)[i].score))
  {
    var best := BestChunks(candidates);
    seq(|best|, i requires 0 <= i < |best| => DenseRanked(best[i].id, round(best[i].score)))
  }

  predicate OnePerPage(dense: seq<DenseRanked>) {
    forall i, j :: 0 <= i < j < |dense| ==> dense[i].chunk.page != dense[j].chunk.page
  }

  /** The corpus baseline, the first dense score, bounds every dense score. */
  lemma BaselineBoundsScores(round: Rounding, candidates: seq<Scored>)
    requires Monotone(round)
    ensures var dense := DenseRank(round, candidates);
      OnePerPage(dense) && forall i :: 0 <= i < |dense| ==> dense[i].score <= dense[0].score
  {
    DenseRankIsBest(candidates);
    var best := BestChunks(candidates);
    hide BestChunks;
    BestComesFirst(best);
    hide SortedBy;
    var dense := DenseRank(round, candidates);
    forall i | 0 <= i < |dense| ensures dense[i].score <= dense[0].score {
      assert round(best[i].score) <= round(best[0].score);
    }
  }

  lemma BestComesFirst(best: seq<Scored>)
    requires SortedBy(Better, best)
    ensures forall i :: 0 <= i < |best| ==> best[i].score <= best[0].score
  {
    forall i | 0 < i < |best| ensures best[i].score <= best[0].score {
      assert Better(best[0], best[i]);
    }
  }

  // ----- reciprocal-rank fusion --------------------------------------------------------------------

  datatype Contribution = Contribution(source: nat, rank: nat, weight: real, score: real)
  datatype RrfScore = RrfScore(total: real, contributions: seq<Contribution>)
  datatype RankError = RankingWeightMismatch | NegativeWeight(source: nat)

  function Itself(p: PageId): PageId { p }

  function Unique(ranking: seq<PageId>): seq<PageId> { FirstBy(Itself, {}, ranking) }

  function IndexOf(s: seq<PageId>, p: PageId): (i: nat)
    ensures i <= |s| && (i < |s| <==> p in s) && (i < |s| ==> s[i] == p)
    ensures forall j :: 0 <= j < i ==> s[j] != p
  {
    if s == [] || s[0] == p then 0 else 1 + IndexOf(s[1..], p)
  }

  function Share(weight: real, k: nat, rank: nat): real
    requires rank > 0
  {
    weight / (k + rank) as real
  }

  /** What source `i` contributes to a page: nothing, or one share at its rank. */
  function FromSource(rankings: seq<seq<PageId>>, weights: seq<real>, k: nat, page: PageId, i: nat): seq<Contribution>
    requires i < |rankings| == |weights|
  {
    var rank := IndexOf(Unique(rankings[i]), page) + 1;
    if page in Unique(rankings[i]) then [Contribution(i, rank, weights[i], Share(weights[i], k, rank))] else []
  }

  function FromSources(rankings: seq<seq<PageId>>, weights: seq<real>, k: nat, page: PageId, n: nat): seq<Contribution>
    requires n <= |rankings| == |weights|
  {
    if n == 0 then []
    else FromSources(rankings, weights, k, page, n - 1) + FromSource(rankings, weights, k, page, n - 1)
  }

  function Total(contributions: seq<Contribution>): real {
    if contributions == [] then 0.0
    else Total(contributions[..|contributions| - 1]) + contributions[|contributions| - 1].score
  }

  lemma TotalAppends(contributions: seq<Contribution>, c: Contribution)
    ensures Total(contributions + [c]) == Total(contributions) + c.score
  {
    assert (contributions + [c])[..|contributions|] == contributions;
  }

  predicate ValidWeights(rankings: seq<seq<PageId>>, weights: seq<real>) {
    |rankings| == |weights| && forall i :: 0 <= i < |weights| ==> weights[i] >= 0.0
  }

  /** The entry of a page records exactly these contributions and their sum. */
  predicate Records(scores: map<PageId, RrfScore>, p: PageId, contributions: seq<Contribution>) {
    && (p in scores <==> contributions != [])
    && (p in scores ==> scores[p] == RrfScore(Total(contributions), contributions))
  }

  /** The score map after the first `n` sources. */
  ghost predicate Explains(scores: map<PageId, RrfScore>, rankings: seq<seq<PageId>>, weights: seq<real>, k: nat,
                           n: nat)
    requires n <= |rankings| == |weights|
  {
    forall p :: Records(scores, p, FromSources(rankings, weights, k, p, n))
  }

  /** `rrf_explained`: each total is the sum of its recorded contributions, at most one from
      each source, at the page's rank among that source's distinct pages. */
  method RrfExplained(rankings: seq<seq<PageId>>, weights: seq<real>, k: nat)
    returns (r: Result<map<PageId, RrfScore>, RankError>)
    ensures r.Ok? <==> ValidWeights(rankings, weights)
    ensures r.Ok? ==> Explains(r.value, rankings, weights, k, |rankings|)
  {
    if |rankings| != |weights| {
      return Err(RankingWeightMismatch);
    }
    for i := 0 to |weights|
      invariant forall j :: 0 <= j < i ==> weights[j] >= 0.0
    {
      if weights[i] < 0.0 {
        return Err(NegativeWeight(i));
      }
    }
    var scores: map<PageId, RrfScore> := map[];
    assert Explains(scores, rankings, weights, k, 0);
    hide Explains;
    for source := 0 to |rankings|
      invariant Explains(scores, rankings, weights, k, source)
    {
      scores := AddSource(scores, rankings, weights, k, source);
    }
    r := Ok(scores);
  }

  /** The entry of `p` inside source `source`, once the first `index` of its distinct pages have
      been added. */
  ghost predicate Partly(scores: map<PageId, RrfScore>, rankings: seq<seq<PageId>>, weights: seq<real>, k: nat,
                         source: nat, index: nat, p: PageId)
    requires source < |rankings| == |weights|
  {
    var n := if IndexOf(Unique(rankings[source]), p) < index then source + 1 else source;
    Records(scores, p, FromSources(rankings, weights, k, p, n))
  }

  function AddShare(scores: map<PageId, RrfScore>, page: PageId, c: Contribution): map<PageId, RrfScore> {
    var entry := if page in scores then scores[page] else RrfScore(0.0, []);
    scores[page := RrfScore(entry.total + c.score, entry.contributions + [c])]
  }

  lemma ShareAdded(scores: map<PageId, RrfScore>, rankings: seq<seq<PageId>>, weights: seq<real>, k: nat,
                   source: nat, index: nat, p: PageId)
    requires source < |rankings| == |weights| && index < |Unique(rankings[source])|
    requires Partly(scores, rankings, weights, k, source, index, p)
    ensures
      var c := Contribution(source, index + 1, weights[source], Share(weights[source], k, index + 1));
      Partly(AddShare(scores, Unique(rankings[source])[index], c), rankings, weights, k, source, index + 1, p)
  {
    hide FromSources, FirstBy, Total;
    var unique := Unique(rankings[source]);
    FirstByMembers(Itself, {}, rankings[source]);
    RankAt(unique, index);
    if p == unique[index] {
      var c := Contribution(source, index + 1, weights[source], Share(weights[source], k, index + 1));
      OneMoreSource(rankings, weights, k, p, source);
      TotalAppends(FromSources(rankings, weights, k, p, source), c);
      NoTotal();
    } else {
      assert IndexOf(unique, p) != index;
    }
  }

  method AddSource(before: map<PageId, RrfScore>, rankings: seq<seq<PageId>>, weights: seq<real>, k: nat, source: nat)
    returns (scores: map<PageId, RrfScore>)
    requires source < |rankings| == |weights| && Explains(before, rankings, weights, k, source)
    ensures Explains(scores, rankings, weights, k, source + 1)
  {
    var unique := Unique(rankings[source]);
    scores := before;
    assert forall p :: Partly(scores, rankings, weights, k, source, 0, p);
    for index := 0 to |unique|
      invariant forall p :: Partly(scores, rankings, weights, k, source, index, p)
    {
      hide Partly;
      var c := Contribution(source, index + 1, weights[source], Share(weights[source], k, index + 1));
      var after := AddShare(scores, unique[index], c);
      var next := index + 1;
      forall p ensures Partly(after, rankings, weights, k, source, next, p) {
        ShareAdded(scores, rankings, weights, k, source, index, p);
      }
      scores := after;
    }
    SourceDone(scores, rankings, weights, k, source);
  }

  lemma SourceDone(scores: map<PageId, RrfScore>, rankings: seq<seq<PageId>>, weights: seq<real>, k: nat, source: nat)
    requires source < |rankings| == |weights|
    requires forall p :: Partly(scores, rankings, weights, k, source, |Unique(rankings[source])|, p)
    ensures Explains(scores, rankings, weights, k, source + 1)
  {
    hide FromSources, FirstBy, Records;
    var n := source + 1;
    forall p: PageId ensures Records(scores, p, FromSources(rankings, weights, k, p, n)) {
      assert Partly(scores, rankings, weights, k, source, |Unique(rankings[source])|, p);
      OneMoreSource(rankings, weights, k, p, source);
      if p !in Unique(rankings[source]) {
        assert FromSources(rankings, weights, k, p, source + 1) == FromSources(rankings, weights, k, p, source);
      }
    }
  }

  lemma NoTotal()
    ensures Total([]) == 0.0
  {
  }

  lemma RankAt(unique: seq<PageId>, index: nat)
    requires index < |unique| && forall i, j :: 0 <= i < j < |unique| ==> unique[i] != unique[j]
    ensures IndexOf(unique, unique[index]) == index
  {
  }

  lemma OneMoreSource(rankings: seq<seq<PageId>>, weights: seq<real>, k: nat, p: PageId, source: nat)
    requires source < |rankings| == |weights|
    ensures FromSources(rankings, weights, k, p, source + 1)
         == FromSources(rankings, weights, k, p, source) + FromSource(rankings, weights, k, p, source)
  {
  }

  lemma OneFromSource(rankings: seq<seq<PageId>>, weights: seq<real>, k: nat, p: PageId, i: nat)
    requires i < |rankings| == |weights|
    ensures var cs := FromSource(rankings, weights, k, p, i); cs == [] || (|cs| == 1 && cs[0].source == i)
  {
    hide FirstBy;
  }

  /** Contributions come at most once from each source, in source order. */
  lemma {:induction false} OnePerSource(rankings: seq<seq<PageId>>, weights: seq<real>, k: nat, p: PageId, n: nat)
    requires n <= |rankings| == |weights|
    ensures var cs := FromSources(rankings, weights, k, p, n);
      && (forall i :: 0 <= i < |cs| ==> cs[i].source < n)
      && (forall i, j :: 0 <= i < j < |cs| ==> cs[i].source < cs[j].source)
  {
    if n > 0 {
      hide FromSources, FromSource;
      OnePerSource(rankings, weights, k, p, n - 1);
      OneMoreSource(rankings, weights, k, p, n - 1);
      OneFromSource(rankings, weights, k, p, n - 1);
    }
  }

  // ----- the hybrid order --------------------------------------------------------------------------

  function Take<T>(s: seq<T>, n: nat): seq<T> { if |s| <= n then s else s[..n] }

  function ChunkPage(c: ChunkId): PageId { c.page }

  /** The first chunk of each of the first 25 pages of the lexical stream. */
  function LexicalPages(lexical: seq<ChunkId>): seq<ChunkId> {
    Take(FirstBy(ChunkPage, {}, lexical), CANDIDATES)
  }

  function Pages(dense: seq<DenseRanked>): (r: seq<PageId>)
    ensures |r| == |dense| && forall i :: 0 <= i < |r| ==> r[i] == dense[i].chunk.page
  {
    seq(|dense|, i requires 0 <= i < |dense| => dense[i].chunk.page)
  }

  /** The pages of chunks whose page has a dense entry. */
  function UsableOf(pages: seq<PageId>, chunks: seq<ChunkId>): seq<PageId> {
    if chunks == [] then []
    else (if chunks[0].page in pages then [chunks[0].page] else []) + UsableOf(pages, chunks[1..])
  }

  function Usable(dense: seq<DenseRanked>, lexical: seq<ChunkId>): seq<PageId> {
    UsableOf(Pages(dense), LexicalPages(lexical))
  }

  function Sources(dense: seq<DenseRanked>, lexical: seq<ChunkId>): seq<seq<PageId>> {
    [Take(Pages(dense), CANDIDATES), Usable(dense, lexical)]
  }

  const WEIGHTS: seq<real> := [1.0, LEXICAL_WEIGHT]

  function Fusion(dense: seq<DenseRanked>, lexical: seq<ChunkId>, p: PageId): RrfScore {
    var contributions := FromSources(Sources(dense, lexical), WEIGHTS, RRF_K, p, 2);
    RrfScore(Total(contributions), contributions)
  }

  function FusedTotal(dense: seq<DenseRanked>, lexical: seq<ChunkId>, p: PageId): real {
    Fusion(dense, lexical, p).total
  }

  predicate FusedLe(dense: seq<DenseRanked>, lexical: seq<ChunkId>, a: PageId, b: PageId) {
    FusedTotal(dense, lexical, a) > FusedTotal(dense, lexical, b)
    || (FusedTotal(dense, lexical, a) == FusedTotal(dense, lexical, b) && a <= b)
  }

  function Fused(dense: seq<DenseRanked>, lexical: seq<ChunkId>): seq<PageId> {
    Unique(Take(Pages(dense), CANDIDATES) + Usable(dense, lexical))
  }

  /** The fused pages by total descending, then page ascending. */
  function Order(dense: seq<DenseRanked>, lexical: seq<ChunkId>): seq<PageId> {
    Sort((a: PageId, b: PageId) => FusedLe(dense, lexical, a, b), Fused(dense, lexical))
  }

  datatype Hybrid = Hybrid(
    dense: DenseRanked,
    lexicalChunk: Option<ChunkId>,
    denseRank: nat,
    lexicalRank: Option<nat>,
    fusion: Option<RrfScore>)

  function LexicalIndex(chunks: seq<ChunkId>, p: PageId): (i: nat)
    ensures i <= |chunks|
  {
    if chunks == [] || chunks[0].page == p then 0 else 1 + LexicalIndex(chunks[1..], p)
  }

  function Hybridized(dense: seq<DenseRanked>, lexical: seq<ChunkId>, p: PageId): Hybrid
    requires p in Pages(dense)
  {
    var at := IndexOf(Pages(dense), p);
    var chunks := LexicalPages(lexical);
    var i := LexicalIndex(chunks, p);
    Hybrid(dense[at], if i < |chunks| then Some(chunks[i]) else None, at + 1,
           if i < |chunks| then Some(i + 1) else None, Some(Fusion(dense, lexical, p)))
  }

  /** `hybrid_rank`. */
  function HybridRank(dense: seq<DenseRanked>, lexical: seq<ChunkId>, limit: nat): seq<Hybrid> {
    if Usable(dense, lexical) == [] then
      var shown := Take(dense, limit);
      seq(|shown|, i requires 0 <= i < |shown| => Hybrid(shown[i], None, i + 1, None, None))
    else
      OrderIsDense(dense, lexical);
      var order := Take(Order(dense, lexical), limit);
      seq(|order|, i requires 0 <= i < |order| => Hybridized(dense, lexical, order[i]))
  }

  lemma {:induction false} UsableMembers(pages: seq<PageId>, chunks: seq<ChunkId>)
    ensures forall p :: p in UsableOf(pages, chunks) ==> p in pages
    ensures forall c :: c in chunks && c.page in pages ==> c.page in UsableOf(pages, chunks)
  {
    if chunks != [] {
      UsableMembers(pages, chunks[1..]);
      assert chunks == [chunks[0]] + chunks[1..];
    }
  }

  lemma UniqueMembers(s: seq<PageId>)
    ensures forall p :: p in Unique(s) <==> p in s
    ensures forall i, j :: 0 <= i < j < |Unique(s)| ==> Unique(s)[i] != Unique(s)[j]
  {
    FirstByMembers(Itself, {}, s);
    forall p | p in s ensures p in Unique(s) {
      var i := FirstByCovers(Itself, {}, s, p);
      assert Unique(s)[i] == p;
    }
    hide FirstBy;
    forall i, j | 0 <= i < j < |Unique(s)| ensures Unique(s)[i] != Unique(s)[j] {
      assert Itself(Unique(s)[i]) != Itself(Unique(s)[j]);
    }
  }

  /** The fused order holds exactly the candidates of both sources, and only dense pages. */
  lemma OrderIsDense(dense: seq<DenseRanked>, lexical: seq<ChunkId>)
    ensures forall p :: p in Order(dense, lexical) <==>
      p in Take(Pages(dense), CANDIDATES) || p in Usable(dense, lexical)
    ensures forall p :: p in Order(dense, lexical) ==> p in Pages(dense)
  {
    SortPermutes((a: PageId, b: PageId) => FusedLe(dense, lexical, a, b), Fused(dense, lexical));
    UniqueMembers(Take(Pages(dense), CANDIDATES) + Usable(dense, lexical));
    UsableMembers(Pages(dense), LexicalPages(lexical));
    hide Sort, FirstBy, UsableOf, FusedLe;
  }

  lemma {:induction false} DistinctLength(a: seq<PageId>, b: seq<PageId>)
    requires forall i, j :: 0 <= i < j < |a| ==> a[i] != a[j]
    requires forall p :: p in a ==> p in b
    ensures |a| <= |b|
  {
    if a != [] {
      var n := |a| - 1;
      assert a[n] in a;
      var i :| 0 <= i < |b| && b[i] == a[n];
      var rest := b[..i] + b[i + 1..];
      forall p | p in a[..n] ensures p in rest {
        assert p in a;
        var j :| 0 <= j < |b| && b[j] == p;
        assert p != a[n];
        assert if j < i then rest[j] == p else rest[j - 1] == p;
      }
      DistinctLength(a[..n], rest);
    }
  }

  /** Every candidate keeps its place in the order: the limit used by the search never cuts it. */
  lemma OrderFitsDense(dense: seq<DenseRanked>, lexical: seq<ChunkId>)
    ensures |Order(dense, lexical)| <= |dense|
  {
    OrderIsDense(dense, lexical);
    SortPermutes((a: PageId, b: PageId) => FusedLe(dense, lexical, a, b), Fused(dense, lexical));
    UniqueMembers(Take(Pages(dense), CANDIDATES) + Usable(dense, lexical));
    hide Sort, FirstBy, UsableOf, FusedLe;
    DistinctLength(Fused(dense, lexical), Pages(dense));
  }

  // ----- displacement bounds ------------------------------------------------------------------------------

  /** The one-based dense rank, beyond the list for a page that is not dense. */
  function DenseRankOf(dense: seq<DenseRanked>, p: PageId): nat { IndexOf(Pages(dense), p) + 1 }

  function DenseShare(dense: seq<DenseRanked>, p: PageId): real {
    if p in Take(Pages(dense), CANDIDATES) then Share(1.0, RRF_K, DenseRankOf(dense, p)) else 0.0
  }

  lemma {:induction false} UniqueOfDistinct(s: seq<PageId>, seen: set<PageId>)
    requires forall i, j :: 0 <= i < j < |s| ==> s[i] != s[j]
    requires forall p :: p in s ==> p !in seen
    ensures FirstBy(Itself, seen, s) == s
    decreases |s|
  {
    if s != [] {
      assert s == [s[0]] + s[1..];
      UniqueOfDistinct(s[1..], seen + {s[0]});
    }
  }

  lemma TakeIndex(s: seq<PageId>, n: nat, p: PageId)
    requires p in Take(s, n)
    ensures IndexOf(Take(s, n), p) == IndexOf(s, p) < n
  {
    var t := Take(s, n);
    assert t[IndexOf(t, p)] == s[IndexOf(t, p)];
  }

  lemma ShareBounds(weight: real, rank: nat)
    requires weight >= 0.0 && rank > 0
    ensures 0.0 <= Share(weight, RRF_K, rank) <= weight / 61.0
  {
    ShareAntitone(weight, 1, rank);
  }

  lemma ShareAntitone(weight: real, r: nat, s: nat)
    requires weight >= 0.0 && 0 < r <= s
    ensures 0.0 <= Share(weight, RRF_K, s) <= Share(weight, RRF_K, r)
  {
    var a, b := (RRF_K + r) as real, (RRF_K + s) as real;
    assert 0.0 < a <= b;
    var x := weight / b;
    assert x * b == weight;
    assert x >= 0.0;
    assert x * a <= x * b;
    assert weight / a == (x * b) / a;
    assert x * a / a == x;
  }

  lemma TwoSources(dense: seq<DenseRanked>, lexical: seq<ChunkId>, p: PageId)
    ensures var sources := Sources(dense, lexical);
      FromSources(sources, WEIGHTS, RRF_K, p, 2)
      == FromSource(sources, WEIGHTS, RRF_K, p, 0) + FromSource(sources, WEIGHTS, RRF_K, p, 1)
  {
    var sources := Sources(dense, lexical);
    assert |sources| == 2 && |WEIGHTS| == 2;
    hide FromSource, Sources;
    OneMoreSource(sources, WEIGHTS, RRF_K, p, 0);
    OneMoreSource(sources, WEIGHTS, RRF_K, p, 1);
    assert FromSources(sources, WEIGHTS, RRF_K, p, 0) == [];
  }

  lemma DenseContribution(dense: seq<DenseRanked>, lexical: seq<ChunkId>, p: PageId)
    requires OnePerPage(dense)
    ensures var first := FromSource(Sources(dense, lexical), WEIGHTS, RRF_K, p, 0);
      |first| <= 1 && DenseShare(dense, p) == if first == [] then 0.0 else first[0].score
  {
    var top := Take(Pages(dense), CANDIDATES);
    UniqueOfDistinct(top, {});
    assert Sources(dense, lexical)[0] == top && |Sources(dense, lexical)| == 2;
    hide FirstBy, Usable, Sources, Take;
    if p in top {
      TakeIndex(Pages(dense), CANDIDATES, p);
    }
  }

  /** What the lexical source adds: the share of the page's rank among its distinct dense pages. */
  function LexicalShare(dense: seq<DenseRanked>, lexical: seq<ChunkId>, p: PageId): real {
    var unique := Unique(Usable(dense, lexical));
    if p in unique then Share(LEXICAL_WEIGHT, RRF_K, IndexOf(unique, p) + 1) else 0.0
  }

  lemma LexicalContribution(dense: seq<DenseRanked>, lexical: seq<ChunkId>, p: PageId)
    ensures var second := FromSource(Sources(dense, lexical), WEIGHTS, RRF_K, p, 1);
      |second| <= 1 && LexicalShare(dense, lexical, p) == if second == [] then 0.0 else second[0].score
  {
    hide FirstBy, UsableOf;
    assert Unique(Sources(dense, lexical)[1]) == Unique(Usable(dense, lexical));
  }

  /** A fused total is the sum of the two shares. */
  lemma FusedTotalIsBothShares(dense: seq<DenseRanked>, lexical: seq<ChunkId>, p: PageId)
    requires OnePerPage(dense)
    ensures FusedTotal(dense, lexical, p) == DenseShare(dense, p) + LexicalShare(dense, lexical, p)
  {
    TwoSources(dense, lexical, p);
    DenseContribution(dense, lexical, p);
    LexicalContribution(dense, lexical, p);
    hide FromSources, FromSource, Sources, DenseShare, LexicalShare, Total;
    var sources := Sources(dense, lexical);
    TwoShares(FromSource(sources, WEIGHTS, RRF_K, p, 0), FromSource(sources, WEIGHTS, RRF_K, p, 1));
  }

  /** A fused total is the dense share plus at most the largest lexical share. */
  lemma FusedTotalBounds(dense: seq<DenseRanked>, lexical: seq<ChunkId>, p: PageId)
    requires OnePerPage(dense)
    ensures DenseShare(dense, p) <= FusedTotal(dense, lexical, p) <= DenseShare(dense, p) + LEXICAL_WEIGHT / 61.0
  {
    FusedTotalIsBothShares(dense, lexical, p);
    hide FusedTotal, DenseShare, Unique, Usable;
    ShareBounds(LEXICAL_WEIGHT, IndexOf(Unique(Usable(dense, lexical)), p) + 1);
  }

  lemma TwoShares(first: seq<Contribution>, second: seq<Contribution>)
    requires |first| <= 1 && |second| <= 1
    ensures Total(first + second)
         == (if first == [] then 0.0 else first[0].score) + (if second == [] then 0.0 else second[0].score)
  {
    hide Total;
    NoTotal();
    TotalOfAtMostOne(first);
    if second == [] {
      assert first + second == first;
    } else {
      assert first + second == first + [second[0]];
      TotalAppends(first, second[0]);
    }
  }

  lemma TotalOfAtMostOne(cs: seq<Contribution>)
    requires |cs| <= 1
    ensures Total(cs) == if cs == [] then 0.0 else cs[0].score
  {
    hide Total;
    NoTotal();
    if cs != [] {
      TotalAppends([], cs[0]);
      assert [] + [cs[0]] == cs;
    }
  }

  lemma FusedLeIsTotal(dense: seq<DenseRanked>, lexical: seq<ChunkId>)
    ensures TotalOrder((a: PageId, b: PageId) => FusedLe(dense, lexical, a, b))
  {
    hide Fusion;
  }

  /** A page that must not stand behind another comes before it. */
  lemma ComesFirst(dense: seq<DenseRanked>, lexical: seq<ChunkId>, i: nat, j: nat)
    requires i < |Order(dense, lexical)| && j < |Order(dense, lexical)|
    requires !FusedLe(dense, lexical, Order(dense, lexical)[j], Order(dense, lexical)[i])
    ensures i < j
  {
    var le := (a: PageId, b: PageId) => FusedLe(dense, lexical, a, b);
    FusedLeIsTotal(dense, lexical);
    SortSorts(le, Fused(dense, lexical));
    hide Sort, Fusion, TotalOrder;
  }

  /** A page with the strictly larger total comes first. */
  lemma LargerComesFirst(dense: seq<DenseRanked>, lexical: seq<ChunkId>, i: nat, j: nat)
    requires i < |Order(dense, lexical)| && j < |Order(dense, lexical)|
    requires FusedTotal(dense, lexical, Order(dense, lexical)[i]) > FusedTotal(dense, lexical, Order(dense, lexical)[j])
    ensures i < j
  {
    hide Fusion, Order;
    ComesFirst(dense, lexical, i, j);
  }

  /** Every dense top-25 page precedes every page outside the dense top 25. */
  lemma TopCandidatesComeFirst(dense: seq<DenseRanked>, lexical: seq<ChunkId>, i: nat, j: nat)
    requires OnePerPage(dense) && i < |Order(dense, lexical)| && j < |Order(dense, lexical)|
    requires DenseRankOf(dense, Order(dense, lexical)[i]) <= CANDIDATES < DenseRankOf(dense, Order(dense, lexical)[j])
    ensures i < j
  {
    var p, q := Order(dense, lexical)[i], Order(dense, lexical)[j];
    hide Order;
    OrderIsDense(dense, lexical);
    assert Pages(dense)[IndexOf(Pages(dense), p)] == p;
    FusedTotalBounds(dense, lexical, p);
    FusedTotalBounds(dense, lexical, q);
    if q in Take(Pages(dense), CANDIDATES) {
      TakeIndex(Pages(dense), CANDIDATES, q);
    }
    InTake(Pages(dense), CANDIDATES, p);
    ShareAntitone(1.0, DenseRankOf(dense, p), CANDIDATES);
    LargerComesFirst(dense, lexical, i, j);
  }

  lemma InTake(s: seq<PageId>, n: nat, p: PageId)
    requires p in s && IndexOf(s, p) < n
    ensures p in Take(s, n)
  {
    assert Take(s, n)[IndexOf(s, p)] == p;
  }

  /** If both pages are in the fused order, `p` comes before `q`. */
  predicate Ahead(dense: seq<DenseRanked>, lexical: seq<ChunkId>, p: PageId, q: PageId) {
    var order := Order(dense, lexical);
    p in order && q in order ==> IndexOf(order, p) < IndexOf(order, q)
  }

  /** The dense shares differ by more than the largest lexical share; page order breaks a tie. */
  predicate OutOfReach(dense: seq<DenseRanked>, p: PageId, q: PageId) {
    var gap := DenseShare(dense, p) - DenseShare(dense, q);
    gap > LEXICAL_WEIGHT / 61.0 || (gap == LEXICAL_WEIGHT / 61.0 && p < q)
  }

  /** A page out of reach is never overtaken, whatever matches lexically. */
  lemma DisplacementIsBounded(dense: seq<DenseRanked>, lexical: seq<ChunkId>, p: PageId, q: PageId)
    requires OnePerPage(dense) && OutOfReach(dense, p, q)
    ensures Ahead(dense, lexical, p, q)
  {
    FusedTotalBounds(dense, lexical, p);
    FusedTotalBounds(dense, lexical, q);
    hide Order, Fusion, DenseShare;
    var order := Order(dense, lexical);
    if p in order && q in order {
      ComesFirst(dense, lexical, IndexOf(order, p), IndexOf(order, q));
    }
  }

  /** Conversely, a page within reach is overtaken as soon as the right pages match. */
  lemma ReachIsTaken(dense: seq<DenseRanked>, p: PageId, q: PageId) returns (lexical: seq<ChunkId>)
    requires OnePerPage(dense) && p in Pages(dense) && q in Pages(dense) && p != q && !OutOfReach(dense, p, q)
    ensures Usable(dense, lexical) != []
    ensures p in Order(dense, lexical) && q in Order(dense, lexical) && !Ahead(dense, lexical, p, q)
  {
    var chunkP, chunkQ := dense[IndexOf(Pages(dense), p)].chunk, dense[IndexOf(Pages(dense), q)].chunk;
    lexical := if p in Take(Pages(dense), CANDIDATES) then [chunkQ] else [chunkQ, chunkP];
    if p in Take(Pages(dense), CANDIDATES) {
      OrderIsDense(dense, lexical);
      OnlyLexical(dense, lexical, q);
      SingleLexicalTotal(dense, lexical, q, p);
      SingleLexicalTotal(dense, lexical, q, q);
      hide Order, Fusion, DenseShare, Usable, Pages, Take;
      var order := Order(dense, lexical);
      ComesFirst(dense, lexical, IndexOf(order, q), IndexOf(order, p));
    } else {
      BetterMatchOvertakes(dense, lexical, p, q);
    }
  }

  /** Outside the dense candidates only the lexical match counts. */
  lemma BetterMatchOvertakes(dense: seq<DenseRanked>, lexical: seq<ChunkId>, p: PageId, q: PageId)
    requires OnePerPage(dense) && p in Pages(dense) && q in Pages(dense) && p != q
    requires p !in Take(Pages(dense), CANDIDATES)
    requires |lexical| == 2 && lexical[0].page == q && lexical[1].page == p
    ensures Usable(dense, lexical) != []
    ensures p in Order(dense, lexical) && q in Order(dense, lexical) && !Ahead(dense, lexical, p, q)
  {
    OrderIsDense(dense, lexical);
    PairOfLexical(dense, lexical, q, p);
    PairTotals(dense, lexical, q, p);
    DenseShareBound(dense, q);
    assert DenseShare(dense, p) == 0.0;
    hide Order, Fusion, DenseShare, Usable, Pages, Take;
    var order := Order(dense, lexical);
    ComesFirst(dense, lexical, IndexOf(order, q), IndexOf(order, p));
  }

  /** Whatever matches lexically, `p` stays ahead of `q`: exactly when it is out of reach. */
  lemma DisplacementExactlyWhen(dense: seq<DenseRanked>, p: PageId, q: PageId)
    requires OnePerPage(dense) && p in Pages(dense) && q in Pages(dense) && p != q
    ensures (forall lexical :: Ahead(dense, lexical, p, q)) <==> OutOfReach(dense, p, q)
  {
    hide Ahead, OutOfReach;
    if OutOfReach(dense, p, q) {
      forall lexical ensures Ahead(dense, lexical, p, q) {
        DisplacementIsBounded(dense, lexical, p, q);
      }
    } else {
      var lexical := ReachIsTaken(dense, p, q);
    }
  }

  /** The bound read off the ranks alone, 1/(60+r) - 1/(60+s) > 0.2/61, suffices exactly for the
      pages among the dense candidates: beyond them the dense share is zero. */
  lemma RankBoundHoldsExactlyForCandidates(dense: seq<DenseRanked>, p: PageId, q: PageId)
    requires OnePerPage(dense) && p in Pages(dense) && q in Pages(dense) && p != q
    requires Share(1.0, RRF_K, DenseRankOf(dense, p)) - Share(1.0, RRF_K, DenseRankOf(dense, q)) > LEXICAL_WEIGHT / 61.0
    ensures (forall lexical :: Ahead(dense, lexical, p, q)) <==> DenseRankOf(dense, p) <= CANDIDATES
  {
    DisplacementExactlyWhen(dense, p, q);
    hide Ahead;
    DenseShareIs(dense, p);
    DenseShareIs(dense, q);
    hide DenseShare, DenseRankOf;
    ShareBounds(1.0, DenseRankOf(dense, q));
  }

  lemma DenseShareIs(dense: seq<DenseRanked>, p: PageId)
    requires p in Pages(dense)
    ensures DenseShare(dense, p) == if DenseRankOf(dense, p) <= CANDIDATES
      then Share(1.0, RRF_K, DenseRankOf(dense, p)) else 0.0
  {
    if DenseRankOf(dense, p) <= CANDIDATES {
      InTake(Pages(dense), CANDIDATES, p);
    } else if p in Take(Pages(dense), CANDIDATES) {
      TakeIndex(Pages(dense), CANDIDATES, p);
    }
  }

  function SixtyPages(): (r: seq<DenseRanked>)
    ensures |r| == 60 && forall i :: 0 <= i < 60 ==> r[i] == DenseRanked(ChunkId(i, 0), 0.0)
  {
    seq(60, i requires 0 <= i < 60 => DenseRanked(ChunkId(i, 0), 0.0))
  }

  /** Beyond the candidates the ranks promise nothing: rank 60 overtakes rank 26, although
      1/86 - 1/120 > 0.2/61, when both match and rank 60 matches better. */
  lemma RankTwentySixIsOvertaken()
    ensures var dense := SixtyPages();
      var lexical := [dense[59].chunk, dense[25].chunk];
      && DenseRankOf(dense, 25) == 26 && DenseRankOf(dense, 59) == 60
      && Share(1.0, RRF_K, 26) - Share(1.0, RRF_K, 60) > LEXICAL_WEIGHT / 61.0
      && 25 in Order(dense, lexical) && 59 in Order(dense, lexical) && !Ahead(dense, lexical, 25, 59)
  {
    var dense := SixtyPages();
    hide SixtyPages, Order, Fusion, DenseShare, Usable, Pages, Take, Share, Ahead, IndexOf;
    PlaceOf(dense, 25);
    PlaceOf(dense, 59);
    BetterMatchOvertakes(dense, [dense[59].chunk, dense[25].chunk], 25, 59);
    WideGap();
  }

  lemma WideGap()
    ensures Share(1.0, RRF_K, 26) - Share(1.0, RRF_K, 60) > LEXICAL_WEIGHT / 61.0
  {
  }

  lemma PlaceOf(dense: seq<DenseRanked>, i: nat)
    requires i < |dense| && forall j :: 0 <= j < |dense| ==> dense[j] == DenseRanked(ChunkId(j, 0), 0.0)
    ensures OnePerPage(dense) && i in Pages(dense) && DenseRankOf(dense, i) == i + 1
    ensures i >= CANDIDATES ==> i !in Take(Pages(dense), CANDIDATES)
  {
    assert Pages(dense)[i] == i;
    assert IndexOf(Pages(dense), i) == i;
    if i in Take(Pages(dense), CANDIDATES) {
      TakeIndex(Pages(dense), CANDIDATES, i);
    }
  }

  lemma PairOfLexical(dense: seq<DenseRanked>, lexical: seq<ChunkId>, p: PageId, q: PageId)
    requires |lexical| == 2 && lexical[0].page == p && lexical[1].page == q && p != q
    requires p in Pages(dense) && q in Pages(dense)
    ensures Usable(dense, lexical) == [p, q] && Unique(Usable(dense, lexical)) == [p, q]
  {
    var last := lexical[1..];
    assert last == [lexical[1]] && last[1..] == [];
    var seen: set<PageId> := {} + {ChunkPage(lexical[0])};
    assert FirstBy(ChunkPage, seen, last) == last;
    assert FirstBy(ChunkPage, {}, lexical) == [lexical[0]] + last == lexical;
    assert LexicalPages(lexical) == lexical;
    OnlyUsable(Pages(dense), last);
    assert UsableOf(Pages(dense), lexical) == [p] + [q] == [p, q];
    UniqueOfDistinct([p, q], {});
  }

  lemma OnlyUsable(pages: seq<PageId>, chunks: seq<ChunkId>)
    requires |chunks| == 1 && chunks[0].page in pages
    ensures UsableOf(pages, chunks) == [chunks[0].page]
  {
    assert chunks[1..] == [] && UsableOf(pages, []) == [];
  }

  lemma PairTotals(dense: seq<DenseRanked>, lexical: seq<ChunkId>, p: PageId, q: PageId)
    requires OnePerPage(dense) && p != q && Unique(Usable(dense, lexical)) == [p, q]
    ensures FusedTotal(dense, lexical, p) == DenseShare(dense, p) + LEXICAL_WEIGHT / 61.0
    ensures FusedTotal(dense, lexical, q) == DenseShare(dense, q) + LEXICAL_WEIGHT / 62.0
  {
    FusedTotalIsBothShares(dense, lexical, p);
    FusedTotalIsBothShares(dense, lexical, q);
    hide FusedTotal, DenseShare, Unique, Usable;
    assert IndexOf([p, q], p) == 0 && IndexOf([p, q], q) == 1;
  }

  /** The first fused page is among the first sixteen dense pages. */
  lemma FirstIsWithinSixteen(dense: seq<DenseRanked>, lexical: seq<ChunkId>)
    requires OnePerPage(dense) && Order(dense, lexical) != []
    ensures DenseRankOf(dense, Order(dense, lexical)[0]) <= 16
  {
    hide Order;
    var p := Order(dense, lexical)[0];
    var j := LeaderIsFused(dense, lexical);
    var best := dense[0].chunk.page;
    FusedTotalBounds(dense, lexical, p);
    FusedTotalBounds(dense, lexical, best);
    if DenseRankOf(dense, p) > 16 {
      FarBehind(dense, p);
      hide DenseShare, DenseRankOf, FusedTotal;
      LargerComesFirst(dense, lexical, j, 0);
      assert false;
    }
  }

  /** The dense leader is in the fused order. */
  lemma LeaderIsFused(dense: seq<DenseRanked>, lexical: seq<ChunkId>) returns (j: nat)
    requires OnePerPage(dense) && Order(dense, lexical) != []
    ensures dense != [] && j < |Order(dense, lexical)| && Order(dense, lexical)[j] == dense[0].chunk.page
  {
    hide Order;
    var order := Order(dense, lexical);
    OrderIsDense(dense, lexical);
    assert order[0] in Pages(dense);
    var best := dense[0].chunk.page;
    assert Pages(dense)[0] == best;
    InTake(Pages(dense), CANDIDATES, best);
    j :| 0 <= j < |order| && order[j] == best;
  }

  lemma FarBehind(dense: seq<DenseRanked>, p: PageId)
    requires dense != [] && DenseRankOf(dense, p) > 16
    ensures DenseShare(dense, dense[0].chunk.page) > DenseShare(dense, p) + LEXICAL_WEIGHT / 61.0
  {
    ShareAntitone(1.0, 17, DenseRankOf(dense, p));
    assert Pages(dense)[0] == dense[0].chunk.page;
  }

  /** Sixteen is exact: the sixteenth dense page leads as soon as it alone matches lexically. */
  lemma SixteenIsTight(dense: seq<DenseRanked>, lexical: seq<ChunkId>)
    requires OnePerPage(dense) && |dense| >= 16 && lexical == [dense[15].chunk]
    ensures Order(dense, lexical) != [] && DenseRankOf(dense, Order(dense, lexical)[0]) == 16
  {
    var p := dense[15].chunk.page;
    assert Pages(dense)[15] == p && IndexOf(Pages(dense), p) == 15;
    var order := Order(dense, lexical);
    InTake(Pages(dense), CANDIDATES, p);
    OrderIsDense(dense, lexical);
    OnlyLexical(dense, lexical, p);
    hide Order, FirstBy, UsableOf, Pages;
    assert p in order;
    var i :| 0 <= i < |order| && order[i] == p;
    if order[0] != p {
      SixteenthTotal(dense, lexical, p, order[0]);
      LargerComesFirst(dense, lexical, i, 0);
      assert false;
    }
  }

  lemma SixteenthTotal(dense: seq<DenseRanked>, lexical: seq<ChunkId>, p: PageId, q: PageId)
    requires OnePerPage(dense) && Unique(Usable(dense, lexical)) == [p] && q != p
    requires p in Take(Pages(dense), CANDIDATES) && DenseRankOf(dense, p) == 16
    ensures FusedTotal(dense, lexical, p) > FusedTotal(dense, lexical, q)
  {
    SingleLexicalTotal(dense, lexical, p, p);
    SingleLexicalTotal(dense, lexical, p, q);
    DenseShareBound(dense, q);
    assert DenseShare(dense, p) == 1.0 / 76.0;
  }

  lemma DenseShareBound(dense: seq<DenseRanked>, p: PageId)
    ensures 0.0 <= DenseShare(dense, p) <= 1.0 / 61.0
  {
    ShareBounds(1.0, DenseRankOf(dense, p));
  }

  lemma OnlyLexical(dense: seq<DenseRanked>, lexical: seq<ChunkId>, p: PageId)
    requires |lexical| == 1 && lexical[0].page == p && p in Pages(dense)
    ensures Usable(dense, lexical) == [p] && Unique(Usable(dense, lexical)) == [p]
  {
    assert lexical[1..] == [];
    assert FirstBy(ChunkPage, {}, lexical) == lexical;
    assert LexicalPages(lexical) == lexical;
    assert UsableOf(Pages(dense), []) == [];
    assert UsableOf(Pages(dense), lexical) == [p] + [] == [p];
    UniqueOfDistinct([p], {});
  }

  lemma SingleLexicalTotal(dense: seq<DenseRanked>, lexical: seq<ChunkId>, p: PageId, q: PageId)
    requires OnePerPage(dense) && Unique(Usable(dense, lexical)) == [p]
    ensures FusedTotal(dense, lexical, q) == DenseShare(dense, q) + if q == p then LEXICAL_WEIGHT / 61.0 else 0.0
  {
    FusedTotalIsBothShares(dense, lexical, q);
    hide FusedTotal, DenseShare, Unique, Usable;
    assert IndexOf([p], p) == 0;
  }

  // ----- what the hybrid ranking returns ------------------------------------------------------------------

  function HybridPage(h: Hybrid): PageId { h.dense.chunk.page }

  /** Every entry carries its page's dense rank; with a usable lexical page the entries follow the
      fused order, and otherwise the dense one. */
  lemma HybridFollows(dense: seq<DenseRanked>, lexical: seq<ChunkId>, limit: nat, i: nat)
    requires OnePerPage(dense) && i < |HybridRank(dense, lexical, limit)|
    ensures var p := HybridPage(HybridRank(dense, lexical, limit)[i]);
      && p in Pages(dense) && HybridRank(dense, lexical, limit)[i].denseRank == DenseRankOf(dense, p)
      && (Usable(dense, lexical) == [] ==> DenseRankOf(dense, p) == i + 1)
      && (Usable(dense, lexical) != [] ==> i < |Order(dense, lexical)| && Order(dense, lexical)[i] == p)
  {
    OrderIsDense(dense, lexical);
    hide Usable, Order, Fusion, LexicalPages, LexicalIndex;
    if Usable(dense, lexical) == [] {
      assert Pages(dense)[i] == dense[i].chunk.page;
      DistinctIndex(Pages(dense), i);
    } else {
      var p := Order(dense, lexical)[i];
      assert Take(Order(dense, lexical), limit)[i] == p && p in Order(dense, lexical);
      assert Pages(dense)[IndexOf(Pages(dense), p)] == p;
    }
  }

  lemma DistinctIndex(s: seq<PageId>, i: nat)
    requires i < |s| && forall a, b :: 0 <= a < b < |s| ==> s[a] != s[b]
    ensures IndexOf(s, s[i]) == i
  {
  }

  /** Fused or not, every dense top-25 page comes before every other page. */
  lemma HybridTopComesFirst(dense: seq<DenseRanked>, lexical: seq<ChunkId>, limit: nat, i: nat, j: nat)
    requires OnePerPage(dense) && i < |HybridRank(dense, lexical, limit)| && j < |HybridRank(dense, lexical, limit)|
    requires HybridRank(dense, lexical, limit)[i].denseRank <= CANDIDATES
    requires CANDIDATES < HybridRank(dense, lexical, limit)[j].denseRank
    ensures i < j
  {
    HybridFollows(dense, lexical, limit, i);
    HybridFollows(dense, lexical, limit, j);
    hide HybridRank, Usable, Order, DenseRankOf;
    if Usable(dense, lexical) != [] {
      TopCandidatesComeFirst(dense, lexical, i, j);
    }
  }

  /** Fused or not, the first page has dense rank at most sixteen. */
  lemma HybridFirstIsWithinSixteen(dense: seq<DenseRanked>, lexical: seq<ChunkId>, limit: nat)
    requires OnePerPage(dense) && HybridRank(dense, lexical, limit) != []
    ensures HybridRank(dense, lexical, limit)[0].denseRank <= 16
  {
    HybridFollows(dense, lexical, limit, 0);
    hide HybridRank, Usable, Order, DenseRankOf;
    if Usable(dense, lexical) != [] {
      FirstIsWithinSixteen(dense, lexical);
    }
  }

  /** If both pages are returned, `p` comes before `q`. */
  predicate HybridAhead(dense: seq<DenseRanked>, lexical: seq<ChunkId>, limit: nat, p: PageId, q: PageId) {
    var hybrids := HybridRank(dense, lexical, limit);
    forall i, j ::
      0 <= i < |hybrids| && 0 <= j < |hybrids| && HybridPage(hybrids[i]) == p && HybridPage(hybrids[j]) == q ==>
        i < j
  }

  lemma HybridIsBounded(dense: seq<DenseRanked>, lexical: seq<ChunkId>, limit: nat, p: PageId, q: PageId,
                        i: nat, j: nat)
    requires OnePerPage(dense) && p != q && OutOfReach(dense, p, q)
    requires i < |HybridRank(dense, lexical, limit)| && HybridPage(HybridRank(dense, lexical, limit)[i]) == p
    requires j < |HybridRank(dense, lexical, limit)| && HybridPage(HybridRank(dense, lexical, limit)[j]) == q
    ensures i < j
  {
    HybridFollows(dense, lexical, limit, i);
    HybridFollows(dense, lexical, limit, j);
    hide HybridRank, Usable, OutOfReach, Order, DenseRankOf;
    if Usable(dense, lexical) == [] {
      OutOfReachIsBefore(dense, p, q);
    } else {
      OrderIsDistinct(dense, lexical);
      DisplacementIsBounded(dense, lexical, p, q);
      DistinctIndex(Order(dense, lexical), i);
      DistinctIndex(Order(dense, lexical), j);
    }
  }

  /** A page out of reach has the better dense rank. */
  lemma OutOfReachIsBefore(dense: seq<DenseRanked>, p: PageId, q: PageId)
    requires OutOfReach(dense, p, q) && p in Pages(dense) && q in Pages(dense)
    ensures DenseRankOf(dense, p) < DenseRankOf(dense, q)
  {
    DenseShareIs(dense, p);
    DenseShareIs(dense, q);
    DenseShareBound(dense, q);
    hide DenseShare, DenseRankOf;
    if DenseRankOf(dense, q) <= DenseRankOf(dense, p) {
      ShareAntitone(1.0, DenseRankOf(dense, q), DenseRankOf(dense, p));
    }
  }

  lemma OrderIsDistinct(dense: seq<DenseRanked>, lexical: seq<ChunkId>)
    ensures forall a, b :: 0 <= a < b < |Order(dense, lexical)| ==> Order(dense, lexical)[a] != Order(dense, lexical)[b]
  {
    var le := (a: PageId, b: PageId) => FusedLe(dense, lexical, a, b);
    UniqueMembers(Take(Pages(dense), CANDIDATES) + Usable(dense, lexical));
    var fused := Fused(dense, lexical);
    assert fused == Unique(Take(Pages(dense), CANDIDATES) + Usable(dense, lexical));
    hide Fused, FusedLe, Sort, Unique, Usable, Take;
    assert DistinctBy(Itself, fused);
    SortKeepsDistinct(le, Itself, fused);
    var order := Order(dense, lexical);
    forall a, b | 0 <= a < b < |order| ensures order[a] != order[b] {
      assert Itself(order[a]) != Itself(order[b]);
    }
  }

  /** What the search sees: whatever matches lexically and however many are asked for, `p` is
      returned ahead of `q`, exactly when it is out of reach. */
  lemma HybridDisplacementExactlyWhen(dense: seq<DenseRanked>, p: PageId, q: PageId)
    requires OnePerPage(dense) && p in Pages(dense) && q in Pages(dense) && p != q
    ensures (forall lexical, limit :: HybridAhead(dense, lexical, limit, p, q)) <==> OutOfReach(dense, p, q)
  {
    if OutOfReach(dense, p, q) {
      forall lexical, limit ensures HybridAhead(dense, lexical, limit, p, q) {
        HybridNeverOvertaken(dense, lexical, limit, p, q);
      }
    } else {
      var lexical := HybridOvertaken(dense, p, q);
      assert !HybridAhead(dense, lexical, |dense|, p, q);
    }
  }

  lemma HybridNeverOvertaken(dense: seq<DenseRanked>, lexical: seq<ChunkId>, limit: nat, p: PageId, q: PageId)
    requires OnePerPage(dense) && p != q && OutOfReach(dense, p, q)
    ensures HybridAhead(dense, lexical, limit, p, q)
  {
    var hybrids := HybridRank(dense, lexical, limit);
    hide HybridRank, OutOfReach;
    forall i, j | 0 <= i < |hybrids| && 0 <= j < |hybrids| && HybridPage(hybrids[i]) == p && HybridPage(hybrids[j]) == q
      ensures i < j
    {
      HybridIsBounded(dense, lexical, limit, p, q, i, j);
    }
  }

  lemma HybridOvertaken(dense: seq<DenseRanked>, p: PageId, q: PageId) returns (lexical: seq<ChunkId>)
    requires OnePerPage(dense) && p in Pages(dense) && q in Pages(dense) && p != q && !OutOfReach(dense, p, q)
    ensures !HybridAhead(dense, lexical, |dense|, p, q)
  {
    lexical := ReachIsTaken(dense, p, q);
    OrderFitsDense(dense, lexical);
    hide OutOfReach, Order, DenseShare;
    var order := Order(dense, lexical);
    var i, j := IndexOf(order, p), IndexOf(order, q);
    assert order[i] == p && order[j] == q && j <= i;
    HybridHoldsOrder(dense, lexical, i);
    HybridHoldsOrder(dense, lexical, j);
    hide HybridRank;
    assert !(i < j);
  }

  lemma HybridHoldsOrder(dense: seq<DenseRanked>, lexical: seq<ChunkId>, i: nat)
    requires OnePerPage(dense) && i < |Order(dense, lexical)|
    ensures i < |HybridRank(dense, lexical, |dense|)|
    ensures Usable(dense, lexical) == []
         || HybridPage(HybridRank(dense, lexical, |dense|)[i]) == Order(dense, lexical)[i]
  {
    OrderFitsDense(dense, lexical);
    hide Order, Usable, Fusion, LexicalPages;
    if Usable(dense, lexical) != [] {
      HybridFollows(dense, lexical, |dense|, i);
    }
  }

  // ----- which lexical pages count ----------------------------------------------------------------------

  /** Where the page's first chunk stands in the stream. */
  function FirstChunkAt(lexical: seq<ChunkId>, p: PageId): nat { Occurrence(ChunkPage, lexical, p) }

  /** The lexical source is the first chunk of each of the first twenty-five pages of the stream, in
      stream order: a page that is left out comes after twenty-five others. */
  lemma LexicalPagesAre(lexical: seq<ChunkId>)
    ensures var r := LexicalPages(lexical);
      && |r| <= 25
      && (forall i :: 0 <= i < |r| ==>
            FirstChunkAt(lexical, r[i].page) < |lexical| && lexical[FirstChunkAt(lexical, r[i].page)] == r[i])
      && (forall i, j :: 0 <= i < j < |r| ==> FirstChunkAt(lexical, r[i].page) < FirstChunkAt(lexical, r[j].page))
      && (forall c :: c in lexical && LexicalIndex(r, c.page) == |r| ==>
            |r| == 25 && forall i :: 0 <= i < |r| ==> FirstChunkAt(lexical, r[i].page) < FirstChunkAt(lexical, c.page))
  {
    var firsts := FirstBy(ChunkPage, {}, lexical);
    var r := LexicalPages(lexical);
    FirstByOccurrences(ChunkPage, {}, lexical);
    forall i | 0 <= i < |r| ensures r[i] == firsts[i] {
    }
    forall c | c in lexical && LexicalIndex(r, c.page) == |r|
      ensures |r| == 25 && forall i :: 0 <= i < |r| ==> FirstChunkAt(lexical, r[i].page) < FirstChunkAt(lexical, c.page)
    {
      var k := FirstByCovers(ChunkPage, {}, lexical, c);
      hide FirstBy, Occurrence;
      if k < |r| {
        LexicalIndexBefore(r, k);
      }
    }
  }

  lemma {:induction false} LexicalIndexBefore(chunks: seq<ChunkId>, k: nat)
    requires k < |chunks|
    ensures LexicalIndex(chunks, chunks[k].page) <= k
  {
    if k > 0 && chunks[0].page != chunks[k].page {
      LexicalIndexBefore(chunks[1..], k - 1);
    }
  }

  lemma {:induction false} LexicalIndexIs(chunks: seq<ChunkId>, p: PageId)
    ensures var i := LexicalIndex(chunks, p);
      && (i < |chunks| ==> chunks[i].page == p)
      && forall j :: 0 <= j < i ==> chunks[j].page != p
  {
    if chunks != [] {
      LexicalIndexIs(chunks[1..], p);
    }
  }

  function PagesOf(chunks: seq<ChunkId>): (r: seq<PageId>)
    ensures |r| == |chunks| && forall i :: 0 <= i < |r| ==> r[i] == chunks[i].page
  {
    seq(|chunks|, i requires 0 <= i < |chunks| => chunks[i].page)
  }

  /** The usable pages are those with a dense entry, in the same order. */
  lemma {:induction false} UsableIsFilter(pages: seq<PageId>, chunks: seq<ChunkId>)
    ensures UsableOf(pages, chunks) == Filter((p: PageId) => p in pages, PagesOf(chunks))
  {
    if chunks != [] {
      UsableIsFilter(pages, chunks[1..]);
      assert PagesOf(chunks)[1..] == PagesOf(chunks[1..]);
    }
  }

  /** The entry names its page's chunk and place among the lexical pages, if it is one of them. */
  predicate NamesLexical(h: Hybrid, chunks: seq<ChunkId>) {
    var at := IndexOf(PagesOf(chunks), HybridPage(h));
    if at < |chunks| then h.lexicalChunk == Some(chunks[at]) && h.lexicalRank == Some(at + 1)
    else h.lexicalChunk == None && h.lexicalRank == None
  }

  lemma HybridizedNames(dense: seq<DenseRanked>, lexical: seq<ChunkId>, p: PageId)
    requires p in Pages(dense)
    ensures NamesLexical(Hybridized(dense, lexical, p), LexicalPages(lexical))
    ensures HybridPage(Hybridized(dense, lexical, p)) == p && Hybridized(dense, lexical, p).dense in dense
  {
    var chunks := LexicalPages(lexical);
    LexicalIndexIs(chunks, p);
    hide Fusion, LexicalPages, LexicalIndex;
    var at := LexicalIndex(chunks, p);
    assert at < |chunks| ==> PagesOf(chunks)[at] == p;
    assert IndexOf(PagesOf(chunks), p) == at;
  }

  lemma HybridEntry(dense: seq<DenseRanked>, lexical: seq<ChunkId>, limit: nat, i: nat)
    requires i < |HybridRank(dense, lexical, limit)|
    ensures if Usable(dense, lexical) == []
      then i < |dense| && HybridRank(dense, lexical, limit)[i] == Hybrid(dense[i], None, i + 1, None, None)
      else i < |Order(dense, lexical)| && Order(dense, lexical)[i] in Pages(dense)
           && HybridRank(dense, lexical, limit)[i] == Hybridized(dense, lexical, Order(dense, lexical)[i])
  {
    OrderIsDense(dense, lexical);
    hide Usable, Order, Fusion, LexicalPages, LexicalIndex, Hybridized;
    if Usable(dense, lexical) != [] {
      assert Take(Order(dense, lexical), limit)[i] == Order(dense, lexical)[i];
      assert Order(dense, lexical)[i] in Order(dense, lexical);
    }
  }

  /** In a fused ranking an entry names its page's first chunk of the stream, and the page's place
      among the lexical pages, exactly when the page is one of them; in the dense-only ranking no
      entry names any. */
  lemma HybridLexical(dense: seq<DenseRanked>, lexical: seq<ChunkId>, limit: nat, i: nat)
    requires i < |HybridRank(dense, lexical, limit)|
    ensures var h := HybridRank(dense, lexical, limit)[i];
      && h.dense in dense
      && NamesLexical(h, if Usable(dense, lexical) == [] then [] else LexicalPages(lexical))
  {
    HybridEntry(dense, lexical, limit, i);
    hide Usable, Order, HybridRank, Hybridized, LexicalPages;
    if Usable(dense, lexical) != [] {
      HybridizedNames(dense, lexical, Order(dense, lexical)[i]);
      hide NamesLexical;
    }
  }

  /** The order is the only arrangement of the fused pages by (total descending, page ascending). */
  lemma OrderIsUnique(dense: seq<DenseRanked>, lexical: seq<ChunkId>, other: seq<PageId>)
    requires multiset(other) == multiset(Fused(dense, lexical))
    requires SortedBy((a: PageId, b: PageId) => FusedLe(dense, lexical, a, b), other)
    ensures other == Order(dense, lexical)
  {
    var le := (a: PageId, b: PageId) => FusedLe(dense, lexical, a, b);
    FusedLeIsTotal(dense, lexical);
    SortPermutes(le, Fused(dense, lexical));
    SortSorts(le, Fused(dense, lexical));
    hide Sort, Fusion, Fused, TotalOrder;
    SortedIsUnique(le, other, Order(dense, lexical));
  }

  /** The map `rrf_explained` builds for the shipped sources holds exactly the fused pages with
      their fusion scores. */
  lemma FusionIsExplained(dense: seq<DenseRanked>, lexical: seq<ChunkId>, scores: map<PageId, RrfScore>, p: PageId)
    requires Explains(scores, Sources(dense, lexical), WEIGHTS, RRF_K, 2)
    ensures p in scores <==> p in Fused(dense, lexical)
    ensures p in scores ==> scores[p] == Fusion(dense, lexical, p)
  {
    TwoSources(dense, lexical, p);
    UniqueMembers(Take(Pages(dense), CANDIDATES) + Usable(dense, lexical));
    UniqueMembers(Take(Pages(dense), CANDIDATES));
    UniqueMembers(Usable(dense, lexical));
    assert Records(scores, p, FromSources(Sources(dense, lexical), WEIGHTS, RRF_K, p, 2));
    hide FromSources, FirstBy, Total, UsableOf;
  }
}
