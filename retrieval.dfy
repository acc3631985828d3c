/** The lexical retriever (retrieveContext in services/systemCore.ts): scores every
    corpus chunk against the query, keeps those scoring above zero, ranks them by
    score with ties in corpus order, and joins the best two under a header. */
module Retrieval {
  import opened Types
  import opened Text
  import Corpus

  const Header: string := "[RETRIEVED CONTEXT]\n"
  const Separator: string := "\n\n"
  /** How many chunks are retrieved at most. */
  const TopCount: nat := 2

  /** A chunk paired with its relevance score for one query. */
  datatype ScoredChunk = ScoredChunk(chunk: RAGChunk, relevanceScore: nat)

  // ---------------------------------------------------------------------------
  // Scoring
  // ---------------------------------------------------------------------------

  /** The query lower-cased and split on single spaces. */
  function Tokens(query: string): (r: seq<string>)
    ensures |r| >= 1
    ensures forall i :: 0 <= i < |r| ==> ' ' !in r[i]
    ensures Join(r, " ") == Lower(query)
  {
    JoinSplit(Lower(query), ' ');
    Split(Lower(query), ' ')
  }

  /** One token's contribution: 2 for an exact tag, 1 for a case-insensitive
      occurrence in the content. */
  function TokenScore(token: string, chunk: RAGChunk): (r: nat)
    ensures r >= 2 <==> token in chunk.tags
    ensures r % 2 == 1 <==> Contains(Lower(chunk.content), token)
    ensures r <= 3
  {
    (if token in chunk.tags then 2 else 0) +
    (if Contains(Lower(chunk.content), token) then 1 else 0)
  }

  /** A chunk's score: the contributions of all tokens, duplicates included. */
  function Score(tokens: seq<string>, chunk: RAGChunk): (r: nat)
    ensures r <= 3 * |tokens|
    decreases |tokens|
  {
    if tokens == [] then 0 else TokenScore(tokens[0], chunk) + Score(tokens[1..], chunk)
  }

  /** The score adds up over any split of the token list, so every token,
      repeated ones included, contributes its own share. */
  lemma {:induction false} ScoreAppend(t1: seq<string>, t2: seq<string>, chunk: RAGChunk)
    ensures Score(t1 + t2, chunk) == Score(t1, chunk) + Score(t2, chunk)
    decreases |t1|
  {
    if t1 == [] {
      assert t1 + t2 == t2;
    } else {
      assert (t1 + t2)[1..] == t1[1..] + t2;
      ScoreAppend(t1[1..], t2, chunk);
    }
  }

  /** A score is at least each single token's share. */
  lemma {:induction false} ScoreBounds(tokens: seq<string>, chunk: RAGChunk)
    ensures forall i :: 0 <= i < |tokens| ==> TokenScore(tokens[i], chunk) <= Score(tokens, chunk)
    decreases |tokens|
  {
    if tokens != [] {
      ScoreBounds(tokens[1..], chunk);
      forall i | 1 <= i < |tokens|
        ensures TokenScore(tokens[i], chunk) <= Score(tokens, chunk)
      {
        assert tokens[i] == tokens[1..][i - 1];
      }
    }
  }

  /** Scores one chunk by accumulating each token's share in turn. */
  method ScoreChunk(tokens: seq<string>, chunk: RAGChunk) returns (score: nat)
    ensures score == Score(tokens, chunk)
  {
    score := 0;
    var i := 0;
    while i < |tokens|
      invariant 0 <= i <= |tokens|
      invariant score == Score(tokens[..i], chunk)
    {
      var token := tokens[i];
      if token in chunk.tags {
        score := score + 2;
      }
      if Contains(Lower(chunk.content), token) {
        score := score + 1;
      }
      assert tokens[..i + 1] == tokens[..i] + [token];
      assert [token][1..] == [];
      ScoreAppend(tokens[..i], [token], chunk);
      i := i + 1;
    }
    assert tokens[..i] == tokens;
  }

  /** Every corpus chunk paired with its score, in corpus order. */
  function ScoreAll(tokens: seq<string>, chunks: seq<RAGChunk>): (r: seq<ScoredChunk>)
    ensures |r| == |chunks|
    ensures forall i :: 0 <= i < |r| ==> r[i].chunk == chunks[i] && r[i].relevanceScore == Score(tokens, chunks[i])
  {
    seq(|chunks|, i requires 0 <= i < |chunks| => ScoredChunk(chunks[i], Score(tokens, chunks[i])))
  }

  // ---------------------------------------------------------------------------
  // Filtering and stable ranking
  // ---------------------------------------------------------------------------

  /** The chunks with score `k`, in their order in `s`. A sort is stable exactly
      when it keeps this subsequence for every `k`. */
  function WithScore(s: seq<ScoredChunk>, k: nat): seq<ScoredChunk>
    decreases |s|
  {
    if s == [] then []
    else (if s[0].relevanceScore == k then [s[0]] else []) + WithScore(s[1..], k)
  }

  /** `WithScore` keeps exactly the chunks of score `k`. */
  lemma {:induction false} WithScoreMembers(s: seq<ScoredChunk>, k: nat)
    ensures forall y :: y in WithScore(s, k) <==> y in s && y.relevanceScore == k
    decreases |s|
  {
    if s != [] {
      WithScoreMembers(s[1..], k);
      assert s == [s[0]] + s[1..];
    }
  }

  /** A list whose first chunk has score `k` lists it first among those of score `k`. */
  lemma WithScoreHead(s: seq<ScoredChunk>)
    requires s != []
    ensures WithScore(s, s[0].relevanceScore) != [] && WithScore(s, s[0].relevanceScore)[0] == s[0]
  {
  }

  /** No chunk of `s` has score `k`, so none is kept. */
  lemma {:induction false} NoneWithScore(s: seq<ScoredChunk>, k: nat)
    requires forall i :: 0 <= i < |s| ==> s[i].relevanceScore != k
    ensures WithScore(s, k) == []
    decreases |s|
  {
    if s != [] {
      NoneWithScore(s[1..], k);
    }
  }

  lemma WithScoreCons(x: ScoredChunk, rest: seq<ScoredChunk>)
    ensures forall k :: WithScore([x] + rest, k) == (if x.relevanceScore == k then [x] else []) + WithScore(rest, k)
  {
    assert ([x] + rest)[1..] == rest;
  }

  /** The chunks with a positive score, in their order in `s`. */
  function Relevant(s: seq<ScoredChunk>): (r: seq<ScoredChunk>)
    ensures forall i :: 0 <= i < |r| ==> r[i].relevanceScore > 0
    ensures forall k :: k > 0 ==> WithScore(r, k) == WithScore(s, k)
    decreases |s|
  {
    if s == [] then []
    else
      var rest := Relevant(s[1..]);
      WithScoreCons(s[0], rest);
      if s[0].relevanceScore > 0 then [s[0]] + rest else rest
  }

  /** Nothing is relevant exactly when every chunk scores zero, and nothing is
      dropped when every chunk scores above zero. */
  lemma {:induction false} RelevantEmptyOrAll(s: seq<ScoredChunk>)
    ensures Relevant(s) == [] <==> forall i :: 0 <= i < |s| ==> s[i].relevanceScore == 0
    ensures (forall i :: 0 <= i < |s| ==> s[i].relevanceScore > 0) ==> Relevant(s) == s
    decreases |s|
  {
    if s != [] {
      RelevantEmptyOrAll(s[1..]);
      assert [s[0]] + s[1..] == s;
      if Relevant(s[1..]) == [] {
        assert forall i :: 1 <= i < |s| ==> s[i] == s[1..][i - 1];
      }
    }
  }

  /** Scores never increase along the sequence. */
  predicate RankedByScore(s: seq<ScoredChunk>)
  {
    forall i, j :: 0 <= i < j < |s| ==> s[i].relevanceScore >= s[j].relevanceScore
  }

  /** Inserts `x` before the first element that does not score higher. */
  function Insert(x: ScoredChunk, s: seq<ScoredChunk>): (r: seq<ScoredChunk>)
    ensures multiset(r) == multiset{x} + multiset(s) && |r| == |s| + 1
    ensures r[0] == x || (s != [] && r[0] == s[0])
    decreases |s|
  {
    if s == [] || x.relevanceScore >= s[0].relevanceScore then [x] + s
    else
      assert s == [s[0]] + s[1..];
      [s[0]] + Insert(x, s[1..])
  }

  /** Insertion puts `x` ahead of every chunk of its own score. */
  lemma {:induction false} InsertKeepsTies(x: ScoredChunk, s: seq<ScoredChunk>)
    ensures forall k :: WithScore(Insert(x, s), k) == (if x.relevanceScore == k then [x] else []) + WithScore(s, k)
    decreases |s|
  {
    if s == [] || x.relevanceScore >= s[0].relevanceScore {
      WithScoreCons(x, s);
    } else {
      InsertKeepsTies(x, s[1..]);
      WithScoreCons(s[0], Insert(x, s[1..]));
      WithScoreCons(s[0], s[1..]);
      assert [s[0]] + s[1..] == s;
    }
  }

  lemma {:induction false} InsertKeepsRanking(x: ScoredChunk, s: seq<ScoredChunk>)
    requires RankedByScore(s)
    ensures RankedByScore(Insert(x, s))
    decreases |s|
  {
    if s != [] && x.relevanceScore < s[0].relevanceScore {
      InsertKeepsRanking(x, s[1..]);
      var r := Insert(x, s[1..]);
      assert r[0].relevanceScore <= s[0].relevanceScore;
      assert ([s[0]] + r)[1..] == r;
    }
  }

  /** Stable sort by descending score, as `sort((a, b) => b.score - a.score)` does. */
  function SortByScore(s: seq<ScoredChunk>): (r: seq<ScoredChunk>)
    ensures multiset(r) == multiset(s) && |r| == |s|
    ensures RankedByScore(r)
    ensures forall k :: WithScore(r, k) == WithScore(s, k)
    decreases |s|
  {
    if s == [] then []
    else
      var sorted := SortByScore(s[1..]);
      assert s == [s[0]] + s[1..];
      InsertKeepsTies(s[0], sorted);
      InsertKeepsRanking(s[0], sorted);
      WithScoreCons(s[0], s[1..]);
      Insert(s[0], sorted)
  }

  /** Two rankings that keep the same chunks of every score in the same order
      are the same ranking: the stable sort by descending score is unique. */
  lemma {:induction false} StableRankingUnique(a: seq<ScoredChunk>, b: seq<ScoredChunk>)
    requires RankedByScore(a) && RankedByScore(b)
    requires forall k :: WithScore(a, k) == WithScore(b, k)
    ensures a == b
    decreases |a|
  {
    if a != [] {
      WithScoreHead(a);
    }
    if b != [] {
      WithScoreHead(b);
    }
    if a != [] && b != [] {
      var k, k' := a[0].relevanceScore, b[0].relevanceScore;
      WithScoreMembers(a, k');
      WithScoreMembers(b, k);
      assert a[0] in WithScore(b, k);
      assert b[0] in WithScore(a, k');
      assert k == k';
      forall j
        ensures WithScore(a[1..], j) == WithScore(b[1..], j)
      {
        var p := if k == j then [a[0]] else [];
        assert WithScore(a, j) == p + WithScore(a[1..], j);
        assert WithScore(b, j) == p + WithScore(b[1..], j);
        assert WithScore(a[1..], j) == WithScore(a, j)[|p|..];
        assert WithScore(b[1..], j) == WithScore(b, j)[|p|..];
      }
      StableRankingUnique(a[1..], b[1..]);
      assert a == [a[0]] + a[1..] && b == [b[0]] + b[1..];
    }
  }

  /** Sorting keeps every score positive when all were. */
  lemma SortKeepsPositive(s: seq<ScoredChunk>)
    requires forall i :: 0 <= i < |s| ==> s[i].relevanceScore > 0
    ensures forall i :: 0 <= i < |SortByScore(s)| ==> SortByScore(s)[i].relevanceScore > 0
  {
    var r := SortByScore(s);
    forall i | 0 <= i < |r|
      ensures r[i].relevanceScore > 0
    {
      assert r[i] in multiset(s);
      var j :| 0 <= j < |s| && s[j] == r[i];
    }
  }

  // ---------------------------------------------------------------------------
  // Ranking and selection
  // ---------------------------------------------------------------------------

  /** The relevant chunks of a scored list, best first. */
  function Rank(scored: seq<ScoredChunk>): (r: seq<ScoredChunk>)
    ensures RankedByScore(r)
    ensures forall i :: 0 <= i < |r| ==> r[i].relevanceScore > 0
    ensures forall k :: k > 0 ==> WithScore(r, k) == WithScore(scored, k)
  {
    SortKeepsPositive(Relevant(scored));
    SortByScore(Relevant(scored))
  }

  /** The first `TopCount` chunks of a ranking (all of them if there are fewer). */
  function Top(ranked: seq<ScoredChunk>): (r: seq<ScoredChunk>)
    ensures |r| <= TopCount && r <= ranked
    ensures |ranked| >= TopCount ==> |r| == TopCount
    ensures |ranked| < TopCount ==> r == ranked
  {
    ranked[..if |ranked| < TopCount then |ranked| else TopCount]
  }

  /** The ranking holds exactly the chunks that score above zero. */
  lemma RankMembers(scored: seq<ScoredChunk>, y: ScoredChunk)
    ensures y in Rank(scored) <==> y in scored && y.relevanceScore > 0
  {
    var relevant := Relevant(scored);
    assert y in Rank(scored) <==> y in multiset(relevant);
    WithScoreMembers(relevant, y.relevanceScore);
    WithScoreMembers(scored, y.relevanceScore);
    if y in relevant {
      var i :| 0 <= i < |relevant| && relevant[i] == y;
    }
  }

  lemma {:induction false} WithScorePrefix(s: seq<ScoredChunk>, m: nat, k: nat)
    requires m <= |s|
    ensures WithScore(s[..m], k) <= WithScore(s, k)
    decreases m
  {
    if m > 0 {
      WithScorePrefix(s[1..], m - 1, k);
      assert s[..m] == [s[0]] + s[1..][..m - 1];
      assert s == [s[0]] + s[1..];
      WithScoreCons(s[0], s[1..][..m - 1]);
      WithScoreCons(s[0], s[1..]);
    }
  }

  lemma TopOutranksRest(scored: seq<ScoredChunk>, i: nat, x: ScoredChunk)
    requires i < |Top(Rank(scored))| && x in scored && x !in Top(Rank(scored))
    ensures x.relevanceScore <= Top(Rank(scored))[i].relevanceScore
  {
    var ranked := Rank(scored);
    var top := Top(ranked);
    RankMembers(scored, top[i]);
    if x.relevanceScore > 0 {
      RankMembers(scored, x);
      var j :| 0 <= j < |ranked| && ranked[j] == x;
      assert j >= |top|;
    }
  }

  lemma TopKeepsTies(scored: seq<ScoredChunk>, k: nat)
    ensures WithScore(Top(Rank(scored)), k) <= WithScore(scored, k)
  {
    var ranked := Rank(scored);
    var top := Top(ranked);
    if k == 0 {
      forall i | 0 <= i < |top|
        ensures top[i].relevanceScore != 0
      {
        RankMembers(scored, top[i]);
      }
      NoneWithScore(top, 0);
    } else {
      WithScorePrefix(ranked, |top|, k);
      assert WithScore(ranked, k) == WithScore(Relevant(scored), k) == WithScore(scored, k);
    }
  }

  lemma TopFromScored(top: seq<ScoredChunk>, scored: seq<ScoredChunk>)
    requires top == Top(Rank(scored))
    ensures forall i :: 0 <= i < |top| ==> top[i].relevanceScore > 0 && top[i] in scored
  {
    forall i | 0 <= i < |top|
      ensures top[i].relevanceScore > 0 && top[i] in scored
    {
      RankMembers(scored, top[i]);
    }
  }

  lemma TopOutranksAll(top: seq<ScoredChunk>, scored: seq<ScoredChunk>)
    requires top == Top(Rank(scored))
    ensures forall i, x :: 0 <= i < |top| && x in scored && x !in top ==> x.relevanceScore <= top[i].relevanceScore
  {
    forall i, x | 0 <= i < |top| && x in scored && x !in top
      ensures x.relevanceScore <= top[i].relevanceScore
    {
      TopOutranksRest(scored, i, x);
    }
  }

  lemma TopKeepsAllTies(top: seq<ScoredChunk>, scored: seq<ScoredChunk>)
    requires top == Top(Rank(scored))
    ensures forall k :: WithScore(top, k) <= WithScore(scored, k)
  {
    forall k
      ensures WithScore(top, k) <= WithScore(scored, k)
    {
      TopKeepsTies(scored, k);
    }
  }

  /** The selected chunks are the best-scoring chunks with a positive score,
      best first, with ties kept in their order in `scored`. */
  lemma TopIsBest(scored: seq<ScoredChunk>)
    ensures var top, relevantCount := Top(Rank(scored)), |Relevant(scored)|;
      |top| == (if relevantCount < TopCount then relevantCount else TopCount) &&
      RankedByScore(top) &&
      (forall i :: 0 <= i < |top| ==> top[i].relevanceScore > 0 && top[i] in scored) &&
      (forall i, x :: 0 <= i < |top| && x in scored && x !in top ==> x.relevanceScore <= top[i].relevanceScore) &&
      (forall k :: WithScore(top, k) <= WithScore(scored, k))
  {
    var top := Top(Rank(scored));
    TopFromScored(top, scored);
    TopOutranksAll(top, scored);
    TopKeepsAllTies(top, scored);
  }


  /** Any stable ranking of the chunks that score above zero, by descending
      score, is the ranking retrieved from: it does not depend on how the sort is done. */
  lemma RankIsTheStableSort(scored: seq<ScoredChunk>, other: seq<ScoredChunk>)
    requires RankedByScore(other)
    requires forall i :: 0 <= i < |other| ==> other[i].relevanceScore > 0
    requires forall k :: k > 0 ==> WithScore(other, k) == WithScore(scored, k)
    ensures other == Rank(scored)
  {
    var ranked := Rank(scored);
    forall i | 0 <= i < |ranked|
      ensures ranked[i].relevanceScore > 0
    {
      RankMembers(scored, ranked[i]);
    }
    forall k
      ensures WithScore(other, k) == WithScore(ranked, k)
    {
      if k == 0 {
        NoneWithScore(other, 0);
        NoneWithScore(ranked, 0);
      } else {
        assert WithScore(ranked, k) == WithScore(Relevant(scored), k);
      }
    }
    StableRankingUnique(other, ranked);
  }

  /** When the first chunk scores above zero and no lower than any other, it ranks first. */
  lemma TopScorerRanksFirst(s: seq<ScoredChunk>)
    requires s != [] && s[0].relevanceScore > 0
    requires forall j :: 0 <= j < |s| ==> s[j].relevanceScore <= s[0].relevanceScore
    ensures Rank(s) != [] && Rank(s)[0] == s[0]
  {
    var k := s[0].relevanceScore;
    var r := Rank(s);
    WithScoreHead(s);
    assert WithScore(r, k) == WithScore(s, k);
    WithScoreMembers(r, k);
    assert s[0] in r;
    var j :| 0 <= j < |r| && r[j] == s[0];
    RankMembers(s, r[0]);
    var i :| 0 <= i < |s| && s[i] == r[0];
    assert r[0].relevanceScore == k;
    WithScoreHead(r);
  }

  // ---------------------------------------------------------------------------
  // Retrieval over the corpus
  // ---------------------------------------------------------------------------

  /** The corpus scored against the query. */
  function ScoredCorpus(query: string): seq<ScoredChunk>
  {
    ScoreAll(Tokens(query), Corpus.KnowledgeBase)
  }

  /** The chunks retrieved for a query, best first. */
  function Selected(query: string): seq<ScoredChunk>
  {
    Top(Rank(ScoredCorpus(query)))
  }

  function Contents(chunks: seq<ScoredChunk>): (r: seq<string>)
    ensures |r| == |chunks|
    ensures forall i :: 0 <= i < |chunks| ==> r[i] == chunks[i].chunk.content
  {
    seq(|chunks|, i requires 0 <= i < |chunks| => chunks[i].chunk.content)
  }

  /** Nothing is selected exactly when every chunk scores zero, and never more
      than `TopCount` chunks are. */
  lemma TopEmptyIffNoScore(scored: seq<ScoredChunk>)
    ensures |Top(Rank(scored))| <= TopCount
    ensures Top(Rank(scored)) == [] <==> forall i :: 0 <= i < |scored| ==> scored[i].relevanceScore == 0
  {
    RelevantEmptyOrAll(scored);
  }

  /** No corpus chunk is selected exactly when every one of them scores zero. */
  lemma SelectedEmptyIffNoScore(query: string)
    ensures |Selected(query)| <= TopCount
    ensures Selected(query) == [] <==> forall i :: 0 <= i < |Corpus.KnowledgeBase| ==>
      Score(Tokens(query), Corpus.KnowledgeBase[i]) == 0
  {
    TopEmptyIffNoScore(ScoredCorpus(query));
  }

  /** The context string for a query: empty when nothing is relevant, otherwise
      the header followed by the selected contents separated by blank lines. */
  function RetrieveContext(query: string): (r: string)
    ensures r == "" <==> forall i :: 0 <= i < |Corpus.KnowledgeBase| ==>
      Score(Tokens(query), Corpus.KnowledgeBase[i]) == 0
    ensures r != "" ==> 1 <= |Selected(query)| <= TopCount && Header <= r
  {
    var selected := Selected(query);
    SelectedEmptyIffNoScore(query);
    if |selected| == 0 then "" else Header + Join(Contents(selected), Separator)
  }

  // ---------------------------------------------------------------------------
  // Consequences for particular queries
  // ---------------------------------------------------------------------------

  /** A query containing an empty token (an empty query, or one with doubled,
      leading or trailing spaces) scores every chunk at least 1, so it always
      retrieves context. */
  lemma EmptyTokenMatchesEverything(query: string)
    requires "" in Tokens(query)
    ensures forall i :: 0 <= i < |Corpus.KnowledgeBase| ==> Score(Tokens(query), Corpus.KnowledgeBase[i]) >= 1
    ensures RetrieveContext(query) != ""
  {
    var tokens := Tokens(query);
    var t :| 0 <= t < |tokens| && tokens[t] == "";
    forall i | 0 <= i < |Corpus.KnowledgeBase|
      ensures Score(tokens, Corpus.KnowledgeBase[i]) >= 1
    {
      ScoreBounds(tokens, Corpus.KnowledgeBase[i]);
      assert Contains(Lower(Corpus.KnowledgeBase[i].content), tokens[t]);
    }
    assert Score(tokens, Corpus.KnowledgeBase[0]) >= 1;
  }

  /** The empty token scores 1 on a chunk without an empty tag: it occurs in every content. */
  lemma EmptyTokenScoresOne(chunk: RAGChunk)
    requires "" !in chunk.tags
    ensures Score([""], chunk) == 1
  {
    assert [""][1..] == [];
  }

  /** A ranking of chunks that all score 1 keeps their order. */
  lemma UniformScoresKeepOrder(scored: seq<ScoredChunk>)
    requires forall i :: 0 <= i < |scored| ==> scored[i].relevanceScore == 1
    ensures Rank(scored) == scored
  {
    RelevantEmptyOrAll(scored);
    StableRankingUnique(SortByScore(scored), scored);
  }

  /** When every chunk scores 1, the first two chunks are retrieved, in order. */
  lemma UniformScoresRetrieveFirstTwo(scored: seq<ScoredChunk>)
    requires |scored| >= 2
    requires forall i :: 0 <= i < |scored| ==> scored[i].relevanceScore == 1
    ensures Top(Rank(scored)) == scored[..2]
    ensures Join(Contents(Top(Rank(scored))), Separator) ==
      scored[0].chunk.content + Separator + scored[1].chunk.content
  {
    UniformScoresKeepOrder(scored);
    var contents := Contents(scored[..2]);
    assert contents == [scored[0].chunk.content, scored[1].chunk.content];
    assert contents[1..] == [scored[1].chunk.content];
  }

  lemma NoEmptyTag()
    ensures forall i :: 0 <= i < |Corpus.KnowledgeBase| ==> "" !in Corpus.KnowledgeBase[i].tags
  {
    var kb := Corpus.KnowledgeBase;
    assert "" !in kb[0].tags;
    assert "" !in kb[1].tags;
    assert "" !in kb[2].tags;
    assert "" !in kb[3].tags;
    assert "" !in kb[4].tags;
  }

  /** The empty query is one empty token, which scores 1 on every corpus chunk. */
  lemma EmptyQueryScoresOne()
    ensures Tokens("") == [""]
    ensures forall i :: 0 <= i < |Corpus.KnowledgeBase| ==> Score(Tokens(""), Corpus.KnowledgeBase[i]) == 1
  {
    var kb := Corpus.KnowledgeBase;
    assert Lower("") == "";
    NoEmptyTag();
    forall i | 0 <= i < |kb|
      ensures Score([""], kb[i]) == 1
    {
      EmptyTokenScoresOne(kb[i]);
    }
  }

  /** A query that retrieves something yields the header and the selected contents. */
  lemma RetrievedText(query: string)
    requires Selected(query) != []
    ensures RetrieveContext(query) == Header + Join(Contents(Selected(query)), Separator)
  {
  }

  lemma ConcatAssoc(h: string, a: string, sep: string, b: string)
    ensures h + (a + sep + b) == h + a + sep + b
  {
  }

  /** The empty query retrieves the first two corpus chunks: every chunk scores 1
      from the empty token, and the tie keeps corpus order. */
  lemma EmptyQueryRetrievesFirstTwo()
    ensures RetrieveContext("") ==
      Header + Corpus.KnowledgeBase[0].content + Separator + Corpus.KnowledgeBase[1].content
  {
    EmptyQueryScoresOne();
    var scored := ScoredCorpus("");
    assert forall i :: 0 <= i < |scored| ==> scored[i].relevanceScore == 1;
    UniformScoresRetrieveFirstTwo(scored);
    RetrievedText("");
    var c0, c1 := scored[0].chunk.content, scored[1].chunk.content;
    assert RetrieveContext("") == Header + (c0 + Separator + c1);
    ConcatAssoc(Header, c0, Separator, c1);
    assert c0 == Corpus.KnowledgeBase[0].content && c1 == Corpus.KnowledgeBase[1].content;
  }

  /** A two-token query scores the sum of the two tokens' shares. */
  lemma TwoTokenScore(t1: string, t2: string, chunk: RAGChunk)
    ensures Score([t1, t2], chunk) == TokenScore(t1, chunk) + TokenScore(t2, chunk)
  {
    assert [t1, t2][1..] == [t2];
    assert [t2][1..] == [];
    assert Score([t2], chunk) == TokenScore(t2, chunk) + Score([], chunk);
  }

  /** The chunk that scores highest and comes first opens the retrieved context. */
  lemma TopScorerRetrievedFirst(scored: seq<ScoredChunk>)
    requires scored != [] && scored[0].relevanceScore > 0
    requires forall j :: 0 <= j < |scored| ==> scored[j].relevanceScore <= scored[0].relevanceScore
    ensures Top(Rank(scored)) != [] && Top(Rank(scored))[0] == scored[0]
    ensures Header + scored[0].chunk.content <= Header + Join(Contents(Top(Rank(scored))), Separator)
  {
    TopScorerRanksFirst(scored);
    var contents := Contents(Top(Rank(scored)));
    assert contents[0] == scored[0].chunk.content;
  }

  /** Only the system-dynamics chunk is tagged "feedback". */
  lemma FeedbackTagOnlyFirst()
    ensures "feedback" in Corpus.KnowledgeBase[0].tags && "loops" in Corpus.KnowledgeBase[0].tags
    ensures forall j :: 1 <= j < |Corpus.KnowledgeBase| ==> "feedback" !in Corpus.KnowledgeBase[j].tags
  {
    var kb := Corpus.KnowledgeBase;
    assert kb[0].tags[5] == "feedback" && kb[0].tags[4] == "loops";
    assert "feedback" !in kb[1].tags;
    assert "feedback" !in kb[2].tags;
    assert "feedback" !in kb[3].tags;
    assert "feedback" !in kb[4].tags;
  }

  /** "loops feedback" splits into its two words. */
  lemma LoopsFeedbackTokens()
    ensures Tokens("loops feedback") == ["loops", "feedback"]
  {
    var q := "loops feedback";
    var tokens := ["loops", "feedback"];
    assert Lower(q) == q;
    assert Join(tokens, [' ']) == q;
    SplitJoin(tokens, ' ');
  }

  /** The system-dynamics chunk scores at least 4 for "loops feedback", and no
      other chunk scores more. */
  lemma LoopsFeedbackScores()
    ensures var scored := ScoredCorpus("loops feedback");
      scored[0].relevanceScore >= 4 &&
      forall j :: 0 <= j < |scored| ==> scored[j].relevanceScore <= scored[0].relevanceScore
  {
    var kb := Corpus.KnowledgeBase;
    LoopsFeedbackTokens();
    var scored := ScoredCorpus("loops feedback");
    forall j | 0 <= j < |kb|
      ensures scored[j].relevanceScore == TokenScore("loops", kb[j]) + TokenScore("feedback", kb[j])
    {
      TwoTokenScore("loops", "feedback", kb[j]);
    }
    FeedbackTagOnlyFirst();
    assert scored[0].relevanceScore >= 4;
    assert forall j :: 0 <= j < |scored| ==> scored[j].relevanceScore <= 4 || j == 0;
  }

  /** "loops feedback" hits two tags of the system-dynamics chunk, no other chunk
      can score more, and that chunk comes first in the corpus, so it is
      retrieved first. */
  lemma LoopsFeedbackRanksSystemDynamicsFirst()
    ensures Score(Tokens("loops feedback"), Corpus.KnowledgeBase[0]) >= 4
    ensures Selected("loops feedback") != [] && Selected("loops feedback")[0].chunk == Corpus.KnowledgeBase[0]
    ensures Header + Corpus.KnowledgeBase[0].content <= RetrieveContext("loops feedback")
  {
    var scored := ScoredCorpus("loops feedback");
    LoopsFeedbackScores();
    TopScorerRetrievedFirst(scored);
    RetrievedText("loops feedback");
  }
}
