// Maximal-marginal-relevance re-ranking: pick the document that best balances relevance to the
// query against similarity to what has been picked already, until the limit is reached.
module Reranker {
  import opened Sets

  // A document with the defaults of its missing fields filled in. An empty dictionary is false in
  // Python, which ends the selection.
  datatype Doc = Doc(isEmpty: bool, id: string, text: string, score: real)

  datatype Result = Result(docId: string, text: string, originalScore: real, rerankScore: real)

  // set(text.lower().split())
  type Terms = string -> set<string>

  function Relevance(query: string, text: string, terms: Terms): (r: real)
    ensures 0.0 <= r <= 1.0
  {
    var q, d := terms(query), terms(text);
    if q == {} || d == {} then 0.0
    else
      SubsetSize(q * d, q);
      Ratio(|q * d|, |q|);
      |q * d| as real / |q| as real
  }

  function Similarity(a: string, b: string, terms: Terms): (r: real)
    ensures 0.0 <= r <= 1.0
  {
    var s, t := terms(a), terms(b);
    if s == {} || t == {} then 0.0
    else
      assert s <= s + t;
      SubsetSize(s * t, s + t);
      Ratio(|s * t|, |s + t|);
      |s * t| as real / |s + t| as real
  }

  lemma Ratio(a: nat, b: nat)
    requires a <= b && 0 < b
    ensures 0.0 <= a as real / b as real <= 1.0
  {
  }

  // Full relevance means that the text holds every term of the query, none that it holds no term.
  lemma RelevanceEnds(query: string, text: string, terms: Terms)
    requires terms(query) != {}
    ensures Relevance(query, text, terms) == 1.0 <==> terms(query) <= terms(text)
    ensures Relevance(query, text, terms) == 0.0 <==> terms(query) * terms(text) == {}
  {
    var q, d := terms(query), terms(text);
    if d != {} {
      SubsetSize(q * d, q);
      FullRatio(|q * d|, |q|);
    }
  }

  lemma SimilarityEnds(a: string, b: string, terms: Terms)
    requires terms(a) != {}
    ensures Similarity(a, b, terms) == Similarity(b, a, terms)
    ensures Similarity(a, b, terms) == 1.0 <==> terms(a) == terms(b)
    ensures Similarity(a, b, terms) == 0.0 <==> terms(a) * terms(b) == {}
  {
    var s, t := terms(a), terms(b);
    assert s * t == t * s && s + t == t + s;
    if t != {} {
      assert s <= s + t;
      SubsetSize(s * t, s + t);
      FullRatio(|s * t|, |s + t|);
    }
  }

  // The parts a ratio makes: relevance is the share of the query's terms that are not missing in the
  // text, similarity weighs shared terms against the terms of either text, shared ones counted once.
  lemma SharesExact(a: string, b: string, terms: Terms)
    requires terms(a) != {} && terms(b) != {}
    ensures Relevance(a, b, terms) * |terms(a)| as real == (|terms(a)| - |terms(a) - terms(b)|) as real
    ensures Similarity(a, b, terms) * (|terms(a)| + |terms(b)| - |terms(a) * terms(b)|) as real
            == |terms(a) * terms(b)| as real
  {
    var s, t := terms(a), terms(b);
    Counts(s, t);
    Cancels(|s * t|, |s|);
    Cancels(|s * t|, |s + t|);
  }

  lemma Counts(s: set<string>, t: set<string>)
    ensures |s * t| == |s| - |s - t|
    ensures |s + t| == |s| + |t| - |s * t|
  {
    assert s == s * t + (s - t) && s + t == s + (t - s) && t == s * t + (t - s);
  }

  lemma Cancels(a: nat, b: nat)
    requires b > 0
    ensures (a as real / b as real) * b as real == a as real
  {
  }

  lemma FullRatio(a: nat, b: nat)
    requires a <= b && 0 < b
    ensures a as real / b as real == 1.0 <==> a == b
    ensures a as real / b as real == 0.0 <==> a == 0
  {
  }

  // ---------- Specification, on positions in the document list ----------

  function MaxSimilarity(text: string, selected: seq<string>, terms: Terms): (m: real)
    requires selected != []
    ensures 0.0 <= m <= 1.0
  {
    var s := Similarity(text, selected[|selected| - 1], terms);
    if |selected| == 1 then s
    else
      var m := MaxSimilarity(text, selected[..|selected| - 1], terms);
      if s > m then s else m
  }

  function Score(query: string, text: string, selected: seq<string>, lambdaMult: real, terms: Terms): real {
    Mix(lambdaMult, Relevance(query, text, terms), Diversity(text, selected, terms))
  }

  // How unlike the selection a text is; nothing before anything has been selected.
  function Diversity(text: string, selected: seq<string>, terms: Terms): (d: real)
    ensures 0.0 <= d <= 1.0
  {
    if selected == [] then 0.0 else 1.0 - MaxSimilarity(text, selected, terms)
  }

  function Mix(lambdaMult: real, relevance: real, diversity: real): real {
    Times(lambdaMult, relevance) + Times(1.0 - lambdaMult, diversity)
  }

  function Times(c: real, x: real): real {
    c * x
  }

  // lambda_mult weighs relevance against unlikeness to what has been picked: at one the score is the
  // relevance, at zero the distance to the most similar picked text, and it moves evenly in between.
  lemma ScoreBlends(query: string, text: string, selected: seq<string>, lambdaMult: real, terms: Terms)
    ensures Score(query, text, selected, 1.0, terms) == Relevance(query, text, terms)
    ensures var apart := Score(query, text, selected, 0.0, terms);
            && (forall i :: 0 <= i < |selected| ==> apart <= 1.0 - Similarity(text, selected[i], terms))
            && (if selected == [] then apart == 0.0
                else exists i :: 0 <= i < |selected| && apart == 1.0 - Similarity(text, selected[i], terms))
    ensures var apart := Score(query, text, selected, 0.0, terms);
            Score(query, text, selected, lambdaMult, terms) - apart
            == Times(lambdaMult, Relevance(query, text, terms) - apart)
  {
    if selected != [] { MostSimilar(text, selected, terms); }
    Blend(lambdaMult, Relevance(query, text, terms), Diversity(text, selected, terms));
  }

  lemma {:induction false} MostSimilar(text: string, selected: seq<string>, terms: Terms)
    requires selected != []
    ensures forall i :: 0 <= i < |selected| ==>
              Similarity(text, selected[i], terms) <= MaxSimilarity(text, selected, terms)
    ensures exists i :: 0 <= i < |selected|
                        && MaxSimilarity(text, selected, terms) == Similarity(text, selected[i], terms)
  {
    var last, rest := |selected| - 1, selected[..|selected| - 1];
    if rest != [] {
      MostSimilar(text, rest, terms);
      forall i | 0 <= i < |selected|
        ensures Similarity(text, selected[i], terms) <= MaxSimilarity(text, selected, terms)
      {
        if i < last { assert rest[i] == selected[i]; }
      }
      var i :| 0 <= i < |rest| && MaxSimilarity(text, rest, terms) == Similarity(text, rest[i], terms);
      assert rest[i] == selected[i];
    }
  }

  lemma Blend(c: real, relevance: real, diversity: real)
    ensures Mix(1.0, relevance, diversity) == relevance && Mix(0.0, relevance, diversity) == diversity
    ensures Mix(c, relevance, diversity) - diversity == Times(c, relevance - diversity)
  {
  }

  ghost predicate Valid(positions: seq<nat>, n: nat) {
    forall i :: 0 <= i < |positions| ==> positions[i] < n
  }

  ghost function Texts(docs: seq<Doc>, positions: seq<nat>): (t: seq<string>)
    requires Valid(positions, |docs|)
    ensures |t| == |positions|
  {
    if positions == [] then [] else Texts(docs, positions[..|positions| - 1]) + [docs[positions[|positions| - 1]].text]
  }

  datatype Pick = Pick(pos: nat, score: real)

  ghost function Positions(picks: seq<Pick>): (r: seq<nat>)
    ensures |r| == |picks|
  {
    if picks == [] then [] else Positions(picks[..|picks| - 1]) + [picks[|picks| - 1].pos]
  }

  // The score of document j once the documents at `chosen` have been picked.
  ghost function ScoreOf(query: string, docs: seq<Doc>, chosen: seq<nat>, j: nat, lambdaMult: real, terms: Terms): real
    requires j < |docs| && Valid(chosen, |docs|)
  {
    Score(query, docs[j].text, Texts(docs, chosen), lambdaMult, terms)
  }

  // j is the first best among the documents that have not been chosen.
  ghost predicate IsFirstBest(query: string, docs: seq<Doc>, chosen: seq<nat>, j: nat, lambdaMult: real, terms: Terms)
    requires Valid(chosen, |docs|)
  {
    && j < |docs| && j !in chosen
    && forall i :: 0 <= i < |docs| && i !in chosen ==>
         var si, sj := ScoreOf(query, docs, chosen, i, lambdaMult, terms),
            ScoreOf(query, docs, chosen, j, lambdaMult, terms);
         si <= sj && (i < j ==> si < sj)
  }

  ghost predicate Greedy(query: string, docs: seq<Doc>, picks: seq<Pick>, lambdaMult: real, terms: Terms) {
    && (forall t :: 0 <= t < |picks| ==> picks[t].pos < |docs|)
    && forall t :: 0 <= t < |picks| ==> GreedyAt(query, docs, picks, t, lambdaMult, terms)
  }

  ghost predicate GreedyAt(query: string, docs: seq<Doc>, picks: seq<Pick>, t: nat, lambdaMult: real, terms: Terms)
    requires t < |picks| && forall i :: 0 <= i < |picks| ==> picks[i].pos < |docs|
  {
    PositionsBelow(picks[..t], |docs|);
    var chosen := Positions(picks[..t]);
    && IsFirstBest(query, docs, chosen, picks[t].pos, lambdaMult, terms)
    && picks[t].score == ScoreOf(query, docs, chosen, picks[t].pos, lambdaMult, terms)
    && !docs[picks[t].pos].isEmpty
  }

  lemma {:induction false} PositionsBelow(picks: seq<Pick>, n: nat)
    requires forall t :: 0 <= t < |picks| ==> picks[t].pos < n
    ensures Valid(Positions(picks), n)
    ensures forall t :: 0 <= t < |picks| ==> Positions(picks)[t] == picks[t].pos
  {
    if picks != [] { PositionsBelow(picks[..|picks| - 1], n); }
  }

  // The selection stops at the limit, when nothing is left, or when the best document is empty.
  ghost predicate Finished(query: string, docs: seq<Doc>, picks: seq<Pick>, limit: int, lambdaMult: real, terms: Terms)
    requires forall i :: 0 <= i < |picks| ==> picks[i].pos < |docs|
  {
    PositionsBelow(picks, |docs|);
    var chosen := Positions(picks);
    || |picks| >= limit
    || (forall j: nat :: j < |docs| ==> j in chosen)
    || (exists j :: 0 <= j < |docs| && docs[j].isEmpty && IsFirstBest(query, docs, chosen, j, lambdaMult, terms))
  }

  ghost function ResultOf(docs: seq<Doc>, p: Pick): Result
    requires p.pos < |docs|
  {
    Result(docs[p.pos].id, docs[p.pos].text, docs[p.pos].score, p.score)
  }

  ghost predicate Shows(docs: seq<Doc>, picks: seq<Pick>, results: seq<Result>) {
    |results| == |picks| && forall t :: 0 <= t < |picks| ==>
       picks[t].pos < |docs| && results[t] == ResultOf(docs, picks[t])
  }

  // ---------- The program ----------

  // The ghost result names the positions the results come from; by GreedyUnique it is determined.
  method MmrDiversity(query: string, documents: seq<Doc>, limit: int, lambdaMult: real, terms: Terms)
    returns (selected: seq<Result>, ghost picks: seq<Pick>)
    ensures Greedy(query, documents, picks, lambdaMult, terms)
    ensures |picks| <= limit || picks == []
    ensures Finished(query, documents, picks, limit, lambdaMult, terms)
    ensures Shows(documents, picks, selected)
  {
    selected, picks := [], [];
    if documents == [] {
      return;
    }
    var remaining := documents;
    ghost var at := All(documents);
    while |selected| < limit && remaining != []
      invariant |selected| == |picks| && (|picks| <= limit || picks == [])
      invariant Greedy(query, documents, picks, lambdaMult, terms)
      invariant Shows(documents, picks, selected)
      invariant Tracks(documents, remaining, at, Positions(picks))
      decreases |remaining|
    {
      PositionsBelow(picks, |documents|);
      var texts := seq(|selected|, i requires 0 <= i < |selected| => selected[i].text);
      TextsOfResults(documents, selected, picks, texts);
      var scoreOf := (text: string) => Score(query, text, texts, lambdaMult, terms);
      var bestScore, bestIdx := BestRemaining(remaining, scoreOf);
      var best := remaining[bestIdx];
      BestIsFirst(query, documents, remaining, at, Positions(picks), bestIdx, lambdaMult, terms);
      if !best.isEmpty {
        ghost var pick := Pick(at[bestIdx], bestScore);
        GreedyMore(query, documents, picks, pick, lambdaMult, terms);
        TracksPop(documents, remaining, at, Positions(picks), bestIdx);
        picks := picks + [pick];
        selected := selected + [Result(best.id, best.text, best.score, bestScore)];
        remaining := remaining[..bestIdx] + remaining[bestIdx + 1..];
        at := at[..bestIdx] + at[bestIdx + 1..];
      } else {
        break;
      }
    }
    PositionsBelow(picks, |documents|);
  }

  // The remaining documents are those at the positions `at`, in order, and these are all the
  // positions that have not been chosen.
  ghost predicate Tracks(docs: seq<Doc>, remaining: seq<Doc>, at: seq<nat>, chosen: seq<nat>) {
    && |at| == |remaining| && Valid(at, |docs|)
    && (forall i :: 0 <= i < |at| ==> remaining[i] == docs[at[i]])
    && (forall i, j :: 0 <= i < j < |at| ==> at[i] < at[j])
    && (forall p: nat :: p < |docs| ==> (p in at <==> p !in chosen))
  }

  ghost function All(docs: seq<Doc>): (at: seq<nat>)
    ensures Tracks(docs, docs, at, [])
  {
    var at := seq(|docs|, i requires 0 <= i => i);
    assert forall p: nat :: p < |docs| ==> p in at by {
      forall p: nat | p < |docs| ensures p in at { assert at[p] == p; }
    }
    at
  }

  lemma TracksPop(docs: seq<Doc>, remaining: seq<Doc>, at: seq<nat>, chosen: seq<nat>, k: nat)
    requires Tracks(docs, remaining, at, chosen) && k < |at|
    ensures Tracks(docs, remaining[..k] + remaining[k + 1..], at[..k] + at[k + 1..], chosen + [at[k]])
  {
    var less := at[..k] + at[k + 1..];
    forall p: nat | p < |docs|
      ensures p in less <==> p !in chosen + [at[k]]
    {
      if p in at && p != at[k] {
        var i :| 0 <= i < |at| && at[i] == p;
        assert p == less[if i < k then i else i - 1];
      }
    }
  }

  lemma BestIsFirst(query: string, docs: seq<Doc>, remaining: seq<Doc>, at: seq<nat>, chosen: seq<nat>, k: nat,
                    lambdaMult: real, terms: Terms)
    requires Tracks(docs, remaining, at, chosen) && Valid(chosen, |docs|) && k < |remaining|
    requires var texts := Texts(docs, chosen); var best := Score(query, remaining[k].text, texts, lambdaMult, terms);
             && (forall i :: 0 <= i < |remaining| ==> Score(query, remaining[i].text, texts, lambdaMult, terms) <= best)
             && (forall i :: 0 <= i < k ==> Score(query, remaining[i].text, texts, lambdaMult, terms) < best)
    ensures IsFirstBest(query, docs, chosen, at[k], lambdaMult, terms)
  {
    forall j: nat | j < |docs| && j !in chosen
      ensures var sj, sk := ScoreOf(query, docs, chosen, j, lambdaMult, terms),
              ScoreOf(query, docs, chosen, at[k], lambdaMult, terms);
              sj <= sk && (j < at[k] ==> sj < sk)
    {
      var i :| 0 <= i < |at| && at[i] == j;
      assert j < at[k] ==> i < k;
    }
  }

  // The inner loop: the first document with the highest score.
  method BestRemaining(remaining: seq<Doc>, scoreOf: string -> real) returns (bestScore: real, bestIdx: nat)
    requires remaining != []
    ensures bestIdx < |remaining| && bestScore == scoreOf(remaining[bestIdx].text)
    ensures forall i :: 0 <= i < |remaining| ==> scoreOf(remaining[i].text) <= bestScore
    ensures forall i :: 0 <= i < bestIdx ==> scoreOf(remaining[i].text) < bestScore
  {
    bestScore, bestIdx := 0.0, 0;
    var found := false;
    for i := 0 to |remaining|
      invariant found <==> i > 0
      invariant found ==> bestIdx < i && bestScore == scoreOf(remaining[bestIdx].text)
      invariant forall j :: 0 <= j < i ==> scoreOf(remaining[j].text) <= bestScore
      invariant found ==> forall j :: 0 <= j < bestIdx ==> scoreOf(remaining[j].text) < bestScore
    {
      var score := scoreOf(remaining[i].text);
      // Every number is above the initial minus infinity.
      if !found || score > bestScore {
        bestScore, bestIdx, found := score, i, true;
      }
    }
  }

  lemma {:induction false} TextsAt(docs: seq<Doc>, positions: seq<nat>)
    requires Valid(positions, |docs|)
    ensures forall t :: 0 <= t < |positions| ==> Texts(docs, positions)[t] == docs[positions[t]].text
  {
    if positions != [] { TextsAt(docs, positions[..|positions| - 1]); }
  }

  lemma TextsOfResults(docs: seq<Doc>, selected: seq<Result>, picks: seq<Pick>, texts: seq<string>)
    requires |selected| == |picks| == |texts|
    requires forall t :: 0 <= t < |picks| ==> picks[t].pos < |docs|
    requires forall t :: 0 <= t < |picks| ==> selected[t] == ResultOf(docs, picks[t]) && texts[t] == selected[t].text
    ensures (PositionsBelow(picks, |docs|); Texts(docs, Positions(picks)) == texts)
  {
    PositionsBelow(picks, |docs|);
    TextsAt(docs, Positions(picks));
  }

  lemma GreedyMore(query: string, docs: seq<Doc>, picks: seq<Pick>, pick: Pick, lambdaMult: real, terms: Terms)
    requires Greedy(query, docs, picks, lambdaMult, terms) && pick.pos < |docs|
    requires (PositionsBelow(picks, |docs|); IsFirstBest(query, docs, Positions(picks), pick.pos, lambdaMult, terms))
    requires (PositionsBelow(picks, |docs|);
             pick.score == ScoreOf(query, docs, Positions(picks), pick.pos, lambdaMult, terms))
    requires !docs[pick.pos].isEmpty
    ensures Greedy(query, docs, picks + [pick], lambdaMult, terms)
    ensures Positions(picks + [pick]) == Positions(picks) + [pick.pos]
  {
    var more := picks + [pick];
    assert more[..|picks|] == picks;
    forall t | 0 <= t < |more|
      ensures GreedyAt(query, docs, more, t, lambdaMult, terms)
    {
      if t < |picks| {
        assert more[..t] == picks[..t];
        assert GreedyAt(query, docs, picks, t, lambdaMult, terms);
      }
    }
  }

  // ---------- Properties of every selection ----------

  // The greedy selection of a given length is unique.
  lemma {:induction false} GreedyUnique(query: string, docs: seq<Doc>, a: seq<Pick>, b: seq<Pick>,
                                        lambdaMult: real, terms: Terms)
    requires Greedy(query, docs, a, lambdaMult, terms) && Greedy(query, docs, b, lambdaMult, terms) && |a| == |b|
    ensures a == b
  {
    if a != [] {
      var last := |a| - 1;
      GreedyPrefix(query, docs, a, last, lambdaMult, terms);
      GreedyPrefix(query, docs, b, last, lambdaMult, terms);
      GreedyUnique(query, docs, a[..last], b[..last], lambdaMult, terms);
      assert GreedyAt(query, docs, a, last, lambdaMult, terms) && GreedyAt(query, docs, b, last, lambdaMult, terms);
      assert a == a[..last] + [a[last]] && b == b[..last] + [b[last]];
    }
  }

  lemma GreedyPrefix(query: string, docs: seq<Doc>, picks: seq<Pick>, n: nat, lambdaMult: real, terms: Terms)
    requires Greedy(query, docs, picks, lambdaMult, terms) && n <= |picks|
    ensures Greedy(query, docs, picks[..n], lambdaMult, terms)
  {
    forall t | 0 <= t < n
      ensures GreedyAt(query, docs, picks[..n], t, lambdaMult, terms)
    {
      assert picks[..n][..t] == picks[..t];
      assert GreedyAt(query, docs, picks, t, lambdaMult, terms);
    }
  }

  lemma PicksDistinct(query: string, docs: seq<Doc>, picks: seq<Pick>, lambdaMult: real, terms: Terms)
    requires Greedy(query, docs, picks, lambdaMult, terms)
    ensures forall s, t :: 0 <= s < t < |picks| ==> picks[s].pos != picks[t].pos
  {
    forall s, t | 0 <= s < t < |picks|
      ensures picks[s].pos != picks[t].pos
    {
      assert GreedyAt(query, docs, picks, t, lambdaMult, terms);
      PositionsBelow(picks[..t], |docs|);
      assert Positions(picks[..t])[s] == picks[..t][s].pos == picks[s].pos;
    }
  }

  ghost function Range(n: nat): (r: set<nat>)
    ensures |r| == n && forall p: nat :: p in r <==> p < n
  {
    if n == 0 then {} else Range(n - 1) + {n - 1}
  }

  ghost function Members(positions: seq<nat>): (r: set<nat>)
    ensures forall p :: p in r <==> p in positions
  {
    if positions == [] then {} else Members(positions[..|positions| - 1]) + {positions[|positions| - 1]}
  }

  lemma {:induction false} MembersCount(positions: seq<nat>)
    requires forall s, t :: 0 <= s < t < |positions| ==> positions[s] != positions[t]
    ensures |Members(positions)| == |positions|
  {
    if positions != [] { MembersCount(positions[..|positions| - 1]); }
  }

  lemma MembersRange(positions: seq<nat>, n: nat)
    requires Valid(positions, n)
    ensures Members(positions) <= Range(n)
    ensures (forall p: nat :: p < n ==> p in positions) ==> Members(positions) == Range(n)
  {
    forall p | p in Members(positions)
      ensures p in Range(n)
    {
      var i :| 0 <= i < |positions| && positions[i] == p;
    }
  }

  lemma CountPositions(positions: seq<nat>, n: nat)
    requires Valid(positions, n)
    requires forall s, t :: 0 <= s < t < |positions| ==> positions[s] != positions[t]
    ensures |positions| <= n
    ensures (forall p: nat :: p < n ==> p in positions) ==> |positions| == n
  {
    var all, used := Range(n), Members(positions);
    MembersCount(positions);
    MembersRange(positions, n);
    SubsetSize(used, all);
  }

  // Distinct positions, and exactly min(limit, n) of them when no document is empty.
  lemma SelectionComplete(query: string, docs: seq<Doc>, picks: seq<Pick>, limit: nat, lambdaMult: real, terms: Terms)
    requires Greedy(query, docs, picks, lambdaMult, terms) && |picks| <= limit
    requires Finished(query, docs, picks, limit, lambdaMult, terms)
    requires forall i :: 0 <= i < |docs| ==> !docs[i].isEmpty
    ensures forall s, t :: 0 <= s < t < |picks| ==> picks[s].pos != picks[t].pos
    ensures |picks| == if limit < |docs| then limit else |docs|
  {
    PicksDistinct(query, docs, picks, lambdaMult, terms);
    PositionsBelow(picks, |docs|);
    CountPositions(Positions(picks), |docs|);
  }

  lemma {:induction false} MoreSelectedMoreSimilar(text: string, selected: seq<string>, next: string, terms: Terms)
    requires selected != []
    ensures MaxSimilarity(text, selected, terms) <= MaxSimilarity(text, selected + [next], terms)
  {
    assert (selected + [next])[..|selected|] == selected;
  }

  lemma Scale(c: real, x: real, y: real)
    requires c >= 0.0 && x <= y
    ensures Times(c, x) <= Times(c, y)
  {
    assert c * (y - x) >= 0.0;
  }

  lemma Portion(c: real, x: real)
    requires c >= 0.0 && 0.0 <= x <= 1.0
    ensures 0.0 <= Times(c, x) <= c
  {
    Scale(c, 0.0, x);
    Scale(c, x, 1.0);
  }

  lemma Weighted(lambdaMult: real, relevance: real, less: real, more: real)
    requires lambdaMult <= 1.0 && less <= more
    ensures Mix(lambdaMult, relevance, less) <= Mix(lambdaMult, relevance, more)
  {
    Scale(1.0 - lambdaMult, less, more);
  }

  lemma Mixed(lambdaMult: real, a: real, b: real)
    requires 0.0 <= lambdaMult <= 1.0 && 0.0 <= a <= 1.0 && 0.0 <= b <= 1.0
    ensures 0.0 <= Mix(lambdaMult, a, b) <= 1.0
  {
    Portion(lambdaMult, a);
    Portion(1.0 - lambdaMult, b);
  }

  // For lambdaMult in [0, 1] every score lies in [0, 1].
  lemma ScoresInRange(query: string, docs: seq<Doc>, picks: seq<Pick>, lambdaMult: real, terms: Terms)
    requires Greedy(query, docs, picks, lambdaMult, terms) && 0.0 <= lambdaMult <= 1.0
    ensures forall t :: 0 <= t < |picks| ==> 0.0 <= picks[t].score <= 1.0
  {
    forall t | 0 <= t < |picks|
      ensures 0.0 <= picks[t].score <= 1.0
    {
      assert GreedyAt(query, docs, picks, t, lambdaMult, terms);
      PositionsBelow(picks[..t], |docs|);
      var text, selected := docs[picks[t].pos].text, Texts(docs, Positions(picks[..t]));
      Mixed(lambdaMult, Relevance(query, text, terms), Diversity(text, selected, terms));
    }
  }

  // From the second pick on the scores never rise, for every lambdaMult up to 1. (The first pick is
  // scored without a diversity term, so the second may well score higher.)
  lemma ScoresNonIncreasing(query: string, docs: seq<Doc>, picks: seq<Pick>, lambdaMult: real, terms: Terms)
    requires Greedy(query, docs, picks, lambdaMult, terms) && lambdaMult <= 1.0
    ensures forall s, t :: 1 <= s <= t < |picks| ==> picks[t].score <= picks[s].score
  {
    forall s, t | 1 <= s <= t < |picks|
      ensures picks[t].score <= picks[s].score
    {
      Falling(query, docs, picks, s, t, lambdaMult, terms);
    }
  }

  lemma {:induction false} Falling(query: string, docs: seq<Doc>, picks: seq<Pick>, s: nat, t: nat,
                                   lambdaMult: real, terms: Terms)
    requires Greedy(query, docs, picks, lambdaMult, terms) && lambdaMult <= 1.0
    requires 1 <= s <= t < |picks|
    ensures picks[t].score <= picks[s].score
    decreases t - s
  {
    if s < t {
      OneStepDown(query, docs, picks, s, lambdaMult, terms);
      Falling(query, docs, picks, s + 1, t, lambdaMult, terms);
    }
  }

  lemma OneStepDown(query: string, docs: seq<Doc>, picks: seq<Pick>, s: nat, lambdaMult: real, terms: Terms)
    requires Greedy(query, docs, picks, lambdaMult, terms) && lambdaMult <= 1.0
    requires 1 <= s && s + 1 < |picks|
    ensures picks[s + 1].score <= picks[s].score
  {
    assert GreedyAt(query, docs, picks, s, lambdaMult, terms) && GreedyAt(query, docs, picks, s + 1, lambdaMult, terms);
    PositionsBelow(picks[..s], |docs|);
    PositionsBelow(picks[..s + 1], |docs|);
    assert picks[..s + 1][..s] == picks[..s];
    var chosen, last, next := Positions(picks[..s]), picks[s].pos, picks[s + 1].pos;
    assert Positions(picks[..s + 1]) == chosen + [last];
    assert next !in chosen by { assert next !in chosen + [last]; }
    ScoreFalls(query, docs, chosen, last, next, lambdaMult, terms);
  }

  // Picking one more document never raises the score of another.
  lemma ScoreFalls(query: string, docs: seq<Doc>, chosen: seq<nat>, last: nat, j: nat, lambdaMult: real, terms: Terms)
    requires chosen != [] && Valid(chosen, |docs|) && last < |docs| && j < |docs| && lambdaMult <= 1.0
    ensures ScoreOf(query, docs, chosen + [last], j, lambdaMult, terms)
            <= ScoreOf(query, docs, chosen, j, lambdaMult, terms)
  {
    assert (chosen + [last])[..|chosen|] == chosen;
    var texts, text := Texts(docs, chosen), docs[j].text;
    assert Texts(docs, chosen + [last]) == texts + [docs[last].text];
    MoreSelectedMoreSimilar(text, texts, docs[last].text, terms);
    Weighted(lambdaMult, Relevance(query, text, terms),
             1.0 - MaxSimilarity(text, texts + [docs[last].text], terms), 1.0 - MaxSimilarity(text, texts, terms));
  }
}
