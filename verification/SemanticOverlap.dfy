// What the semantic chunks hold: runs of sentences, cut greedily, each after the tail of the chunk
// before.
module SemanticOverlap {
  import opened Text
  import opened SemanticChunker

  // The sentences from i up to k, a space before each.
  ghost function Words(sentences: seq<string>, i: nat, k: nat): string
    requires i <= k <= |sentences|
  {
    if i == k then "" else Words(sentences, i, k - 1) + (" " + sentences[k - 1])
  }

  // A tail of earlier text, and the sentences from number `first` up to number `end`.
  datatype Part = Part(tail: string, first: nat, end: nat)

  ghost predicate Within(p: Part, sentences: seq<string>) {
    p.first < p.end <= |sentences|
  }

  // What a part holds before sentence number e.
  ghost function Holds(p: Part, sentences: seq<string>, e: nat): string
    requires p.first <= e <= |sentences|
  {
    p.tail + Words(sentences, p.first, e)
  }

  ghost function Whole(p: Part, sentences: seq<string>): string
    requires Within(p, sentences)
  {
    Holds(p, sentences, p.end)
  }

  // After its first sentence, whatever its length, a part takes only sentences that fit.
  ghost predicate Fits(cfg: Config, p: Part, sentences: seq<string>) {
    && Within(p, sentences)
    && forall e :: p.first < e < p.end ==> |Holds(p, sentences, e)| + |sentences[e]| <= cfg.maxChunkSize
  }

  // The last n characters of a text, or all of it.
  ghost predicate IsTail(tail: string, whole: string, n: int) {
    && |tail| <= |whole| && whole[|whole| - |tail|..] == tail
    && |tail| == if |whole| < n then |whole| else n
  }

  // The next part begins with the end of this one, before the first sentence that does not fit.
  ghost predicate GoesOn(cfg: Config, p: Part, next: Part, sentences: seq<string>) {
    && Within(p, sentences) && p.end < |sentences| && next.first == p.end
    && IsTail(next.tail, Whole(p, sentences), cfg.overlapSize)
    && |Whole(p, sentences)| + |sentences[p.end]| > cfg.maxChunkSize
  }

  ghost predicate Chain(cfg: Config, parts: seq<Part>, sentences: seq<string>) {
    && (forall j :: 0 <= j < |parts| ==> Fits(cfg, parts[j], sentences))
    && (forall j :: 0 <= j < |parts| - 1 ==> GoesOn(cfg, parts[j], parts[j + 1], sentences))
  }

  // All of the sentences, from the first to the last.
  ghost predicate Covers(parts: seq<Part>, k: nat) {
    parts != [] && parts[0].first == 0 && parts[0].tail == "" && parts[|parts| - 1].end == k
  }

  lemma ChainLonger(cfg: Config, parts: seq<Part>, p: Part, sentences: seq<string>)
    requires Chain(cfg, parts, sentences) && Fits(cfg, p, sentences)
    requires parts != [] ==> GoesOn(cfg, parts[|parts| - 1], p, sentences)
    ensures Chain(cfg, parts + [p], sentences)
  {
    var more := parts + [p];
    forall j | 0 <= j < |more| - 1
      ensures GoesOn(cfg, more[j], more[j + 1], sentences)
    {
      if j + 1 < |parts| { assert GoesOn(cfg, parts[j], parts[j + 1], sentences); }
    }
  }

  lemma ChainPrefix(cfg: Config, parts: seq<Part>, sentences: seq<string>)
    requires parts != [] && Chain(cfg, parts, sentences)
    ensures Chain(cfg, parts[..|parts| - 1], sentences)
  {
    var less := parts[..|parts| - 1];
    forall j | 0 <= j < |less| - 1
      ensures GoesOn(cfg, less[j], less[j + 1], sentences)
    {
      assert GoesOn(cfg, parts[j], parts[j + 1], sentences);
    }
  }

  lemma WholeGrows(p: Part, sentences: seq<string>)
    requires Within(p, sentences) && p.end < |sentences|
    ensures Whole(p.(end := p.end + 1), sentences) == Whole(p, sentences) + (" " + sentences[p.end])
  {
    Reassociate(p.tail, Words(sentences, p.first, p.end), " " + sentences[p.end]);
  }

  lemma Reassociate(a: string, b: string, c: string)
    ensures a + (b + c) == a + b + c
  {
  }

  // A part grows by a sentence that fits.
  lemma PartGrows(cfg: Config, p: Part, q: Part, sentences: seq<string>)
    requires Fits(cfg, p, sentences) && p.end < |sentences| && q == p.(end := p.end + 1)
    requires |Whole(p, sentences)| + |sentences[p.end]| <= cfg.maxChunkSize
    ensures Fits(cfg, q, sentences)
  {
    forall e | q.first < e < q.end
      ensures |Holds(q, sentences, e)| + |sentences[e]| <= cfg.maxChunkSize
    {
      SameHolds(p, q, sentences, e);
    }
  }

  lemma SameHolds(p: Part, q: Part, sentences: seq<string>, e: nat)
    requires p.tail == q.tail && p.first == q.first <= e <= |sentences|
    ensures Holds(p, sentences, e) == Holds(q, sentences, e)
  {
  }

  lemma PartBegins(cfg: Config, tail: string, k: nat, sentences: seq<string>)
    requires k < |sentences|
    ensures var p := Part(tail, k, k + 1);
            Fits(cfg, p, sentences) && Whole(p, sentences) == tail + (" " + sentences[k])
  {
    assert Words(sentences, k, k) == "";
    assert Words(sentences, k, k + 1) == "" + (" " + sentences[k]);
  }

  // The parts of the finished chunks, and of the current one.
  ghost predicate Describes(done: seq<Part>, p: Part, sentences: seq<string>, acc: Acc) {
    && |done| == |acc.chunks| && Within(p, sentences) && acc.current == Whole(p, sentences)
    && forall j :: 0 <= j < |done| ==>
         Within(done[j], sentences) && acc.chunks[j].text == PyStrip(Whole(done[j], sentences))
  }

  ghost predicate Built(cfg: Config, done: seq<Part>, p: Part, sentences: seq<string>, k: nat, acc: Acc) {
    Chain(cfg, done + [p], sentences) && Covers(done + [p], k) && Describes(done, p, sentences, acc)
  }

  lemma FirstPart(cfg: Config, text: string, sentences: seq<string>) returns (p: Part)
    requires cfg.overlapSize >= 0 && sentences != []
    ensures Built(cfg, [], p, sentences, 1, After(cfg, text, sentences, 1))
  {
    p := Part("", 0, 1);
    var start := Acc([], "", 0);
    assert After(cfg, text, sentences, 0) == start;
    AfterStep(cfg, text, sentences, 0, start);
    PartBegins(cfg, "", 0, sentences);
    ChainLonger(cfg, [], p, sentences);
    assert [] + [p] == [p];
  }

  // A sentence that fits goes to the current part.
  lemma Continued(cfg: Config, text: string, sentences: seq<string>, done: seq<Part>, p: Part, k: nat, acc: Acc)
      returns (q: Part)
    requires cfg.overlapSize >= 0 && k < |sentences| && Built(cfg, done, p, sentences, k, acc)
    requires acc.current != "" && !Flushes(cfg, acc.current, sentences[k])
    ensures Built(cfg, done, q, sentences, k + 1, Take(cfg, text, acc, sentences[k]))
  {
    q := p.(end := k + 1);
    assert (done + [p])[|done|] == p && Fits(cfg, (done + [p])[|done|], sentences);
    ChainContinued(cfg, done, p, q, sentences);
    WholeGrows(p, sentences);
    ContinuedDescribed(cfg, text, sentences, done, p, q, k, acc);
  }

  lemma ChainContinued(cfg: Config, done: seq<Part>, p: Part, q: Part, sentences: seq<string>)
    requires Chain(cfg, done + [p], sentences) && p.end < |sentences| && q == p.(end := p.end + 1)
    requires Within(p, sentences) && |Whole(p, sentences)| + |sentences[p.end]| <= cfg.maxChunkSize
    ensures Chain(cfg, done + [q], sentences)
  {
    var parts := done + [p];
    assert parts[|done|] == p && parts[..|parts| - 1] == done;
    PartGrows(cfg, p, q, sentences);
    ChainPrefix(cfg, parts, sentences);
    if done != [] {
      assert GoesOn(cfg, parts[|done| - 1], parts[|done| - 1 + 1], sentences);
      SameBeginning(cfg, done[|done| - 1], p, q, sentences);
    }
    ChainLonger(cfg, done, q, sentences);
  }

  lemma SameBeginning(cfg: Config, before: Part, p: Part, q: Part, sentences: seq<string>)
    requires GoesOn(cfg, before, p, sentences) && p.first == q.first && p.tail == q.tail
    ensures GoesOn(cfg, before, q, sentences)
  {
  }

  lemma ContinuedDescribed(cfg: Config, text: string, sentences: seq<string>, done: seq<Part>, p: Part, q: Part,
                           k: nat, acc: Acc)
    requires cfg.overlapSize >= 0 && k < |sentences| && Describes(done, p, sentences, acc)
    requires !Flushes(cfg, acc.current, sentences[k]) && Within(q, sentences)
    requires Whole(q, sentences) == Whole(p, sentences) + (" " + sentences[k])
    ensures Describes(done, q, sentences, Take(cfg, text, acc, sentences[k]))
  {
  }

  // One that does not fit opens the next part.
  lemma Broken(cfg: Config, text: string, sentences: seq<string>, done: seq<Part>, p: Part, k: nat, acc: Acc)
      returns (q: Part)
    requires cfg.overlapSize >= 0 && k < |sentences| && Built(cfg, done, p, sentences, k, acc)
    requires Flushes(cfg, acc.current, sentences[k])
    ensures Built(cfg, done + [p], q, sentences, k + 1, Take(cfg, text, acc, sentences[k]))
  {
    var tail := acc.current[Max(0, |acc.current| - cfg.overlapSize)..];
    q := Part(tail, k, k + 1);
    assert (done + [p])[|done|] == p;
    PartBegins(cfg, tail, k, sentences);
    ChainLonger(cfg, done + [p], q, sentences);
    BrokenDescribed(cfg, text, sentences, done, p, q, k, acc);
  }

  lemma BrokenDescribed(cfg: Config, text: string, sentences: seq<string>, done: seq<Part>, p: Part, q: Part, k: nat,
                        acc: Acc)
    requires cfg.overlapSize >= 0 && k < |sentences| && Describes(done, p, sentences, acc)
    requires Flushes(cfg, acc.current, sentences[k]) && Within(q, sentences)
    requires Whole(q, sentences)
             == acc.current[Max(0, |acc.current| - cfg.overlapSize)..] + (" " + sentences[k])
    ensures Describes(done + [p], q, sentences, Take(cfg, text, acc, sentences[k]))
  {
  }

  lemma PartsOf(cfg: Config, text: string, sentences: seq<string>) returns (done: seq<Part>, p: Part)
    requires cfg.overlapSize >= 0 && sentences != []
    ensures Built(cfg, done, p, sentences, |sentences|, After(cfg, text, sentences, |sentences|))
  {
    done := [];
    p := FirstPart(cfg, text, sentences);
    for k := 1 to |sentences|
      invariant Built(cfg, done, p, sentences, k, After(cfg, text, sentences, k))
    {
      var acc := After(cfg, text, sentences, k);
      PackedIs(cfg, text, sentences, k);
      AfterStep(cfg, text, sentences, k, acc);
      if Flushes(cfg, acc.current, sentences[k]) {
        var q := Broken(cfg, text, sentences, done, p, k, acc);
        done, p := done + [p], q;
      } else {
        p := Continued(cfg, text, sentences, done, p, k, acc);
      }
    }
  }

  // The chunks are consecutive runs of sentences, stripped. Each but the first begins with the last
  // overlap_size characters of what the one before held; a sentence opens a chunk exactly when it
  // would make the chunk before too long.
  lemma OverlapCarried(cfg: Config, text: string) returns (parts: seq<Part>)
    requires cfg.overlapSize >= 0 && SplitIntoSentences(text) != []
    ensures var sentences, chunks := SplitIntoSentences(text), SplitSpec(cfg, text);
            && Chain(cfg, parts, sentences) && Covers(parts, |sentences|) && |parts| == |chunks|
            && forall j :: 0 <= j < |chunks| ==> chunks[j].text == PyStrip(Whole(parts[j], sentences))
  {
    var sentences := SplitIntoSentences(text);
    var done, p := PartsOf(cfg, text, sentences);
    parts := done + [p];
    FinalIsFinish(cfg, text, sentences);
  }
}
