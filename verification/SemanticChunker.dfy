// Sentence-based chunker: sentences are located in the text by searching from the start of the
// current chunk, and packed into chunks that carry a tail of the previous chunk as overlap.
module SemanticChunker {
  import opened Text

  datatype Chunk = Chunk(id: nat, text: string, startChar: int, endChar: int)

  // ---------- Sentences ----------

  predicate EndsSentence(c: char) {
    c == '.' || c == '!' || c == '?'
  }

  function SpaceEnd(text: string, i: nat): (e: nat)
    requires i <= |text|
    ensures i <= e <= |text|
    ensures i < |text| && IsPySpace(text[i]) ==> i < e
    ensures forall j :: i <= j < e ==> IsPySpace(text[j])
    decreases |text| - i
  {
    if i < |text| && IsPySpace(text[i]) then SpaceEnd(text, i + 1) else i
  }

  // re.split at runs of white space that follow an end mark; the piece being read began at `start`.
  function Pieces(text: string, start: nat, i: nat): seq<string>
    requires start <= i <= |text|
    decreases |text| - i
  {
    if i == |text| then [text[start..]]
    else if i > 0 && EndsSentence(text[i - 1]) && IsPySpace(text[i]) then
      var next := SpaceEnd(text, i);
      [text[start..i]] + Pieces(text, next, next)
    else Pieces(text, start, i + 1)
  }

  function SplitIntoSentences(text: string): seq<string> {
    Stripped(Pieces(text, 0, 0))
  }

  // ---------- The packing loop ----------

  datatype Config = Config(maxChunkSize: int, overlapSize: int)

  // The local variables of the loop.
  datatype Acc = Acc(chunks: seq<Chunk>, current: string, start: int)

  function Max(a: int, b: int): int {
    if a < b then b else a
  }

  predicate Flushes(cfg: Config, current: string, sentence: string) {
    |current| + |sentence| > cfg.maxChunkSize && current != ""
  }

  ghost function Take(cfg: Config, text: string, acc: Acc, sentence: string): Acc
    requires cfg.overlapSize >= 0
  {
    var at := Find(text, sentence, acc.start);
    if Flushes(cfg, acc.current, sentence) then
      var overlap := acc.current[Max(0, |acc.current| - cfg.overlapSize)..];
      Acc(acc.chunks + [Chunk(|acc.chunks|, PyStrip(acc.current), acc.start, at)], overlap + (" " + sentence), at)
    else Acc(acc.chunks, acc.current + (" " + sentence), if acc.current == "" then at else acc.start)
  }

  // The variables after the first k sentences.
  ghost function After(cfg: Config, text: string, sentences: seq<string>, k: nat): Acc
    requires cfg.overlapSize >= 0 && k <= |sentences|
  {
    if k == 0 then Acc([], "", 0) else Take(cfg, text, After(cfg, text, sentences, k - 1), sentences[k - 1])
  }

  lemma AfterStep(cfg: Config, text: string, sentences: seq<string>, k: nat, acc: Acc)
    requires cfg.overlapSize >= 0 && k < |sentences| && acc == After(cfg, text, sentences, k)
    ensures After(cfg, text, sentences, k + 1) == Take(cfg, text, acc, sentences[k])
  {
  }

  ghost function SplitSpec(cfg: Config, text: string): seq<Chunk>
    requires cfg.overlapSize >= 0
  {
    var sentences := SplitIntoSentences(text);
    var acc := After(cfg, text, sentences, |sentences|);
    if PyBlank(acc.current) then acc.chunks else Finish(acc, text)
  }

  class Chunker {
    var minChunkSize: int
    var maxChunkSize: int
    var overlapSize: int

    constructor ()
      ensures maxChunkSize == 1000 && overlapSize == 100 && minChunkSize == 200
    {
      minChunkSize, maxChunkSize, overlapSize := 200, 1000, 100;
    }

    method SplitBySemantics(text: string) returns (chunks: seq<Chunk>)
      requires overlapSize >= 0
      ensures chunks == SplitSpec(Config(maxChunkSize, overlapSize), text)
    {
      var sentences := SplitIntoSentences(text);
      ghost var cfg := Config(maxChunkSize, overlapSize);
      chunks := [];
      var currentChunk, currentStart := "", 0;
      for i := 0 to |sentences|
        invariant Acc(chunks, currentChunk, currentStart) == After(cfg, text, sentences, i)
      {
        AfterStep(cfg, text, sentences, i, Acc(chunks, currentChunk, currentStart));
        chunks, currentChunk, currentStart := Pack(text, sentences[i], chunks, currentChunk, currentStart);
      }
      if PyStrip(currentChunk) != "" {
        chunks := chunks + [Chunk(|chunks|, PyStrip(currentChunk), currentStart, |text|)];
      }
    }

    // The body of the loop over the sentences.
    method Pack(text: string, sentence: string, chunks: seq<Chunk>, currentChunk: string, currentStart: int)
      returns (newChunks: seq<Chunk>, newChunk: string, newStart: int)
      requires overlapSize >= 0
      ensures Acc(newChunks, newChunk, newStart)
              == Take(Config(maxChunkSize, overlapSize), text, Acc(chunks, currentChunk, currentStart), sentence)
    {
      newChunks, newChunk, newStart := chunks, currentChunk, currentStart;
      var sentenceStart := Find(text, sentence, currentStart);
      if |currentChunk| + |sentence| > maxChunkSize && currentChunk != "" {
        newChunks := chunks + [Chunk(|chunks|, PyStrip(currentChunk), currentStart, sentenceStart)];
        var overlapStart := Max(0, |currentChunk| - overlapSize);
        newChunk := currentChunk[overlapStart..] + (" " + sentence);
        newStart := sentenceStart;
      } else {
        if currentChunk == "" {
          newStart := sentenceStart;
        }
        newChunk := currentChunk + (" " + sentence);
      }
    }
  }

  // ---------- Where the sentences are ----------

  // Sentence k begins at at[k], and each begins after the one before has ended.
  ghost predicate Placed(text: string, sentences: seq<string>, at: seq<nat>, from: nat) {
    && |at| == |sentences|
    && (forall k :: 0 <= k < |at| ==> from <= at[k] <= |text| && StartsWith(text[at[k]..], sentences[k]))
    && (forall k :: 0 <= k < |at| - 1 ==> at[k] + |sentences[k]| <= at[k + 1])
  }

  ghost predicate Tight(s: string) {
    s != "" && !IsPySpace(s[0]) && !IsPySpace(s[|s| - 1])
  }

  lemma {:induction false} StrippedTight(pieces: seq<string>)
    ensures forall k :: 0 <= k < |Stripped(pieces)| ==> Tight(Stripped(pieces)[k])
  {
    if pieces != [] { StrippedTight(pieces[1..]); }
  }

  lemma SliceOfSlice(text: string, start: nat, i: nat, a: nat, b: nat)
    requires start <= i <= |text| && a <= b <= i - start
    ensures text[start..i][a..b] == text[start + a..start + b]
  {
    var l, r := text[start..i][a..b], text[start + a..start + b];
    forall k | 0 <= k < |l| ensures l[k] == r[k] { assert l[k] == text[start..i][a + k]; }
  }

  // Where the sentence in the piece text[start..i] begins, if there is one.
  function PlaceOf(text: string, start: nat, i: nat): (at: seq<nat>)
    requires start <= i <= |text|
    ensures |at| == if PyBlank(text[start..i]) then 0 else 1
  {
    if PyBlank(text[start..i]) then [] else [start + Lead(text[start..i], IsPySpace)]
  }

  // The true places of the sentences, piece by piece.
  function Places(text: string, start: nat, i: nat): seq<nat>
    requires start <= i <= |text|
    decreases |text| - i
  {
    if i == |text| then PlaceOf(text, start, i)
    else if i > 0 && EndsSentence(text[i - 1]) && IsPySpace(text[i]) then
      var next := SpaceEnd(text, i);
      PlaceOf(text, start, i) + Places(text, next, next)
    else Places(text, start, i + 1)
  }

  lemma PieceAt(text: string, start: nat, i: nat)
    requires start <= i <= |text| && !PyBlank(text[start..i])
    ensures var at, s := PlaceOf(text, start, i)[0], PyStrip(text[start..i]);
            && start <= at && at + |s| <= i && StartsWith(text[at..], s)
            && (forall j :: start <= j < at ==> IsPySpace(text[j]))
            && (!IsPySpace(text[i - 1]) ==> at + |s| == i)
  {
    var piece := text[start..i];
    var a, b := Lead(piece, IsPySpace), Trail(piece, IsPySpace);
    assert !IsPySpace(piece[a]);
    SliceOfSlice(text, start, i, a, b);
    assert text[start + a..][..b - a] == text[start + a..start + b];
    forall j | start <= j < start + a ensures IsPySpace(text[j]) { assert piece[j - start] == text[j]; }
    assert piece[|piece| - 1] == text[i - 1];
  }

  // The sentences are at their places, one after the other without overlap.
  lemma {:induction false} Locate(text: string, start: nat, i: nat)
    requires start <= i <= |text|
    ensures Placed(text, Stripped(Pieces(text, start, i)), Places(text, start, i), start)
    decreases |text| - i
  {
    if i == |text| {
      Prefix(text, start, i, [], [], |text|);
      assert text[start..] == text[start..i];
      assert [text[start..i]] + [] == [text[start..i]] && PlaceOf(text, start, i) + [] == PlaceOf(text, start, i);
    } else if i > 0 && EndsSentence(text[i - 1]) && IsPySpace(text[i]) {
      var next := SpaceEnd(text, i);
      Locate(text, next, next);
      Prefix(text, start, i, Pieces(text, next, next), Places(text, next, next), next);
    } else {
      Locate(text, start, i + 1);
    }
  }

  lemma Prefix(text: string, start: nat, i: nat, pieces: seq<string>, rest: seq<nat>, next: nat)
    requires start <= i <= next <= |text|
    requires Placed(text, Stripped(pieces), rest, next)
    ensures Placed(text, Stripped([text[start..i]] + pieces), PlaceOf(text, start, i) + rest, start)
  {
    assert ([text[start..i]] + pieces)[1..] == pieces;
    if PyBlank(text[start..i]) {
      assert PlaceOf(text, start, i) + rest == rest;
    } else {
      PieceAt(text, start, i);
      OneMorePlaced(text, PyStrip(text[start..i]), PlaceOf(text, start, i)[0], Stripped(pieces), rest, start, next);
    }
  }

  lemma OneMorePlaced(text: string, s: string, place: nat, sentences: seq<string>, at: seq<nat>, from: nat, next: nat)
    requires Placed(text, sentences, at, next) && from <= place && place + |s| <= next && place <= |text|
    requires StartsWith(text[place..], s)
    ensures Placed(text, [s] + sentences, [place] + at, from)
  {
  }

  // ---------- Containment ----------

  lemma Embeds(a: string, b: string, c: string)
    ensures Contains(a + b + c, b)
  {
    var s := a + b + c;
    assert s[|a|..][..|b|] == b;
    assert StartsWith(s[|a|..], b);
  }

  lemma ContainsGrows(s: string, more: string, needle: string)
    requires Contains(s, needle)
    ensures Contains(s + more, needle)
  {
    var i :| 0 <= i <= |s| && StartsWith(s[i..], needle);
    assert (s + more)[i..] == s[i..] + more;
    assert (s[i..] + more)[..|needle|] == needle;
  }

  ghost predicate OccursAt(s: string, needle: string, i: int) {
    0 <= i && i + |needle| <= |s| && forall k :: 0 <= k < |needle| ==> s[i + k] == needle[k]
  }

  lemma Occurrence(s: string, needle: string) returns (i: nat)
    requires Contains(s, needle)
    ensures OccursAt(s, needle, i)
  {
    i :| 0 <= i <= |s| && StartsWith(s[i..], needle);
    forall k | 0 <= k < |needle| ensures s[i + k] == needle[k] { assert s[i..][..|needle|][k] == needle[k]; }
  }

  lemma Occurs(s: string, needle: string, i: nat)
    requires OccursAt(s, needle, i)
    ensures Contains(s, needle)
  {
    assert s[i..][..|needle|] == needle;
    assert StartsWith(s[i..], needle);
  }

  // An occurrence that begins and ends off white space lies between the white space at both ends.
  lemma InnerOccurrence(s: string, before: string, t: string, after: string, needle: string, i: nat)
    requires s == before + t + after && Blank(before, IsPySpace) && Blank(after, IsPySpace)
    requires Tight(needle) && OccursAt(s, needle, i)
    ensures OccursAt(t, needle, i - |before|)
  {
    assert s[i + 0] == needle[0] && s[i + (|needle| - 1)] == needle[|needle| - 1];
    assert |before| <= i && i + |needle| <= |before| + |t|;
    forall k | 0 <= k < |needle|
      ensures t[i - |before| + k] == needle[k]
    {
      assert s[i + k] == needle[k];
    }
  }

  // Stripping never cuts into a sentence.
  lemma StripKeeps(s: string, needle: string)
    requires Contains(s, needle) && Tight(needle)
    ensures Contains(PyStrip(s), needle)
  {
    var before, after := TrimSplits(s, IsPySpace);
    InnerKeeps(s, before, PyStrip(s), after, needle);
  }

  lemma InnerKeeps(s: string, before: string, t: string, after: string, needle: string)
    requires s == before + t + after && Blank(before, IsPySpace) && Blank(after, IsPySpace)
    requires Contains(s, needle) && Tight(needle)
    ensures Contains(t, needle)
  {
    var i := Occurrence(s, needle);
    InnerOccurrence(s, before, t, after, needle, i);
    Occurs(t, needle, i - |before|);
  }

  // ---------- The invariant ----------

  ghost predicate Tiles(chunks: seq<Chunk>, next: int) {
    && (forall i :: 0 <= i < |chunks| ==> 0 <= chunks[i].startChar <= chunks[i].endChar && chunks[i].id == i)
    && (forall i :: 0 <= i < |chunks| - 1 ==> chunks[i].endChar == chunks[i + 1].startChar)
    && (chunks != [] ==> chunks[|chunks| - 1].endChar == next)
  }

  ghost predicate Covered(chunks: seq<Chunk>, current: string, sentence: string) {
    Contains(current, sentence) || exists i :: 0 <= i < |chunks| && Contains(chunks[i].text, sentence)
  }

  // No chunk is longer than this when no sentence is longer than `longest`.
  function Bound(cfg: Config, longest: int): int {
    Max(cfg.maxChunkSize + 1, cfg.overlapSize + 1 + longest)
  }

  ghost predicate WellPlaced(acc: Acc, at: seq<nat>, k: nat)
    requires k <= |at|
  {
    && (acc.current == "" <==> k == 0) && (k > 0 ==> !PyBlank(acc.current))
    && 0 <= acc.start && (k == 0 ==> acc.start == 0 && acc.chunks == []) && (k > 0 ==> acc.start <= at[k - 1])
    && Tiles(acc.chunks, acc.start)
  }

  ghost predicate AllCovered(acc: Acc, sentences: seq<string>, k: nat)
    requires k <= |sentences|
  {
    forall j :: 0 <= j < k ==> Covered(acc.chunks, acc.current, sentences[j])
  }

  ghost predicate Sized(cfg: Config, acc: Acc, k: nat, longest: int) {
    && (k > 0 ==> |acc.current| <= Bound(cfg, longest))
    && (forall i :: 0 <= i < |acc.chunks| ==> 0 < |acc.chunks[i].text| <= Bound(cfg, longest))
  }

  ghost predicate AllTight(sentences: seq<string>, longest: int) {
    forall j :: 0 <= j < |sentences| ==> Tight(sentences[j]) && |sentences[j]| <= longest
  }

  lemma FindReaches(text: string, sentences: seq<string>, at: seq<nat>, acc: Acc, k: nat)
    requires Placed(text, sentences, at, 0) && k < |sentences| && WellPlaced(acc, at, k)
    ensures 0 <= Find(text, sentences[k], acc.start) <= at[k]
  {
    assert StartsWith(text[at[k]..], sentences[k]);
    if k > 0 { assert at[k - 1] + |sentences[k - 1]| <= at[k]; }
  }

  lemma TakePlaced(cfg: Config, text: string, acc: Acc, s: string, at: seq<nat>, k: nat)
    requires cfg.overlapSize >= 0 && k < |at| && WellPlaced(acc, at, k) && Tight(s)
    requires 0 <= Find(text, s, acc.start) <= at[k] && (k > 0 ==> at[k - 1] <= at[k])
    ensures WellPlaced(Take(cfg, text, acc, s), at, k + 1)
  {
    var next := Take(cfg, text, acc, s);
    assert next.current[|next.current| - 1] == s[|s| - 1];
  }

  lemma TakeSized(cfg: Config, text: string, acc: Acc, s: string, k: nat, longest: int)
    requires cfg.overlapSize >= 0 && Sized(cfg, acc, k, longest) && 0 < |s| <= longest
    requires if k == 0 then acc.current == "" else !PyBlank(acc.current)
    ensures Sized(cfg, Take(cfg, text, acc, s), k + 1, longest)
  {
  }

  lemma TakeCovered(cfg: Config, text: string, acc: Acc, sentences: seq<string>, k: nat, longest: int)
    requires cfg.overlapSize >= 0 && k < |sentences| && AllTight(sentences, longest) && AllCovered(acc, sentences, k)
    ensures AllCovered(Take(cfg, text, acc, sentences[k]), sentences, k + 1)
  {
    var s, next := sentences[k], Take(cfg, text, acc, sentences[k]);
    var kept := next.current[..|next.current| - |s|];
    assert next.current == kept + s + "";
    Embeds(kept, s, "");
    forall j | 0 <= j < k + 1
      ensures Covered(next.chunks, next.current, sentences[j])
    {
      if j < k {
        assert Tight(sentences[j]);
        StaysCovered(cfg, text, acc, s, sentences[j]);
      }
    }
  }

  lemma {:induction false} Invariant(cfg: Config, text: string, sentences: seq<string>, at: seq<nat>,
                                     k: nat, longest: int)
    requires cfg.overlapSize >= 0 && k <= |sentences|
    requires Placed(text, sentences, at, 0) && AllTight(sentences, longest)
    ensures var acc := After(cfg, text, sentences, k);
            WellPlaced(acc, at, k) && AllCovered(acc, sentences, k) && Sized(cfg, acc, k, longest)
  {
    if k > 0 {
      var acc, s := After(cfg, text, sentences, k - 1), sentences[k - 1];
      Invariant(cfg, text, sentences, at, k - 1, longest);
      FindReaches(text, sentences, at, acc, k - 1);
      assert Tight(s) && (k > 1 ==> at[k - 2] + |sentences[k - 2]| <= at[k - 1]);
      TakePlaced(cfg, text, acc, s, at, k - 1);
      TakeSized(cfg, text, acc, s, k - 1, longest);
      TakeCovered(cfg, text, acc, sentences, k - 1, longest);
    }
  }

  // A sentence that is in the current chunk when it is flushed is in the chunk that is emitted.
  lemma StaysCovered(cfg: Config, text: string, acc: Acc, s: string, earlier: string)
    requires cfg.overlapSize >= 0 && Tight(earlier) && Covered(acc.chunks, acc.current, earlier)
    ensures var next := Take(cfg, text, acc, s); Covered(next.chunks, next.current, earlier)
  {
    var next := Take(cfg, text, acc, s);
    if Contains(acc.current, earlier) {
      if Flushes(cfg, acc.current, s) {
        StripKeeps(acc.current, earlier);
        assert next.chunks[|acc.chunks|].text == PyStrip(acc.current);
      } else {
        ContainsGrows(acc.current, " " + s, earlier);
      }
    } else {
      var i :| 0 <= i < |acc.chunks| && Contains(acc.chunks[i].text, earlier);
      assert next.chunks[i] == acc.chunks[i];
    }
  }

  // ---------- Results ----------

  // Every search succeeds, so no chunk carries the position -1.
  lemma EveryFindSucceeds(cfg: Config, text: string, k: nat)
    requires cfg.overlapSize >= 0 && k < |SplitIntoSentences(text)|
    ensures var sentences := SplitIntoSentences(text);
            Find(text, sentences[k], After(cfg, text, sentences, k).start) >= 0
  {
    var sentences := SplitIntoSentences(text);
    var at := Places(text, 0, 0);
    Locate(text, 0, 0);
    StrippedTight(Pieces(text, 0, 0));
    Invariant(cfg, text, sentences, at, k, Longest(sentences));
    FindReaches(text, sentences, at, After(cfg, text, sentences, k), k);
  }

  function Longest(sentences: seq<string>): (n: int)
    ensures forall j :: 0 <= j < |sentences| ==> |sentences[j]| <= n
  {
    if sentences == [] then 0 else Max(Longest(sentences[..|sentences| - 1]), |sentences[|sentences| - 1]|)
  }

  ghost function Finish(acc: Acc, text: string): seq<Chunk> {
    acc.chunks + [Chunk(|acc.chunks|, PyStrip(acc.current), acc.start, |text|)]
  }

  lemma FinishTiles(acc: Acc, text: string)
    requires Tiles(acc.chunks, acc.start) && 0 <= acc.start <= |text|
    ensures Tiles(Finish(acc, text), |text|)
  {
  }

  lemma FinishCovers(acc: Acc, text: string, sentence: string)
    requires Covered(acc.chunks, acc.current, sentence) && Tight(sentence)
    ensures exists i :: 0 <= i < |Finish(acc, text)| && Contains(Finish(acc, text)[i].text, sentence)
  {
    var chunks := Finish(acc, text);
    if Contains(acc.current, sentence) {
      StripKeeps(acc.current, sentence);
      assert Contains(chunks[|acc.chunks|].text, sentence);
    } else {
      var i :| 0 <= i < |acc.chunks| && Contains(acc.chunks[i].text, sentence);
      assert Contains(chunks[i].text, sentence);
    }
  }

  lemma FinalState(cfg: Config, text: string)
    requires cfg.overlapSize >= 0
    ensures var sentences := SplitIntoSentences(text); var n := |sentences|;
            var acc := After(cfg, text, sentences, n);
            && AllTight(sentences, Longest(sentences)) && AllCovered(acc, sentences, n)
            && Sized(cfg, acc, n, Longest(sentences)) && Tiles(acc.chunks, acc.start)
            && 0 <= acc.start <= |text|
            && (if n == 0 then acc.current == "" && acc.chunks == [] else !PyBlank(acc.current))
            && SplitSpec(cfg, text) == if n == 0 then [] else Finish(acc, text)
  {
    var sentences := SplitIntoSentences(text);
    var at := Places(text, 0, 0);
    Locate(text, 0, 0);
    StrippedTight(Pieces(text, 0, 0));
    Invariant(cfg, text, sentences, at, |sentences|, Longest(sentences));
  }

  // The spans tile the text from the first chunk's start to the end of the text, and there is a
  // chunk whenever there is a sentence.
  lemma SpansTile(cfg: Config, text: string)
    requires cfg.overlapSize >= 0
    ensures Tiles(SplitSpec(cfg, text), |text|)
    ensures SplitSpec(cfg, text) == [] <==> SplitIntoSentences(text) == []
  {
    FinalState(cfg, text);
    var sentences := SplitIntoSentences(text);
    if sentences != [] { FinishTiles(After(cfg, text, sentences, |sentences|), text); }
  }

  // Every sentence is whole in some chunk.
  lemma SentencesWhole(cfg: Config, text: string, j: nat)
    requires cfg.overlapSize >= 0 && j < |SplitIntoSentences(text)|
    ensures var chunks := SplitSpec(cfg, text);
            exists i :: 0 <= i < |chunks| && Contains(chunks[i].text, SplitIntoSentences(text)[j])
  {
    FinalState(cfg, text);
    var sentences := SplitIntoSentences(text);
    FinishCovers(After(cfg, text, sentences, |sentences|), text, sentences[j]);
  }

  // No chunk is empty, and none is longer than the larger of max_chunk_size + 1 and the overlap
  // plus one plus the longest sentence.
  lemma ChunksSized(cfg: Config, text: string)
    requires cfg.overlapSize >= 0
    ensures var chunks := SplitSpec(cfg, text);
            forall i :: 0 <= i < |chunks| ==> 0 < |chunks[i].text| <= Bound(cfg, Longest(SplitIntoSentences(text)))
  {
    FinalState(cfg, text);
  }

  // ---------- Where the spans really end ----------

  // No white space follows an end mark inside a sentence.
  ghost predicate Unbroken(s: string) {
    forall j :: 0 < j < |s| ==> !(EndsSentence(s[j - 1]) && IsPySpace(s[j]))
  }

  // The sentence at a place ends with an end mark, and white space follows it.
  ghost predicate Closed(text: string, s: string, at: nat) {
    s != "" && EndsSentence(s[|s| - 1]) && at + |s| < |text| && IsPySpace(text[at + |s|])
  }

  ghost predicate Shaped(text: string, sentences: seq<string>, at: seq<nat>, from: nat) {
    && |at| == |sentences|
    && (forall k :: 0 <= k < |sentences| ==> Unbroken(sentences[k]))
    && (forall k :: 0 <= k < |sentences| - 1 ==> Closed(text, sentences[k], at[k]))
    && (at != [] ==> forall j :: from <= j < at[0] && j < |text| ==> IsPySpace(text[j]))
  }

  ghost predicate NoBoundary(text: string, start: nat, i: nat)
    requires i <= |text|
  {
    forall j :: start < j < i ==> !(EndsSentence(text[j - 1]) && IsPySpace(text[j]))
  }

  lemma PieceUnbroken(text: string, start: nat, i: nat)
    requires start <= i <= |text| && NoBoundary(text, start, i)
    ensures Unbroken(PyStrip(text[start..i]))
  {
    var before, after := TrimSplits(text[start..i], IsPySpace);
    PartUnbroken(text, start, i, before, PyStrip(text[start..i]), after);
  }

  lemma PartUnbroken(text: string, start: nat, i: nat, before: string, s: string, after: string)
    requires start <= i <= |text| && NoBoundary(text, start, i) && text[start..i] == before + s + after
    ensures Unbroken(s)
  {
    var from := start + |before|;
    assert s == (before + s + after)[|before|..|before| + |s|];
    SliceOfSlice(text, start, i, |before|, |before| + |s|);
    assert s == text[from..from + |s|];
  }

  lemma LastPieceShaped(text: string, start: nat)
    requires start <= |text| && NoBoundary(text, start, |text|)
    ensures Shaped(text, Stripped([text[start..]]), PlaceOf(text, start, |text|), start)
  {
    var piece := text[start..|text|];
    assert piece == text[start..];
    assert Stripped([piece]) == if PyBlank(piece) then [] else [PyStrip(piece)];
    PieceUnbroken(text, start, |text|);
    if !PyBlank(piece) { PieceAt(text, start, |text|); }
  }

  lemma {:induction false} PiecesShaped(text: string, start: nat, i: nat)
    requires start <= i <= |text| && NoBoundary(text, start, i)
    requires start == 0 || IsPySpace(text[start - 1])
    ensures Shaped(text, Stripped(Pieces(text, start, i)), Places(text, start, i), start)
    decreases |text| - i
  {
    if i == |text| {
      LastPieceShaped(text, start);
    } else if i > 0 && EndsSentence(text[i - 1]) && IsPySpace(text[i]) {
      var next := SpaceEnd(text, i);
      PiecesShaped(text, next, next);
      OneMorePiece(text, start, i, Pieces(text, next, next), Places(text, next, next), next);
    } else {
      PiecesShaped(text, start, i + 1);
    }
  }

  lemma OneMorePiece(text: string, start: nat, i: nat, pieces: seq<string>, rest: seq<nat>, next: nat)
    requires start <= i < |text| && 0 < i <= next && Shaped(text, Stripped(pieces), rest, next)
    requires EndsSentence(text[i - 1]) && IsPySpace(text[i]) && NoBoundary(text, start, i)
    requires start == 0 || IsPySpace(text[start - 1])
    ensures Shaped(text, Stripped([text[start..i]] + pieces), PlaceOf(text, start, i) + rest, start)
  {
    assert start < i && text[start..i][i - 1 - start] == text[i - 1];
    PieceAt(text, start, i);
    PieceUnbroken(text, start, i);
    var s, at := PyStrip(text[start..i]), PlaceOf(text, start, i)[0];
    assert s[|s| - 1] == text[at..][..|s|][|s| - 1] == text[i - 1];
    OneMoreShaped(text, s, at, Stripped(pieces), rest, start, next);
    assert ([text[start..i]] + pieces)[1..] == pieces;
  }

  lemma OneMoreShaped(text: string, s: string, place: nat, sentences: seq<string>, at: seq<nat>, from: nat, next: nat)
    requires Unbroken(s) && Closed(text, s, place) && Shaped(text, sentences, at, next)
    requires forall j :: from <= j < place && j < |text| ==> IsPySpace(text[j])
    ensures Shaped(text, [s] + sentences, [place] + at, from)
  {
  }

  // The current chunk after k sentences; it does not depend on where they are.
  ghost function Packed(cfg: Config, sentences: seq<string>, k: nat): string
    requires cfg.overlapSize >= 0 && k <= |sentences|
  {
    if k == 0 then "" else Grown(cfg, Packed(cfg, sentences, k - 1), sentences[k - 1])
  }

  ghost function Grown(cfg: Config, current: string, sentence: string): (grown: string)
    requires cfg.overlapSize >= 0
    ensures grown != ""
  {
    (if Flushes(cfg, current, sentence) then current[Max(0, |current| - cfg.overlapSize)..] else current)
     + (" " + sentence)
  }

  lemma TakeGrows(cfg: Config, text: string, acc: Acc, sentence: string)
    requires cfg.overlapSize >= 0
    ensures Take(cfg, text, acc, sentence).current == Grown(cfg, acc.current, sentence)
  {
  }

  // The sentences that open the chunks made of the first k sentences, the one being built included.
  ghost function Openers(cfg: Config, sentences: seq<string>, k: nat): seq<nat>
    requires cfg.overlapSize >= 0 && 1 <= k <= |sentences|
  {
    if k == 1 then [0]
    else if Flushes(cfg, Packed(cfg, sentences, k - 1), sentences[k - 1]) then Openers(cfg, sentences, k - 1) + [k - 1]
    else Openers(cfg, sentences, k - 1)
  }

  ghost predicate Increasing(opens: seq<nat>, k: nat) {
    && opens != [] && opens[0] == 0 && opens[|opens| - 1] < k
    && forall i, j :: 0 <= i < j < |opens| ==> opens[i] < opens[j]
  }

  // Starts of the finished chunks and of the current one.
  ghost function Starts(acc: Acc): (r: seq<int>)
    ensures |r| == |acc.chunks| + 1
  {
    seq(|acc.chunks| + 1, j requires 0 <= j <= |acc.chunks| =>
       if j < |acc.chunks| then acc.chunks[j].startChar else acc.start)
  }

  // Every chunk starts where its opening sentence is first found from the start of the chunk before.
  ghost predicate Chained(text: string, sentences: seq<string>, opens: seq<nat>, starts: seq<int>) {
    && |opens| == |starts| && (forall j :: 0 <= j < |opens| ==> opens[j] < |sentences|)
    && (opens != [] ==> starts[0] == Find(text, sentences[opens[0]], 0))
    && forall j :: 0 < j < |opens| ==> starts[j] == Find(text, sentences[opens[j]], starts[j - 1])
  }

  lemma {:induction false} PackedIs(cfg: Config, text: string, sentences: seq<string>, k: nat)
    requires cfg.overlapSize >= 0 && k <= |sentences|
    ensures After(cfg, text, sentences, k).current == Packed(cfg, sentences, k)
    ensures k > 0 ==> Packed(cfg, sentences, k) != ""
  {
    if k > 0 {
      var acc := After(cfg, text, sentences, k - 1);
      PackedIs(cfg, text, sentences, k - 1);
      AfterStep(cfg, text, sentences, k - 1, acc);
      TakeGrows(cfg, text, acc, sentences[k - 1]);
    }
  }

  lemma StartsAfter(cfg: Config, text: string, acc: Acc, sentence: string)
    requires cfg.overlapSize >= 0 && acc.current != ""
    ensures Starts(Take(cfg, text, acc, sentence))
            == Starts(acc) + if Flushes(cfg, acc.current, sentence) then [Find(text, sentence, acc.start)] else []
  {
  }

  lemma ChainStep(text: string, sentences: seq<string>, opens: seq<nat>, starts: seq<int>, k: nat, flushes: bool)
    requires Chained(text, sentences, opens, starts) && Increasing(opens, k) && k < |sentences|
    ensures var found := Find(text, sentences[k], starts[|starts| - 1]);
            Chained(text, sentences, opens + (if flushes then [k] else []), starts + (if flushes then [found] else []))
    ensures Increasing(opens + (if flushes then [k] else []), k + 1)
  {
    if !flushes { assert opens + [] == opens && starts + [] == starts; }
  }

  lemma OpenersStep(cfg: Config, sentences: seq<string>, k: nat)
    requires cfg.overlapSize >= 0 && 1 <= k < |sentences|
    ensures Openers(cfg, sentences, k + 1)
            == Openers(cfg, sentences, k) + if Flushes(cfg, Packed(cfg, sentences, k), sentences[k]) then [k] else []
  {
  }

  lemma FirstChained(cfg: Config, text: string, sentences: seq<string>)
    requires cfg.overlapSize >= 0 && sentences != []
    ensures Chained(text, sentences, Openers(cfg, sentences, 1), Starts(After(cfg, text, sentences, 1)))
    ensures Increasing(Openers(cfg, sentences, 1), 1)
  {
    var start := Acc([], "", 0);
    assert After(cfg, text, sentences, 0) == start;
    AfterStep(cfg, text, sentences, 0, start);
  }

  lemma {:induction false} StartsChained(cfg: Config, text: string, sentences: seq<string>, k: nat)
    requires cfg.overlapSize >= 0 && 1 <= k <= |sentences|
    ensures Chained(text, sentences, Openers(cfg, sentences, k), Starts(After(cfg, text, sentences, k)))
    ensures Increasing(Openers(cfg, sentences, k), k)
  {
    if k == 1 {
      FirstChained(cfg, text, sentences);
    } else {
      var i := k - 1;
      var acc := After(cfg, text, sentences, i);
      StartsChained(cfg, text, sentences, i);
      PackedIs(cfg, text, sentences, i);
      AfterStep(cfg, text, sentences, i, acc);
      StartsAfter(cfg, text, acc, sentences[i]);
      OpenersStep(cfg, sentences, i);
      ChainStep(text, sentences, Openers(cfg, sentences, i), Starts(acc), i, Flushes(cfg, acc.current, sentences[i]));
    }
  }

  // s occurs nowhere from `from` up to its place.
  ghost predicate NotBefore(text: string, s: string, from: int, place: nat) {
    forall i :: from <= i < place && 0 <= i <= |text| ==> !StartsWith(text[i..], s)
  }

  lemma FindIsPlace(text: string, s: string, from: int, place: nat)
    requires from <= place <= |text| && StartsWith(text[place..], s)
    ensures Find(text, s, from) == place <==> NotBefore(text, s, from, place)
  {
  }

  lemma FirstPlace(text: string, s: string, place: nat)
    requires Tight(s) && place <= |text| && StartsWith(text[place..], s)
    requires forall j :: 0 <= j < place ==> IsPySpace(text[j])
    ensures Find(text, s, 0) == place
  {
    forall i | 0 <= i < place
      ensures !StartsWith(text[i..], s)
    {
      assert IsPySpace(text[i]) && text[i..][0] == text[i];
      PrefixChars(text[i..], s);
    }
  }

  // Opening sentence number j does not occur between the place of the one before and its own.
  ghost predicate OpenerIsNew(text: string, sentences: seq<string>, at: seq<nat>, opens: seq<nat>, j: nat)
    requires 0 < j < |opens| && |at| == |sentences| && forall i :: 0 <= i < |opens| ==> opens[i] < |sentences|
  {
    NotBefore(text, sentences[opens[j]], at[opens[j - 1]], at[opens[j]])
  }

  lemma OneMoreTrueIff(text: string, sentences: seq<string>, at: seq<nat>, opens: seq<nat>, starts: seq<int>, j: nat)
    requires Placed(text, sentences, at, 0) && Chained(text, sentences, opens, starts) && Increasing(opens, |sentences|)
    requires 0 < j < |opens| && starts[j - 1] == at[opens[j - 1]]
    ensures starts[j] == at[opens[j]] <==> OpenerIsNew(text, sentences, at, opens, j)
  {
    var o, k := opens[j - 1], opens[j];
    PlacesRise(text, sentences, at, o, k);
    assert StartsWith(text[at[k]..], sentences[k]);
    FindIsPlace(text, sentences[k], at[o], at[k]);
  }

  lemma {:induction false} NewIsTrue(text: string, sentences: seq<string>, at: seq<nat>, opens: seq<nat>,
                                     starts: seq<int>, j: nat)
    requires Placed(text, sentences, at, 0) && Chained(text, sentences, opens, starts) && Increasing(opens, |sentences|)
    requires starts[0] == at[0] && forall i :: 0 < i < |opens| ==> OpenerIsNew(text, sentences, at, opens, i)
    requires j < |opens|
    ensures starts[j] == at[opens[j]]
  {
    if j > 0 {
      NewIsTrue(text, sentences, at, opens, starts, j - 1);
      OneMoreTrueIff(text, sentences, at, opens, starts, j);
    }
  }

  lemma AllTrueIff(text: string, sentences: seq<string>, at: seq<nat>, opens: seq<nat>, starts: seq<int>)
    requires Placed(text, sentences, at, 0) && Chained(text, sentences, opens, starts) && Increasing(opens, |sentences|)
    requires starts[0] == at[0]
    ensures (forall j :: 0 <= j < |opens| ==> starts[j] == at[opens[j]])
            <==> (forall j :: 0 < j < |opens| ==> OpenerIsNew(text, sentences, at, opens, j))
  {
    if forall j :: 0 < j < |opens| ==> OpenerIsNew(text, sentences, at, opens, j) {
      forall j | 0 <= j < |opens| ensures starts[j] == at[opens[j]] {
        NewIsTrue(text, sentences, at, opens, starts, j);
      }
    } else {
      var j :| 0 < j < |opens| && !OpenerIsNew(text, sentences, at, opens, j);
      if starts[j - 1] == at[opens[j - 1]] { OneMoreTrueIff(text, sentences, at, opens, starts, j); }
    }
  }

  lemma {:induction false} PlacesRise(text: string, sentences: seq<string>, at: seq<nat>, i: nat, k: nat)
    requires Placed(text, sentences, at, 0) && i <= k < |at|
    ensures at[i] <= at[k]
  {
    if i < k { PlacesRise(text, sentences, at, i, k - 1); }
  }

  ghost function ChunkStarts(chunks: seq<Chunk>): (r: seq<int>)
    ensures |r| == |chunks| && forall j :: 0 <= j < |r| ==> r[j] == chunks[j].startChar
  {
    seq(|chunks|, j requires 0 <= j < |chunks| => chunks[j].startChar)
  }

  lemma PlacesOf(text: string)
    ensures var sentences, at := SplitIntoSentences(text), Places(text, 0, 0);
            && Placed(text, sentences, at, 0) && Shaped(text, sentences, at, 0)
            && forall k :: 0 <= k < |sentences| ==> Tight(sentences[k])
  {
    Locate(text, 0, 0);
    PiecesShaped(text, 0, 0);
    StrippedTight(Pieces(text, 0, 0));
  }

  lemma SpansChained(cfg: Config, text: string)
    requires cfg.overlapSize >= 0 && SplitIntoSentences(text) != []
    ensures var sentences, chunks := SplitIntoSentences(text), SplitSpec(cfg, text);
            var opens := Openers(cfg, sentences, |sentences|);
            Chained(text, sentences, opens, ChunkStarts(chunks)) && Increasing(opens, |sentences|)
  {
    var sentences := SplitIntoSentences(text);
    var acc := After(cfg, text, sentences, |sentences|);
    FinalIsFinish(cfg, text, sentences);
    StartsChained(cfg, text, sentences, |sentences|);
    FinishStarts(acc, text);
  }

  lemma FinalIsFinish(cfg: Config, text: string, sentences: seq<string>)
    requires cfg.overlapSize >= 0 && sentences == SplitIntoSentences(text) && sentences != []
    ensures SplitSpec(cfg, text) == Finish(After(cfg, text, sentences, |sentences|), text)
  {
    FinalState(cfg, text);
  }

  lemma FinishStarts(acc: Acc, text: string)
    ensures ChunkStarts(Finish(acc, text)) == Starts(acc)
  {
  }

  lemma FirstSpan(cfg: Config, text: string)
    requires cfg.overlapSize >= 0 && SplitIntoSentences(text) != []
    ensures SplitSpec(cfg, text) != [] && Places(text, 0, 0) != []
    ensures SplitSpec(cfg, text)[0].startChar == Places(text, 0, 0)[0]
  {
    PlacesOf(text);
    SpansChained(cfg, text);
    FirstPlace(text, SplitIntoSentences(text)[0], Places(text, 0, 0)[0]);
  }

  // The price of searching from the start of the chunk. Every chunk starts at the true place of the
  // sentence that opens it - and the one before ends there - exactly when no opening sentence occurs
  // between the place of the previous opening sentence and its own.
  lemma SpansTrueIff(cfg: Config, text: string)
    requires cfg.overlapSize >= 0 && SplitIntoSentences(text) != []
    ensures var sentences, at, chunks := SplitIntoSentences(text), Places(text, 0, 0), SplitSpec(cfg, text);
            var opens := Openers(cfg, sentences, |sentences|);
            && |at| == |sentences| && |chunks| == |opens| && Increasing(opens, |sentences|)
            && ((forall j :: 0 <= j < |chunks| ==> chunks[j].startChar == at[opens[j]])
                <==> (forall j :: 0 < j < |opens| ==> OpenerIsNew(text, sentences, at, opens, j)))
  {
    var sentences := SplitIntoSentences(text);
    PlacesOf(text);
    SpansChained(cfg, text);
    FirstSpan(cfg, text);
    AllTrueIff(text, sentences, Places(text, 0, 0), Openers(cfg, sentences, |sentences|),
               ChunkStarts(SplitSpec(cfg, text)));
  }

  lemma {:induction false} StartsLow(text: string, sentences: seq<string>, at: seq<nat>, opens: seq<nat>,
                                     starts: seq<int>, j: nat)
    requires Placed(text, sentences, at, 0) && Chained(text, sentences, opens, starts) && Increasing(opens, |sentences|)
    requires j < |opens|
    ensures 0 <= starts[j] <= at[opens[j]]
  {
    assert StartsWith(text[at[opens[j]]..], sentences[opens[j]]);
    if j > 0 {
      StartsLow(text, sentences, at, opens, starts, j - 1);
      PlacesRise(text, sentences, at, opens[j - 1], opens[j]);
    }
  }

  // One span: a chunk that another one follows ends where the next opening sentence is first found,
  // which is that sentence's true place exactly when it does not occur earlier in the chunk.
  lemma SpanEndsTrueIff(cfg: Config, text: string, j: nat)
    requires cfg.overlapSize >= 0 && SplitIntoSentences(text) != [] && j + 1 < |SplitSpec(cfg, text)|
    ensures var sentences, at, chunks := SplitIntoSentences(text), Places(text, 0, 0), SplitSpec(cfg, text);
            var opens := Openers(cfg, sentences, |sentences|);
            && |at| == |sentences| && j + 1 < |opens| && opens[j + 1] < |sentences|
            && (chunks[j].endChar == at[opens[j + 1]]
                <==> NotBefore(text, sentences[opens[j + 1]], chunks[j].startChar, at[opens[j + 1]]))
  {
    var sentences, at, chunks := SplitIntoSentences(text), Places(text, 0, 0), SplitSpec(cfg, text);
    PlacesOf(text);
    SpansChained(cfg, text);
    SpansTile(cfg, text);
    var opens, starts := Openers(cfg, sentences, |sentences|), ChunkStarts(chunks);
    assert chunks[j].endChar == starts[j + 1] == Find(text, sentences[opens[j + 1]], starts[j]);
    StartsLow(text, sentences, at, opens, starts, j);
    PlacesRise(text, sentences, at, opens[j], opens[j + 1]);
    FindIsPlace(text, sentences[opens[j + 1]], starts[j], at[opens[j + 1]]);
  }

  // A chunk that starts at its true place has an empty span, although its text is not empty, exactly
  // when the sentence that opens the next chunk is the beginning of the sentence that opens it.
  lemma EmptySpanIff(cfg: Config, text: string, j: nat)
    requires cfg.overlapSize >= 0 && SplitIntoSentences(text) != [] && j + 1 < |SplitSpec(cfg, text)|
    ensures var sentences, at, chunks := SplitIntoSentences(text), Places(text, 0, 0), SplitSpec(cfg, text);
            var opens := Openers(cfg, sentences, |sentences|);
            && |at| == |sentences| && j + 1 < |opens| && opens[j] < opens[j + 1] < |sentences|
            && (chunks[j].startChar == at[opens[j]] ==>
                  (chunks[j].startChar == chunks[j].endChar
                   <==> StartsWith(sentences[opens[j]], sentences[opens[j + 1]])))
  {
    var sentences, at, chunks := SplitIntoSentences(text), Places(text, 0, 0), SplitSpec(cfg, text);
    PlacesOf(text);
    SpansChained(cfg, text);
    SpansTile(cfg, text);
    var opens := Openers(cfg, sentences, |sentences|);
    assert chunks[j].endChar == ChunkStarts(chunks)[j + 1]
           == Find(text, sentences[opens[j + 1]], ChunkStarts(chunks)[j]);
    RepeatsOpening(text, sentences, at, opens[j], opens[j + 1]);
  }

  // A later sentence is found at a sentence's place exactly when it is a beginning of that sentence.
  lemma RepeatsOpening(text: string, sentences: seq<string>, at: seq<nat>, o: nat, k: nat)
    requires Placed(text, sentences, at, 0) && Shaped(text, sentences, at, 0) && o < k < |sentences|
    ensures StartsWith(text[at[o]..], sentences[k]) <==> StartsWith(sentences[o], sentences[k])
  {
    var a, s, here := sentences[o], sentences[k], text[at[o]..];
    assert Closed(text, a, at[o]) && Unbroken(s) && StartsWith(here, a);
    PrefixChars(here, a);
    PrefixChars(here, s);
    PrefixChars(a, s);
    assert here[|a|] == text[at[o] + |a|] && here[|a| - 1] == a[|a| - 1];
    assert |s| > |a| ==> !(EndsSentence(s[|a| - 1]) && IsPySpace(s[|a|]));
  }

  // ---------- A span that ends too early ----------

  lemma {:induction false} ScanTo(text: string, start: nat, i: nat, e: nat)
    requires start <= i <= e <= |text| && start < |text| && !IsPySpace(text[start]) && NoBoundary(text, start, e)
    ensures Pieces(text, start, i) == Pieces(text, start, e) && Places(text, start, i) == Places(text, start, e)
    decreases e - i
  {
    if i < e { ScanTo(text, start, i + 1, e); }
  }

  lemma TightPiece(text: string, start: nat, e: nat, rest: seq<string>)
    requires start < e <= |text| && !IsPySpace(text[start]) && !IsPySpace(text[e - 1])
    ensures Stripped([text[start..e]] + rest) == [text[start..e]] + Stripped(rest) && PlaceOf(text, start, e) == [start]
  {
    var piece := text[start..e];
    assert piece[0] == text[start] && piece[|piece| - 1] == text[e - 1];
    TrimOfTight(piece, IsPySpace);
    assert Lead(piece, IsPySpace) == 0 && ([piece] + rest)[1..] == rest;
  }

  lemma NextSentence(text: string, start: nat, e: nat)
    requires start < e && e + 1 < |text| && NoBoundary(text, start, e) && !IsPySpace(text[start])
    requires EndsSentence(text[e - 1]) && IsPySpace(text[e]) && !IsPySpace(text[e + 1])
    ensures Stripped(Pieces(text, start, start)) == [text[start..e]] + Stripped(Pieces(text, e + 1, e + 1))
    ensures Places(text, start, start) == [start] + Places(text, e + 1, e + 1)
  {
    ScanTo(text, start, start, e);
    assert SpaceEnd(text, e + 1) == e + 1 && SpaceEnd(text, e) == e + 1;
    TightPiece(text, start, e, Pieces(text, e + 1, e + 1));
  }

  lemma LastSentence(text: string, start: nat)
    requires start < |text| && NoBoundary(text, start, |text|)
             && !IsPySpace(text[start]) && !IsPySpace(text[|text| - 1])
    ensures Stripped(Pieces(text, start, start)) == [text[start..]] && Places(text, start, start) == [start]
  {
    ScanTo(text, start, start, |text|);
    assert text[start..|text|] == text[start..] && [text[start..]] + [] == [text[start..]];
    TightPiece(text, start, |text|, []);
  }

  lemma FirstOfThree(text: string, first: string)
    requires text == "Ab cd. X. cd." && first == "Ab cd."
    ensures Stripped(Pieces(text, 0, 0)) == [first] + Stripped(Pieces(text, 7, 7))
    ensures Places(text, 0, 0) == [0] + Places(text, 7, 7)
  {
    NextSentence(text, 0, 6);
    assert text[0..6] == first;
  }

  lemma OtherTwo(text: string, second: string, third: string)
    requires text == "Ab cd. X. cd." && second == "X." && third == "cd."
    ensures Stripped(Pieces(text, 7, 7)) == [second, third] && Places(text, 7, 7) == [7, 10]
  {
    NextSentence(text, 7, 9);
    LastSentence(text, 10);
    assert text[7..9] == second && text[10..] == third;
    assert [second] + [third] == [second, third] && [7] + [10] == [7, 10];
  }

  lemma ThreeSentences(text: string, first: string, second: string, third: string)
    requires text == "Ab cd. X. cd." && first == "Ab cd." && second == "X." && third == "cd."
    ensures SplitIntoSentences(text) == [first, second, third] && Places(text, 0, 0) == [0, 7, 10]
  {
    FirstOfThree(text, first);
    OtherTwo(text, second, third);
    assert [first] + [second, third] == [first, second, third] && [0] + [7, 10] == [0, 7, 10];
  }

  lemma FoundEarly(text: string, first: string, third: string)
    requires text == "Ab cd. X. cd." && first == "Ab cd." && third == "cd."
    ensures Find(text, first, 0) == 0 && Find(text, third, 0) == 3
  {
    assert text[0..][..6] == first && text[3..][..3] == third;
    assert StartsWith(text[0..], first) && StartsWith(text[3..], third);
    var r := Find(text, third, 0);
    assert text[r..][0] == text[r] && text[r..][..3][0] == third[0];
  }

  lemma TwoTaken(cfg: Config, text: string, sentences: seq<string>)
    requires cfg == Config(12, 0) && |sentences| == 3 && sentences[0] == "Ab cd." && sentences[1] == "X."
    requires Find(text, sentences[0], 0) == 0
    ensures After(cfg, text, sentences, 2) == Acc([], " Ab cd. X.", 0)
  {
    assert After(cfg, text, sentences, 0) == Acc([], "", 0);
    assert "" + (" " + sentences[0]) == " Ab cd.";
    assert After(cfg, text, sentences, 1) == Acc([], " Ab cd.", 0);
    assert " Ab cd." + (" " + sentences[1]) == " Ab cd. X.";
  }

  lemma StripOne(s: string, t: string)
    requires s == " " + t && t != "" && !IsPySpace(t[0]) && !IsPySpace(t[|t| - 1])
    ensures PyStrip(s) == t
  {
    assert s[1..] == t && Lead(s, IsPySpace) == 1;
  }

  lemma ThirdTaken(cfg: Config, text: string, acc: Acc, kept: string, last: string)
    requires cfg == Config(12, 0) && acc == Acc([], " " + kept, 0) && kept == "Ab cd. X." && last == "cd."
    requires Find(text, last, 0) == 3
    ensures Take(cfg, text, acc, last) == Acc([Chunk(0, kept, 0, 3)], " " + last, 3)
  {
    StripOne(acc.current, kept);
    assert acc.current[Max(0, |acc.current|)..] == "" && "" + (" " + last) == " " + last;
  }

  lemma Finished(text: string, acc: Acc, last: string)
    requires acc.current == " " + last && last != "" && !IsPySpace(last[0]) && !IsPySpace(last[|last| - 1])
    ensures Finish(acc, text) == acc.chunks + [Chunk(|acc.chunks|, last, acc.start, |text|)] && !PyBlank(acc.current)
  {
    StripOne(acc.current, last);
  }

  lemma EarlyChunks(cfg: Config, text: string, sentences: seq<string>, kept: string, last: string)
    requires cfg == Config(12, 0) && |sentences| == 3 && kept == "Ab cd. X." && last == "cd." && sentences[2] == last
    requires After(cfg, text, sentences, 2) == Acc([], " " + kept, 0) && Find(text, last, 0) == 3
    ensures var acc := After(cfg, text, sentences, 3);
            !PyBlank(acc.current) && Finish(acc, text) == [Chunk(0, kept, 0, 3), Chunk(1, last, 3, |text|)]
  {
    var acc := Acc([], " " + kept, 0);
    AfterStep(cfg, text, sentences, 2, acc);
    ThirdTaken(cfg, text, acc, kept, last);
    Finished(text, After(cfg, text, sentences, 3), last);
  }

  // With chunks of at most 12 characters and no overlap, "Ab cd. X. cd." gives the chunk "Ab cd. X."
  // the span [0, 3): the third sentence, whose place is 10, is found inside the first.
  lemma EarlySpan(cfg: Config, text: string, kept: string, last: string)
    requires cfg == Config(12, 0) && text == "Ab cd. X. cd." && kept == "Ab cd. X." && last == "cd."
    ensures SplitSpec(cfg, text) == [Chunk(0, kept, 0, 3), Chunk(1, last, 3, 13)]
    ensures Places(text, 0, 0) == [0, 7, 10]
  {
    ThreeSentences(text, "Ab cd.", "X.", last);
    var sentences := SplitIntoSentences(text);
    FoundEarly(text, sentences[0], last);
    TwoTaken(cfg, text, sentences);
    assert " " + kept == " Ab cd. X.";
    EarlyChunks(cfg, text, sentences, kept, last);
  }
}
