// Recursive text chunker of the knowledge pipeline: split at the first separator that occurs,
// pack the parts greedily, recurse on a part that is too long, and cut overlapping windows of
// fixed size when the separators run out.
module Chunker {
  import opened Text

  const SEPARATORS: seq<string> := ["\n\n", "\n", "。", "！", "？", ".", "!", "?", " ", ""]

  // ---------- Specification ----------

  ghost function NonBlank(chunks: seq<string>): seq<string> {
    if chunks == [] then []
    else if PyBlank(chunks[0]) then NonBlank(chunks[1..])
    else [chunks[0]] + NonBlank(chunks[1..])
  }

  // The windows text[start : start + size], each starting size - overlap after the one before.
  ghost function Windows(text: string, size: int, overlap: int, start: nat): seq<string>
    requires 0 <= overlap < size
    decreases |text| - start
  {
    if start >= |text| then []
    else [text[start..Min(start + size, |text|)]] + Windows(text, size, overlap, start + size - overlap)
  }

  ghost function RecSplit(text: string, separators: seq<string>, size: int, overlap: int): seq<string>
    requires 0 <= overlap < size
    decreases |separators|, 0
  {
    if |text| <= size then (if PyBlank(text) then [] else [text])
    else if separators == [] || separators[0] == "" then NonBlank(Windows(text, size, overlap, 0))
    else if Contains(text, separators[0]) then
      Pack(Split(text, separators[0]), separators[0], "", separators[1..], size, overlap)
    else RecSplit(text, separators[1..], size, overlap)
  }

  ghost function Glue(current: string, sep: string): string {
    if current == "" then "" else current + sep
  }

  ghost function Flush(current: string): seq<string> {
    if current == "" then [] else [current]
  }

  // What the packing loop still emits when parts are left and current is held back. After an
  // oversized part has been split, current is still held although it was just emitted.
  ghost function Pack(parts: seq<string>, sep: string, current: string, deeper: seq<string>,
                      size: int, overlap: int): seq<string>
    requires 0 <= overlap < size
    decreases |deeper|, 1 + |parts|
  {
    if parts == [] then Flush(current)
    else
      var part, rest := parts[0], parts[1..];
      var candidate := Glue(current, sep) + part;
      if |candidate| <= size then Pack(rest, sep, candidate, deeper, size, overlap)
      else if |part| > size then
        Flush(current) + RecSplit(part, deeper, size, overlap) + Pack(rest, sep, current, deeper, size, overlap)
      else Flush(current) + Pack(rest, sep, part, deeper, size, overlap)
  }

  function Min(a: int, b: int): int {
    if a < b then a else b
  }

  ghost function SplitSpec(text: string, size: int, overlap: int): seq<string>
    requires 0 <= overlap < size
  {
    if PyBlank(text) then []
    else
      var t := PyStrip(text);
      var raw := RecSplit(t, SEPARATORS, size, overlap);
      var kept := Stripped(if raw == [] then [t[..Min(size, |t|)]] else raw);
      if kept == [] then [t[..Min(size, |t|)]] else kept
  }

  // ---------- The program ----------

  method SplitText(text: string, size: int, overlap: int) returns (chunks: seq<string>)
    requires 0 <= overlap < size
    ensures chunks == SplitSpec(text, size, overlap)
  {
    if text == "" || PyStrip(text) == "" {
      return [];
    }
    var stripped := PyStrip(text);
    var raw := RecursiveSplit(stripped, SEPARATORS, size, overlap);
    if raw == [] {
      raw := [stripped[..Min(size, |stripped|)]];
    }
    chunks := StripAll(raw);
    if chunks == [] {
      chunks := [stripped[..Min(size, |stripped|)]];
    }
  }

  // The comprehension [c.strip() for c in chunks if c.strip()].
  method StripAll(raw: seq<string>) returns (chunks: seq<string>)
    ensures chunks == Stripped(raw)
  {
    chunks := [];
    assert raw[0..] == raw;
    for i := 0 to |raw|
      invariant chunks + Stripped(raw[i..]) == Stripped(raw)
    {
      assert raw[i..][0] == raw[i] && raw[i..][1..] == raw[i + 1..];
      var stripped := PyStrip(raw[i]);
      if stripped != "" {
        chunks := chunks + [stripped];
      }
    }
    assert raw[|raw|..] == [];
  }

  method RecursiveSplit(text: string, separators: seq<string>, size: int, overlap: int)
    returns (chunks: seq<string>)
    requires 0 <= overlap < size
    ensures chunks == RecSplit(text, separators, size, overlap)
    decreases |separators|
  {
    if |text| <= size {
      if PyStrip(text) != "" {
        return [text];
      }
      return [];
    }
    for j := 0 to |separators|
      invariant RecSplit(text, separators, size, overlap) == RecSplit(text, separators[j..], size, overlap)
    {
      var sep := separators[j];
      if sep == "" {
        chunks := FixedSizeSplit(text, size, overlap);
        return;
      }
      assert separators[j..][1..] == separators[j + 1..];
      if Contains(text, sep) {
        var parts := Split(text, sep);
        var deeper := separators[j + 1..];
        var current := "";
        chunks := [];
        for i := 0 to |parts|
          invariant chunks + Pack(parts[i..], sep, current, deeper, size, overlap)
                    == RecSplit(text, separators, size, overlap)
        {
          var part := parts[i];
          var candidate := if current != "" then current + sep + part else part;
          assert candidate == Glue(current, sep) + part;
          assert parts[i..][1..] == parts[i + 1..];
          if |candidate| <= size {
            current := candidate;
          } else {
            if current != "" {
              chunks := chunks + [current];
            }
            if |part| > size {
              var sub := RecursiveSplit(part, deeper, size, overlap);
              chunks := chunks + sub;
            } else {
              current := part;
            }
          }
        }
        if current != "" {
          chunks := chunks + [current];
        }
        return;
      }
    }
    chunks := FixedSizeSplit(text, size, overlap);
  }

  method FixedSizeSplit(text: string, size: int, overlap: int) returns (kept: seq<string>)
    requires 0 <= overlap < size
    ensures kept == NonBlank(Windows(text, size, overlap, 0))
  {
    var chunks: seq<string> := [];
    var start: int := 0;
    while start < |text|
      invariant 0 <= start
      invariant chunks + Windows(text, size, overlap, start) == Windows(text, size, overlap, 0)
      decreases |text| - start
    {
      var end := start + size;
      chunks := chunks + [text[start..Min(end, |text|)]];
      start := end - overlap;
      if start >= |text| {
        break;
      }
    }
    assert start >= |text|;
    assert chunks == Windows(text, size, overlap, 0) by {
      assert Windows(text, size, overlap, start) == [];
    }
    kept := DropBlank(chunks);
  }

  // The comprehension [c for c in chunks if c.strip()].
  method DropBlank(chunks: seq<string>) returns (kept: seq<string>)
    ensures kept == NonBlank(chunks)
  {
    kept := [];
    assert chunks[0..] == chunks;
    for i := 0 to |chunks|
      invariant kept + NonBlank(chunks[i..]) == NonBlank(chunks)
    {
      assert chunks[i..][0] == chunks[i] && chunks[i..][1..] == chunks[i + 1..];
      if PyStrip(chunks[i]) != "" {
        kept := kept + [chunks[i]];
      }
    }
    assert chunks[|chunks|..] == [];
  }

  // ---------- Subsequences ----------

  // a can be obtained from b by deleting characters.
  ghost predicate Subseq(a: string, b: string) {
    a == "" || (b != "" && (Subseq(a, b[1..]) || (a[0] == b[0] && Subseq(a[1..], b[1..]))))
  }

  lemma {:induction false} SubseqLonger(a: string, before: string, b: string)
    requires Subseq(a, b)
    ensures Subseq(a, before + b)
  {
    if before == "" {
      assert before + b == b;
    } else {
      SubseqLonger(a, before[1..], b);
      assert (before + b)[1..] == before[1..] + b;
    }
  }

  lemma {:induction false} SubseqConcat(a: string, b: string, c: string, d: string)
    requires Subseq(a, b) && Subseq(c, d)
    ensures Subseq(a + c, b + d)
    decreases |b|
  {
    if a == "" {
      assert a + c == c;
      SubseqLonger(c, b, d);
    } else if Subseq(a, b[1..]) {
      SubseqConcat(a, b[1..], c, d);
      assert (b + d)[1..] == b[1..] + d;
    } else {
      SubseqConcat(a[1..], b[1..], c, d);
      assert (a + c)[1..] == a[1..] + c && (b + d)[1..] == b[1..] + d;
    }
  }

  lemma {:induction false} SubseqRefl(a: string)
    ensures Subseq(a, a)
  {
    if a != "" { SubseqRefl(a[1..]); }
  }

  lemma {:induction false} SubseqTrans(a: string, b: string, c: string)
    requires Subseq(a, b) && Subseq(b, c)
    ensures Subseq(a, c)
    decreases |c|
  {
    if a == "" {
    } else if Subseq(b, c[1..]) {
      SubseqTrans(a, b, c[1..]);
    } else if Subseq(a, b[1..]) {
      SubseqTrans(a, b[1..], c[1..]);
    } else {
      SubseqTrans(a[1..], b[1..], c[1..]);
    }
  }

  // A slice of b, and in particular a prefix or a suffix, is a subsequence of b.
  lemma SubseqSlice(b: string, i: nat, j: nat)
    requires i <= j <= |b|
    ensures Subseq(b[i..j], b)
  {
    SubseqRefl(b[i..j]);
    SubseqLonger(b[i..j], b[..i], b[i..j]);
    SubseqConcat(b[i..j], b[..i] + b[i..j], "", b[j..]);
    assert b[i..j] + "" == b[i..j] && b[..i] + b[i..j] + b[j..] == b;
  }

  // ---------- What survives of the text ----------

  // Neither white space nor a character of a separator.
  predicate IsContent(c: char) {
    !IsPySpace(c) && c !in "。！？.!?"
  }

  ghost function Content(s: string): string {
    if s == "" then ""
    else if IsContent(s[0]) then [s[0]] + Content(s[1..])
    else Content(s[1..])
  }

  lemma {:induction false} ContentConcat(a: string, b: string)
    ensures Content(a + b) == Content(a) + Content(b)
  {
    if a == "" {
      assert a + b == b;
    } else {
      ContentConcat(a[1..], b);
      ContentCons(a, a[0], a[1..]);
      ContentCons(a + b, a[0], a[1..] + b);
    }
  }

  lemma ContentCons(s: string, c: char, rest: string)
    requires s == [c] + rest
    ensures Content(s) == (if IsContent(c) then [c] else []) + Content(rest)
  {
    assert s[1..] == rest;
  }

  ghost predicate Contentless(s: string) {
    forall i :: 0 <= i < |s| ==> !IsContent(s[i])
  }

  lemma {:induction false} NoContent(s: string)
    requires Contentless(s)
    ensures Content(s) == ""
  {
    if s != "" { NoContent(s[1..]); }
  }

  lemma {:induction false} ContentWithin(s: string)
    ensures Subseq(Content(s), s)
  {
    if s != "" {
      ContentWithin(s[1..]);
      if IsContent(s[0]) { assert Content(s)[1..] == Content(s[1..]); }
    }
  }

  lemma ContentOfStrip(s: string)
    ensures Content(PyStrip(s)) == Content(s)
  {
    var before, after := TrimSplits(s, IsPySpace);
    ContentConcat(before + PyStrip(s), after);
    ContentConcat(before, PyStrip(s));
    NoContent(before);
    NoContent(after);
  }

  ghost predicate Separating(separators: seq<string>) {
    forall i :: 0 <= i < |separators| ==> Contentless(separators[i])
  }

  lemma {:induction false} ContentOfParts(parts: seq<string>, sep: string)
    requires Contentless(sep)
    ensures Content(Join(parts, sep)) == Content(Flatten(parts))
  {
    if |parts| == 1 {
      assert parts[0] + "" == parts[0];
    } else if |parts| > 1 {
      ContentOfParts(parts[1..], sep);
      NoContent(sep);
      ContentConcat(parts[0] + sep, Join(parts[1..], sep));
      ContentConcat(parts[0], sep);
      ContentConcat(parts[0], Flatten(parts[1..]));
    }
  }

  lemma {:induction false} ContentOfNonBlank(chunks: seq<string>)
    ensures Content(Flatten(NonBlank(chunks))) == Content(Flatten(chunks))
  {
    if chunks != [] {
      ContentOfNonBlank(chunks[1..]);
      ContentConcat(chunks[0], Flatten(chunks[1..]));
      if PyBlank(chunks[0]) { NoContent(chunks[0]); }
      else { ContentConcat(chunks[0], Flatten(NonBlank(chunks[1..]))); }
    }
  }

  lemma {:induction false} ContentOfStripped(chunks: seq<string>)
    ensures Content(Flatten(Stripped(chunks))) == Content(Flatten(chunks))
  {
    if chunks != [] {
      ContentOfStripped(chunks[1..]);
      ContentConcat(chunks[0], Flatten(chunks[1..]));
      if PyBlank(chunks[0]) { NoContent(chunks[0]); }
      else {
        ContentOfStrip(chunks[0]);
        ContentConcat(PyStrip(chunks[0]), Flatten(Stripped(chunks[1..])));
      }
    }
  }

  // Window i starts i steps in, and there is one exactly while that is inside the text: neighbours
  // share `overlap` characters.
  lemma {:induction false} WindowAt(text: string, size: int, overlap: int, start: nat, i: nat, from: nat)
    requires 0 <= overlap < size && from == start + i * (size - overlap)
    ensures var windows := Windows(text, size, overlap, start);
            && (i < |windows| <==> from < |text|)
            && (i < |windows| ==> windows[i] == text[from..Min(from + size, |text|)])
    decreases i
  {
    FurtherIn(i, size - overlap);
    if start < |text| && i > 0 {
      WindowAt(text, size, overlap, start + size - overlap, i - 1, from);
    }
  }

  lemma FurtherIn(i: nat, step: nat)
    ensures i * step >= 0 && (i > 0 ==> i * step == step + (i - 1) * step)
  {
    if i > 0 { assert i * step == step + (i - 1) * step; }
  }

  // A window and the one after it, which starts inside it or where it ends.
  lemma WindowKeeps(text: string, start: nat, next: nat, end: nat, kept: string)
    requires start <= next <= end <= |text| && Subseq(Content(text[next..]), kept)
    ensures Subseq(Content(text[start..]), Content(text[start..end]) + kept)
  {
    var a := text[start..next];
    assert text[start..] == a + text[next..] && text[start..end] == a + text[next..end];
    ContentConcat(a, text[next..]);
    ContentConcat(a, text[next..end]);
    SubseqSlice(Content(text[start..end]), 0, |Content(a)|);
    SubseqConcat(Content(a), Content(text[start..end]), Content(text[next..]), kept);
  }

  lemma {:induction false} WindowsKeep(text: string, size: int, overlap: int, start: nat)
    requires 0 <= overlap < size
    ensures start <= |text| ==> Subseq(Content(text[start..]), Content(Flatten(Windows(text, size, overlap, start))))
    decreases |text| - start
  {
    if start < |text| {
      var end, next := Min(start + size, |text|), start + size - overlap;
      var rest := Windows(text, size, overlap, next);
      ContentConcat(text[start..end], Flatten(rest));
      if next >= |text| {
        SubseqRefl(Content(text[start..]));
        assert text[start..end] == text[start..] && Content(text[start..]) + "" == Content(text[start..]);
      } else {
        WindowsKeep(text, size, overlap, next);
        WindowKeeps(text, start, next, end, Content(Flatten(rest)));
      }
    }
  }

  lemma {:induction false} RecKeeps(text: string, separators: seq<string>, size: int, overlap: int)
    requires 0 <= overlap < size && Separating(separators)
    ensures Subseq(Content(text), Content(Flatten(RecSplit(text, separators, size, overlap))))
    decreases |separators|, 0
  {
    if |text| <= size {
      if PyBlank(text) { NoContent(text); }
      else {
        SubseqRefl(Content(text));
        assert text + "" == text;
      }
    } else if separators == [] || separators[0] == "" {
      WindowsKeep(text, size, overlap, 0);
      assert text[0..] == text;
      ContentOfNonBlank(Windows(text, size, overlap, 0));
    } else if Contains(text, separators[0]) {
      var sep, parts := separators[0], Split(text, separators[0]);
      PackKeeps(parts, sep, "", separators[1..], size, overlap);
      JoinSplit(text, sep);
      ContentOfParts(parts, sep);
      assert "" + Content(Flatten(parts)) == Content(Flatten(parts));
    } else {
      RecKeeps(text, separators[1..], size, overlap);
    }
  }

  lemma {:induction false} PackKeeps(parts: seq<string>, sep: string, current: string, deeper: seq<string>,
                                     size: int, overlap: int)
    requires 0 <= overlap < size && Separating(deeper) && Contentless(sep)
    ensures Subseq(Content(current) + Content(Flatten(parts)),
                   Content(Flatten(Pack(parts, sep, current, deeper, size, overlap))))
    decreases |deeper|, 1 + |parts|
  {
    if parts == [] {
      SubseqRefl(Content(current));
      assert current + "" == current && Content(current) + "" == Content(current);
    } else {
      var part, rest := parts[0], parts[1..];
      var candidate := Glue(current, sep) + part;
      if |candidate| <= size {
        PackKeeps(rest, sep, candidate, deeper, size, overlap);
        CandidateKeeps(current, sep, part, Flatten(rest));
      } else if |part| > size {
        RecKeeps(part, deeper, size, overlap);
        PackKeeps(rest, sep, current, deeper, size, overlap);
        SplitPartKeeps(current, part, Flatten(rest), RecSplit(part, deeper, size, overlap),
                       Pack(rest, sep, current, deeper, size, overlap));
      } else {
        PackKeeps(rest, sep, part, deeper, size, overlap);
        FlushKeeps(current, part, Flatten(rest), Pack(rest, sep, part, deeper, size, overlap));
      }
    }
  }

  lemma CandidateKeeps(current: string, sep: string, part: string, rest: string)
    requires Contentless(sep)
    ensures Content(current) + Content(part + rest) == Content(Glue(current, sep) + part) + Content(rest)
  {
    ContentConcat(part, rest);
    ContentOfCandidate(current, sep, part);
    Reassociate3(Content(current), Content(part), Content(rest));
  }

  lemma Reassociate3(a: string, b: string, c: string)
    ensures a + (b + c) == a + b + c
  {
  }

  lemma SplitPartKeeps(current: string, part: string, rest: string, sub: seq<string>, more: seq<string>)
    requires Subseq(Content(part), Content(Flatten(sub)))
    requires Subseq(Content(current) + Content(rest), Content(Flatten(more)))
    ensures Subseq(Content(current) + Content(part + rest), Content(Flatten(Flush(current) + sub + more)))
  {
    ContentConcat(part, rest);
    EmittedContent(current, sub, more);
    Weave(Content(current), Content(part), Content(rest), Content(Flatten(sub)), Content(Flatten(more)));
  }

  lemma EmittedContent(current: string, sub: seq<string>, more: seq<string>)
    ensures Content(Flatten(Flush(current) + sub + more))
            == Content(current) + (Content(Flatten(sub)) + Content(Flatten(more)))
  {
    assert Flush(current) + sub + more == Flush(current) + (sub + more);
    FlushContent(current, sub + more);
    FlattenConcat(sub, more);
    ContentConcat(Flatten(sub), Flatten(more));
  }

  lemma FlushKeeps(current: string, part: string, rest: string, more: seq<string>)
    requires Subseq(Content(part) + Content(rest), Content(Flatten(more)))
    ensures Subseq(Content(current) + Content(part + rest), Content(Flatten(Flush(current) + more)))
  {
    ContentConcat(part, rest);
    FlushContent(current, more);
    SubseqRefl(Content(current));
    SubseqConcat(Content(current), Content(current), Content(part) + Content(rest), Content(Flatten(more)));
  }

  lemma ContentOfCandidate(current: string, sep: string, part: string)
    requires Contentless(sep)
    ensures Content(Glue(current, sep) + part) == Content(current) + Content(part)
  {
    NoContent(sep);
    ContentConcat(current, sep);
    assert Content(current) + "" == Content(current);
    ContentConcat(Glue(current, sep), part);
  }

  lemma Weave(a: string, b: string, c: string, kb: string, kac: string)
    requires Subseq(b, kb) && Subseq(a + c, kac)
    ensures Subseq(a + (b + c), a + (kb + kac))
  {
    SubseqSlice(a + c, |a|, |a + c|);
    assert (a + c)[|a|..|a + c|] == c;
    SubseqTrans(c, a + c, kac);
    SubseqConcat(b, kb, c, kac);
    SubseqRefl(a);
    SubseqConcat(a, a, b + c, kb + kac);
  }

  lemma FlushContent(current: string, more: seq<string>)
    ensures Content(Flatten(Flush(current) + more)) == Content(current) + Content(Flatten(more))
  {
    FlattenConcat(Flush(current), more);
    ContentConcat(current, Flatten(more));
    assert current + "" == current;
  }

  lemma SeparatorsSeparate()
    ensures Separating(SEPARATORS)
  {
  }

  // Nothing is lost but white space and separators: what is left of the text without them can
  // be read off the concatenated chunks from left to right.
  lemma NothingLost(text: string, size: int, overlap: int)
    requires 0 <= overlap < size
    ensures Subseq(Content(text), Flatten(SplitSpec(text, size, overlap)))
  {
    if PyBlank(text) {
      NoContent(text);
    } else {
      var t := PyStrip(text);
      var raw := RecSplit(t, SEPARATORS, size, overlap);
      var out := SplitSpec(text, size, overlap);
      ContentOfStrip(text);
      SeparatorsSeparate();
      RecKeeps(t, SEPARATORS, size, overlap);
      ContentOfStripped(raw);
      if raw != [] && Stripped(raw) != [] {
        ContentWithin(Flatten(out));
        SubseqTrans(Content(text), Content(Flatten(out)), Flatten(out));
      }
    }
  }

  // ---------- Nothing is invented, and no chunk is too long ----------

  lemma {:induction false} WindowsWithin(text: string, size: int, overlap: int, start: nat)
    requires 0 <= overlap < size
    ensures forall c :: c in NonBlank(Windows(text, size, overlap, start)) ==>
              |c| <= size && !PyBlank(c) && Subseq(c, text)
    decreases |text| - start
  {
    if start < |text| {
      WindowsWithin(text, size, overlap, start + size - overlap);
      SubseqSlice(text, start, Min(start + size, |text|));
    }
  }

  lemma {:induction false} RecWithin(text: string, separators: seq<string>, size: int, overlap: int)
    requires 0 <= overlap < size
    ensures forall c :: c in RecSplit(text, separators, size, overlap) ==>
              c != "" && |c| <= size && Subseq(c, text)
    decreases |separators|, 0
  {
    if |text| <= size {
      SubseqRefl(text);
    } else if separators == [] || separators[0] == "" {
      WindowsWithin(text, size, overlap, 0);
    } else if Contains(text, separators[0]) {
      JoinSplit(text, separators[0]);
      assert "" + text == text;
      PackWithin("", Split(text, separators[0]), separators[0], "", separators[1..], text, size, overlap);
    } else {
      RecWithin(text, separators[1..], size, overlap);
    }
  }

  // `before` is the text up to the parts that are left. The held chunk is a subsequence of it
  // together with the separator that will be glued to it, even when the chunk is stale.
  ghost predicate Standing(before: string, parts: seq<string>, sep: string, current: string, text: string) {
    if parts == [] then Subseq(current, text)
    else text == before + Join(parts, sep) && Subseq(Glue(current, sep), before)
  }

  lemma {:induction false} PackWithin(before: string, parts: seq<string>, sep: string, current: string,
                                      deeper: seq<string>, text: string, size: int, overlap: int)
    requires 0 <= overlap < size && |current| <= size
    requires Standing(before, parts, sep, current, text)
    ensures forall c :: c in Pack(parts, sep, current, deeper, size, overlap) ==>
              c != "" && |c| <= size && Subseq(c, text)
    decreases |deeper|, 1 + |parts|
  {
    if parts != [] {
      var part, rest := parts[0], parts[1..];
      var candidate := Glue(current, sep) + part;
      var after := before + part + sep;
      Advance(before, parts, sep, current, text);
      if |candidate| <= size {
        PackWithin(after, rest, sep, candidate, deeper, text, size, overlap);
      } else if |part| > size {
        RecWithin(part, deeper, size, overlap);
        forall c | c in RecSplit(part, deeper, size, overlap)
          ensures Subseq(c, text)
        {
          SubseqTrans(c, part, text);
        }
        PackWithin(after, rest, sep, current, deeper, text, size, overlap);
      } else {
        PackWithin(after, rest, sep, part, deeper, text, size, overlap);
      }
    }
  }

  // Whatever the loop holds after one part - the candidate, the part, or the stale chunk - stands.
  lemma Advance(before: string, parts: seq<string>, sep: string, current: string, text: string)
    requires parts != [] && Standing(before, parts, sep, current, text)
    ensures Subseq(parts[0], text) && Subseq(current, text)
    ensures Standing(before + parts[0] + sep, parts[1..], sep, Glue(current, sep) + parts[0], text)
    ensures Standing(before + parts[0] + sep, parts[1..], sep, current, text)
    ensures Standing(before + parts[0] + sep, parts[1..], sep, parts[0], text)
  {
    var part, rest := parts[0], parts[1..];
    var after := if rest == [] then "" else sep + Join(rest, sep);
    assert text == before + part + after;
    PartFits(before, part, after, Glue(current, sep));
    HeldFits(current, sep, text);
    if rest != [] {
      Reassociate(before, part, sep, Join(rest, sep));
      NextFits(before, part, sep, Glue(current, sep));
    }
  }

  lemma Reassociate(a: string, b: string, c: string, d: string)
    ensures a + b + (c + d) == a + b + c + d
  {
  }

  lemma PartFits(before: string, part: string, after: string, glued: string)
    requires Subseq(glued, before)
    ensures Subseq(part, before + part + after)
    ensures Subseq(glued, before + part + after)
    ensures Subseq(glued + part, before + part + after)
  {
    var text := before + part + after;
    Infix(before, part, after);
    SubseqRefl(part);
    SubseqConcat(glued, before, part, part);
    SubseqConcat(glued + part, before + part, "", after);
    assert glued + part + "" == glued + part;
    SubseqConcat(glued, before, "", part + after);
    assert glued + "" == glued && before + (part + after) == text;
  }

  lemma HeldFits(current: string, sep: string, text: string)
    requires Subseq(Glue(current, sep), text)
    ensures Subseq(current, text)
  {
    if current != "" {
      Infix("", current, sep);
      assert "" + current + sep == current + sep;
      SubseqTrans(current, current + sep, text);
    }
  }

  lemma Infix(a: string, b: string, c: string)
    ensures Subseq(b, a + b + c)
  {
    SubseqSlice(a + b + c, |a|, |a + b|);
    assert (a + b + c)[|a|..|a + b|] == b;
  }

  lemma NextFits(before: string, part: string, sep: string, glued: string)
    requires Subseq(glued, before)
    ensures Subseq(Glue(glued + part, sep), before + part + sep)
    ensures Subseq(glued, before + part + sep)
    ensures Subseq(Glue(part, sep), before + part + sep)
  {
    SubseqRefl(part + sep);
    SubseqConcat(glued, before, part + sep, part + sep);
    assert before + (part + sep) == before + part + sep && glued + (part + sep) == glued + part + sep;
    Infix("", before, part + sep);
    assert "" + before + (part + sep) == before + part + sep;
    SubseqTrans(glued, before, before + part + sep);
    SubseqLonger(part + sep, before, part + sep);
  }

  lemma {:induction false} StrippedFrom(chunks: seq<string>, c: string) returns (source: string)
    requires c in Stripped(chunks)
    ensures source in chunks && c == PyStrip(source) && !PyBlank(source)
  {
    if !PyBlank(chunks[0]) && c == PyStrip(chunks[0]) {
      source := chunks[0];
    } else {
      source := StrippedFrom(chunks[1..], c);
    }
  }

  lemma StripIsSubseq(s: string)
    ensures Subseq(PyStrip(s), s)
  {
    var before, after := TrimSplits(s, IsPySpace);
    SubseqSlice(s, |before|, |before| + |PyStrip(s)|);
    assert s[|before|..|before| + |PyStrip(s)|] == PyStrip(s);
  }

  // Text that is not blank gives at least one chunk, and every chunk is non-blank, at most
  // chunk_size long and obtained from the text by deleting characters.
  lemma ChunksFit(text: string, size: int, overlap: int)
    requires 0 <= overlap < size
    ensures SplitSpec(text, size, overlap) == [] <==> PyBlank(text)
    ensures forall c :: c in SplitSpec(text, size, overlap) ==> |c| <= size && !PyBlank(c) && Subseq(c, text)
  {
    if !PyBlank(text) {
      var t := PyStrip(text);
      var prefix := t[..Min(size, |t|)];
      var raw := RecSplit(t, SEPARATORS, size, overlap);
      StripIsSubseq(text);
      RecWithin(t, SEPARATORS, size, overlap);
      SubseqSlice(t, 0, |prefix|);
      assert t[0..|prefix|] == prefix && !IsPySpace(prefix[0]);
      var source := if raw == [] then [prefix] else raw;
      forall c | c in SplitSpec(text, size, overlap)
        ensures |c| <= size && !PyBlank(c) && Subseq(c, text)
      {
        if c in Stripped(source) {
          var whole := StrippedFrom(source, c);
          assert !IsPySpace(c[0]);
          StripIsSubseq(whole);
          SubseqTrans(c, whole, t);
        }
        SubseqTrans(c, t, text);
      }
    }
  }

  // ---------- When the parts are well behaved the split can be undone ----------

  ghost function Held(current: string, parts: seq<string>): seq<string> {
    Flush(current) + parts
  }

  // Two neighbouring chunks could not have been one chunk.
  ghost predicate Tight(chunks: seq<string>, sep: string, size: int) {
    forall i :: 0 <= i < |chunks| - 1 ==> |chunks[i]| + |sep| + |chunks[i + 1]| > size
  }

  // Gluing the next part to the held chunk does not change what they join to.
  lemma HeldCandidate(current: string, part: string, rest: seq<string>, sep: string)
    requires part != ""
    ensures Join(Held(Glue(current, sep) + part, rest), sep) == Join(Held(current, [part] + rest), sep)
  {
    var candidate := Glue(current, sep) + part;
    assert Held(candidate, rest) == [candidate] + rest;
    if current == "" {
      assert candidate == part && Held(current, [part] + rest) == [part] + rest;
    } else {
      assert Held(current, [part] + rest)[1..] == [part] + rest;
      JoinPrefix(Glue(current, sep), part, rest, sep);
    }
  }

  lemma {:induction false} PackRejoins(parts: seq<string>, sep: string, current: string, deeper: seq<string>,
                                       size: int, overlap: int)
    requires 0 <= overlap < size
    requires forall i :: 0 <= i < |parts| ==> 0 < |parts[i]| <= size
    ensures var out := Pack(parts, sep, current, deeper, size, overlap);
            && Join(out, sep) == Join(Held(current, parts), sep)
            && (out == [] <==> current == "" && parts == [])
            && (current != "" ==> StartsWith(out[0], current))
            && (current == "" && parts != [] ==> StartsWith(out[0], parts[0]))
            && Tight(out, sep, size)
    decreases |parts|
  {
    if parts != [] {
      var part, rest := parts[0], parts[1..];
      var candidate := Glue(current, sep) + part;
      if |candidate| <= size {
        PackRejoins(rest, sep, candidate, deeper, size, overlap);
        HeldCandidate(current, part, rest, sep);
        assert [part] + rest == parts;
        assert current != "" ==> StartsWith(candidate, current);
      } else {
        var more := Pack(rest, sep, part, deeper, size, overlap);
        PackRejoins(rest, sep, part, deeper, size, overlap);
        assert current != "";
        assert Held(part, rest) == parts;
        assert ([current] + more)[1..] == more && Held(current, parts)[1..] == parts;
      }
    }
  }

  // If every part at the chosen separator is non-empty and fits, joining the chunks with that
  // separator gives the text back, and the packing is as tight as it can be.
  lemma RecRejoins(text: string, separators: seq<string>, k: nat, size: int, overlap: int)
    requires 0 <= overlap < size < |text| && k < |separators|
    requires forall j :: 0 <= j <= k ==> separators[j] != ""
    requires forall j :: 0 <= j < k ==> !Contains(text, separators[j])
    requires Contains(text, separators[k])
    requires forall part :: part in Split(text, separators[k]) ==> 0 < |part| <= size
    ensures Join(RecSplit(text, separators, size, overlap), separators[k]) == text
    ensures Tight(RecSplit(text, separators, size, overlap), separators[k], size)
  {
    if k == 0 {
      var parts := Split(text, separators[0]);
      PackRejoins(parts, separators[0], "", separators[1..], size, overlap);
      assert Held("", parts) == parts;
      JoinSplit(text, separators[0]);
    } else {
      RecRejoins(text, separators[1..], k - 1, size, overlap);
    }
  }
}
