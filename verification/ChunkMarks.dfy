// At which mark the chunker cuts. The recursion hands down the separators that are left; the same chunks
// come out when every piece of text is cut at the coarsest mark that occurs in it.
module ChunkMarks {
  import opened Text
  import opened Chunker

  // ---------- Reference: paragraphs, lines, sentences, words ----------

  // The coarsest mark in a text; none is "".
  function Mark(text: string): string {
    if Contains(text, "\n\n") then "\n\n"
    else if Contains(text, "\n") then "\n"
    else if Contains(text, "。") then "。"
    else if Contains(text, "！") then "！"
    else if Contains(text, "？") then "？"
    else if Contains(text, ".") then "."
    else if Contains(text, "!") then "!"
    else if Contains(text, "?") then "?"
    else if Contains(text, " ") then " "
    else ""
  }

  ghost function CutText(text: string, size: int, overlap: int): seq<string>
    requires 0 <= overlap < size
    decreases |text|, 1, 0
  {
    if |text| <= size then (if PyBlank(text) then [] else [text])
    else if Mark(text) == "" then NonBlank(Windows(text, size, overlap, 0))
    else
      PartsShorter(text, Mark(text));
      CutParts(Split(text, Mark(text)), Mark(text), "", |text|, size, overlap)
  }

  ghost predicate Shorter(parts: seq<string>, n: nat) {
    forall i :: 0 <= i < |parts| ==> |parts[i]| < n
  }

  // The parts packed into chunks; one that is too long is cut by itself, at its own coarsest mark.
  ghost function CutParts(parts: seq<string>, mark: string, current: string, n: nat, size: int, overlap: int):
      seq<string>
    requires 0 <= overlap < size && Shorter(parts, n)
    decreases n, 0, |parts|
  {
    if parts == [] then Flush(current)
    else
      var part, rest := parts[0], parts[1..];
      var candidate := Glue(current, mark) + part;
      if |candidate| <= size then CutParts(rest, mark, candidate, n, size, overlap)
      else if |part| > size then
        Flush(current) + CutText(part, size, overlap) + CutParts(rest, mark, current, n, size, overlap)
      else Flush(current) + CutParts(rest, mark, part, n, size, overlap)
  }

  // ---------- What the parts of a text contain ----------

  lemma ContainsAt(s: string, i: nat, needle: string)
    requires i <= |s| && StartsWith(s[i..], needle)
    ensures Contains(s, needle)
  {
  }

  lemma ContainsLonger(head: string, s: string, needle: string)
    requires Contains(s, needle)
    ensures Contains(head + s, needle)
  {
    var i :| 0 <= i <= |s| && StartsWith(s[i..], needle);
    assert (head + s)[|head| + i..] == s[i..];
    ContainsAt(head + s, |head| + i, needle);
  }

  lemma ContainsTrans(a: string, b: string, c: string)
    requires Contains(b, a) && Contains(c, b)
    ensures Contains(c, a)
  {
    var i :| 0 <= i <= |b| && StartsWith(b[i..], a);
    var j :| 0 <= j <= |c| && StartsWith(c[j..], b);
    assert c[j + i..] == c[j..][i..];
    assert c[j..][..|b|][i..i + |a|] == c[j + i..][..|a|];
    ContainsAt(c, j + i, a);
  }

  // One more character before a part that does not contain the separator.
  lemma LackMore(c: char, part: string, s: string, sep: string)
    requires sep != "" && s != "" && s[0] == c && StartsWith(s[1..], part)
    requires !Contains(part, sep) && !StartsWith(s, sep)
    ensures StartsWith(s, [c] + part) && !Contains([c] + part, sep)
  {
    var longer := [c] + part;
    assert s == [c] + s[1..] && longer == s[..|longer|];
    forall i | 0 <= i <= |longer|
      ensures !StartsWith(longer[i..], sep)
    {
      if i == 0 {
        assert longer[0..] == longer && (|sep| <= |longer| ==> longer[..|sep|] == s[..|sep|]);
      } else {
        assert longer[i..] == part[i - 1..];
      }
    }
  }

  ghost predicate NoneContains(parts: seq<string>, needle: string) {
    forall i :: 0 <= i < |parts| ==> !Contains(parts[i], needle)
  }

  // No part contains the separator it was cut at.
  lemma {:induction false} PartsLack(s: string, sep: string)
    requires sep != ""
    ensures StartsWith(s, Split(s, sep)[0]) && NoneContains(Split(s, sep), sep)
  {
    if |s| >= |sep| {
      if StartsWith(s, sep) {
        PartsLack(s[|sep|..], sep);
      } else {
        PartsLack(s[1..], sep);
        LackMore(s[0], Split(s[1..], sep)[0], s, sep);
      }
    }
  }

  ghost predicate AllWithin(parts: seq<string>, s: string) {
    forall i :: 0 <= i < |parts| ==> Contains(s, parts[i])
  }

  lemma WithinLonger(parts: seq<string>, head: string, s: string)
    requires AllWithin(parts, s)
    ensures AllWithin(parts, head + s)
  {
    forall i | 0 <= i < |parts|
      ensures Contains(head + s, parts[i])
    {
      ContainsLonger(head, s, parts[i]);
    }
  }

  lemma {:induction false} PartsWithin(s: string, sep: string)
    requires sep != ""
    ensures AllWithin(Split(s, sep), s)
  {
    assert s[0..] == s;
    if |s| < |sep| {
      ContainsAt(s, 0, s);
    } else if StartsWith(s, sep) {
      PartsWithin(s[|sep|..], sep);
      WithinLonger(Split(s[|sep|..], sep), s[..|sep|], s[|sep|..]);
      assert s == s[..|sep|] + s[|sep|..];
      ContainsAt(s, 0, "");
    } else {
      PartsWithin(s[1..], sep);
      WithinLonger(Split(s[1..], sep), s[..1], s[1..]);
      assert s == s[..1] + s[1..];
      PartsLack(s, sep);
      ContainsAt(s, 0, Split(s, sep)[0]);
    }
  }

  lemma ProperPart(s: string, part: string)
    requires Contains(s, part) && part != s
    ensures |part| < |s|
  {
    var j :| 0 <= j <= |s| && StartsWith(s[j..], part);
    assert s[j..][..|part|] == part && (j == 0 ==> s[j..] == s);
  }

  lemma PartsShorter(s: string, sep: string)
    requires sep != "" && Contains(s, sep)
    ensures Shorter(Split(s, sep), |s|)
  {
    var parts := Split(s, sep);
    PartsLack(s, sep);
    PartsWithin(s, sep);
    forall i | 0 <= i < |parts|
      ensures |parts[i]| < |s|
    {
      ProperPart(s, parts[i]);
    }
  }

  // What is missing in a text is missing in its parts.
  lemma PartsMiss(s: string, sep: string, needle: string)
    requires sep != "" && !Contains(s, needle)
    ensures NoneContains(Split(s, sep), needle)
  {
    var parts := Split(s, sep);
    PartsWithin(s, sep);
    forall i | 0 <= i < |parts|
      ensures !Contains(parts[i], needle)
    {
      if Contains(parts[i], needle) { ContainsTrans(needle, parts[i], s); }
    }
  }

  // ---------- The separators that are left ----------

  // The last separator cuts anywhere; the others are marks.
  const LAST := 9

  ghost predicate Misses(text: string, k: nat)
    requires k <= LAST
  {
    forall j :: 0 <= j < k ==> !Contains(text, SEPARATORS[j])
  }

  lemma Named()
    ensures SEPARATORS[0] == "\n\n" && SEPARATORS[1] == "\n" && SEPARATORS[2] == "。" && SEPARATORS[3] == "！"
    ensures SEPARATORS[4] == "？" && SEPARATORS[5] == "." && SEPARATORS[6] == "!" && SEPARATORS[7] == "?"
    ensures SEPARATORS[8] == " " && SEPARATORS[LAST] == ""
  {
  }

  // The marks named by the reference are the separators, in this order.
  lemma Ordered(text: string)
    ensures Mark(text)
            == if Contains(text, SEPARATORS[0]) then SEPARATORS[0]
               else if Contains(text, SEPARATORS[1]) then SEPARATORS[1]
               else if Contains(text, SEPARATORS[2]) then SEPARATORS[2]
               else if Contains(text, SEPARATORS[3]) then SEPARATORS[3]
               else if Contains(text, SEPARATORS[4]) then SEPARATORS[4]
               else if Contains(text, SEPARATORS[5]) then SEPARATORS[5]
               else if Contains(text, SEPARATORS[6]) then SEPARATORS[6]
               else if Contains(text, SEPARATORS[7]) then SEPARATORS[7]
               else if Contains(text, SEPARATORS[8]) then SEPARATORS[8]
               else SEPARATORS[LAST]
  {
    Named();
  }

  lemma MarkAt(text: string, k: nat)
    requires k < LAST && Misses(text, k) && Contains(text, SEPARATORS[k])
    ensures Mark(text) == SEPARATORS[k] && SEPARATORS[k] != ""
  {
    Ordered(text);
    Named();
  }

  lemma NoMark(text: string)
    requires Misses(text, LAST)
    ensures Mark(text) == "" && SEPARATORS[LAST] == ""
  {
    Ordered(text);
    Named();
  }

  ghost predicate AllMiss(parts: seq<string>, k: nat)
    requires k <= LAST
  {
    forall i :: 0 <= i < |parts| ==> Misses(parts[i], k)
  }

  lemma PartsMissMore(text: string, k: nat)
    requires k < LAST && Misses(text, k) && SEPARATORS[k] != ""
    ensures AllMiss(Split(text, SEPARATORS[k]), k + 1)
  {
    var parts := Split(text, SEPARATORS[k]);
    PartsLack(text, SEPARATORS[k]);
    forall i, j | 0 <= i < |parts| && 0 <= j < k + 1
      ensures !Contains(parts[i], SEPARATORS[j])
    {
      if j < k { PartsMiss(text, SEPARATORS[k], SEPARATORS[j]); }
    }
  }

  lemma {:induction false} RecIsCut(text: string, k: nat, size: int, overlap: int)
    requires 0 <= overlap < size && k <= LAST && Misses(text, k)
    ensures RecSplit(text, SEPARATORS[k..], size, overlap) == CutText(text, size, overlap)
    decreases LAST - k, 0
  {
    if |text| > size {
      if k == LAST {
        NoMark(text);
      } else {
        assert SEPARATORS[k..][1..] == SEPARATORS[k + 1..];
        if Contains(text, SEPARATORS[k]) {
          MarkAt(text, k);
          PartsShorter(text, SEPARATORS[k]);
          PartsMissMore(text, k);
          PackIsCut(Split(text, SEPARATORS[k]), k, "", |text|, size, overlap);
        } else {
          RecIsCut(text, k + 1, size, overlap);
        }
      }
    }
  }

  lemma {:induction false} PackIsCut(parts: seq<string>, k: nat, current: string, n: nat, size: int, overlap: int)
    requires 0 <= overlap < size && k < LAST && Shorter(parts, n) && AllMiss(parts, k + 1)
    ensures Pack(parts, SEPARATORS[k], current, SEPARATORS[k + 1..], size, overlap)
            == CutParts(parts, SEPARATORS[k], current, n, size, overlap)
    decreases LAST - k - 1, 1 + |parts|
  {
    if parts != [] {
      var part, rest := parts[0], parts[1..];
      var candidate := Glue(current, SEPARATORS[k]) + part;
      if |candidate| <= size {
        PackIsCut(rest, k, candidate, n, size, overlap);
      } else if |part| > size {
        RecIsCut(part, k + 1, size, overlap);
        PackIsCut(rest, k, current, n, size, overlap);
      } else {
        PackIsCut(rest, k, part, n, size, overlap);
      }
    }
  }

  // ---------- Where a text is cut ----------

  // The chunks before stripping are those of the reference, at every level of the recursion: a
  // paragraph break comes before a line break, then 。 ！ ？ and . ! ?, then a space, and a text
  // without any of them is cut into windows.
  lemma CoarsestFirst(text: string, size: int, overlap: int)
    requires 0 <= overlap < size
    ensures RecSplit(text, SEPARATORS, size, overlap) == CutText(text, size, overlap)
  {
    assert SEPARATORS[0..] == SEPARATORS;
    RecIsCut(text, 0, size, overlap);
  }

  lemma FirstNotBlank(chunks: seq<string>, c: string)
    requires c in chunks && !PyBlank(c)
    ensures Stripped(chunks) != []
  {
    var i :| 0 <= i < |chunks| && chunks[i] == c;
    StrippedKeeps(chunks, i);
  }

  lemma {:induction false} StrippedKeeps(chunks: seq<string>, i: nat)
    requires i < |chunks| && !PyBlank(chunks[i])
    ensures Stripped(chunks) != []
  {
    if i > 0 { StrippedKeeps(chunks[1..], i - 1); }
  }

  ghost predicate PartsFit(parts: seq<string>, size: int) {
    forall i :: 0 <= i < |parts| ==> 0 < |parts[i]| <= size
  }

  lemma {:induction false} CutIsPack(parts: seq<string>, mark: string, current: string, n: nat,
                                     size: int, overlap: int)
    requires 0 <= overlap < size && Shorter(parts, n) && PartsFit(parts, size)
    ensures CutParts(parts, mark, current, n, size, overlap) == Pack(parts, mark, current, [], size, overlap)
    decreases |parts|
  {
    if parts != [] {
      var part, rest := parts[0], parts[1..];
      var candidate := Glue(current, mark) + part;
      CutIsPack(rest, mark, if |candidate| <= size then candidate else part, n, size, overlap);
    }
  }

  // A text whose parts at its coarsest mark are not empty and fit is cut there and nowhere else: before
  // they are stripped the chunks rejoin with this mark, and no two neighbours would fit one chunk.
  lemma CutAtMark(text: string, size: int, overlap: int)
    requires 0 <= overlap < size < |PyStrip(text)|
    requires Mark(PyStrip(text)) != "" && PartsFit(Split(PyStrip(text), Mark(PyStrip(text))), size)
    ensures var t := PyStrip(text); var raw := CutText(t, size, overlap);
            && SplitSpec(text, size, overlap) == Stripped(raw)
            && Join(raw, Mark(t)) == t && Tight(raw, Mark(t), size)
  {
    var t := PyStrip(text);
    var parts := Split(t, Mark(t));
    CoarsestFirst(t, size, overlap);
    PartsShorter(t, Mark(t));
    CutIsPack(parts, Mark(t), "", |t|, size, overlap);
    PackRejoins(parts, Mark(t), "", [], size, overlap);
    assert Held("", parts) == parts;
    JoinSplit(t, Mark(t));
    OpeningKept(CutText(t, size, overlap), parts[0], t, Mark(t));
  }

  lemma OpeningKept(raw: seq<string>, opening: string, t: string, mark: string)
    requires raw != [] && opening != "" && StartsWith(raw[0], opening) && Join(raw, mark) == t
    requires t != "" && !IsPySpace(t[0])
    ensures Stripped(raw) != []
  {
    assert raw[0][0] == t[0];
    FirstNotBlank(raw, raw[0]);
  }

  // A text without any mark is cut into windows.
  lemma CutAnywhere(text: string, size: int, overlap: int)
    requires 0 <= overlap < size < |PyStrip(text)| && Mark(PyStrip(text)) == ""
    ensures SplitSpec(text, size, overlap) == Stripped(NonBlank(Windows(PyStrip(text), size, overlap, 0)))
  {
    var t := PyStrip(text);
    CoarsestFirst(t, size, overlap);
    assert t[0..size][0] == t[0];
    FirstNotBlank(NonBlank(Windows(t, size, overlap, 0)), t[0..size]);
  }
}
