// String operations that both halves of the system lean on: Python's and JavaScript's
// white space, trimming, splitting at a separator and joining again.
module Text {
  // str.isspace for one character, as str.strip and re's \s use it.
  predicate IsPySpace(c: char) {
    '\t' <= c <= '\r' || '\U{1C}' <= c <= ' ' || c == '\U{85}' || c == '\U{A0}'
    || c == '\U{1680}' || '\U{2000}' <= c <= '\U{200A}' || c == '\U{2028}' || c == '\U{2029}'
    || c == '\U{202F}' || c == '\U{205F}' || c == '\U{3000}'
  }

  // WhiteSpace and LineTerminator of ECMAScript, as String.prototype.trim uses them.
  predicate IsJsSpace(c: char) {
    '\t' <= c <= '\r' || c == ' ' || c == '\U{A0}' || c == '\U{FEFF}'
    || c == '\U{1680}' || '\U{2000}' <= c <= '\U{200A}' || c == '\U{2028}' || c == '\U{2029}'
    || c == '\U{202F}' || c == '\U{205F}' || c == '\U{3000}'
  }

  predicate Blank(s: string, space: char -> bool) {
    forall i :: 0 <= i < |s| ==> space(s[i])
  }

  // Index of the first character that is not white space, |s| when there is none.
  function Lead(s: string, space: char -> bool): (n: nat)
    ensures n <= |s| && (forall i :: 0 <= i < n ==> space(s[i])) && (n < |s| ==> !space(s[n]))
  {
    if s == "" || !space(s[0]) then 0 else 1 + Lead(s[1..], space)
  }

  // Index just after the last character that is not white space, 0 when there is none.
  function Trail(s: string, space: char -> bool): (n: nat)
    ensures n <= |s| && (forall i :: n <= i < |s| ==> space(s[i])) && (n > 0 ==> !space(s[n - 1]))
  {
    if s == "" || !space(s[|s| - 1]) then |s| else Trail(s[..|s| - 1], space)
  }

  function Trim(s: string, space: char -> bool): (t: string)
    ensures t == "" <==> Blank(s, space)
    ensures t != "" ==> !space(t[0]) && !space(t[|t| - 1])
    ensures |t| <= |s|
  {
    var a, b := Lead(s, space), Trail(s, space);
    if a == |s| then ""
    else
      assert !space(s[a]);
      s[a..b]
  }

  lemma TrimSplits(s: string, space: char -> bool) returns (before: string, after: string)
    ensures s == before + Trim(s, space) + after
    ensures Blank(before, space) && Blank(after, space)
  {
    var a, b := Lead(s, space), Trail(s, space);
    if a == |s| {
      before, after := s, "";
    } else {
      assert !space(s[a]);
      before, after := s[..a], s[b..];
    }
  }

  // str.strip(), and the test `not s.strip()`.
  function PyStrip(s: string): (t: string)
    ensures t == "" <==> PyBlank(s)
    ensures t != "" ==> !IsPySpace(t[0]) && !IsPySpace(t[|t| - 1])
    ensures |t| <= |s|
  {
    Trim(s, IsPySpace)
  }

  predicate PyBlank(s: string) {
    Blank(s, IsPySpace)
  }

  // [p.strip() for p in pieces if p.strip()].
  function Stripped(pieces: seq<string>): seq<string> {
    if pieces == [] then []
    else if PyBlank(pieces[0]) then Stripped(pieces[1..])
    else [PyStrip(pieces[0])] + Stripped(pieces[1..])
  }

  lemma TrimOfTight(s: string, space: char -> bool)
    requires s != "" ==> !space(s[0]) && !space(s[|s| - 1])
    ensures Trim(s, space) == s
  {
  }

  predicate StartsWith(s: string, prefix: string) {
    |prefix| <= |s| && s[..|prefix|] == prefix
  }

  lemma PrefixChars(s: string, prefix: string)
    ensures StartsWith(s, prefix) <==> |prefix| <= |s| && forall i :: 0 <= i < |prefix| ==> s[i] == prefix[i]
  {
  }

  predicate Contains(s: string, needle: string) {
    exists i :: 0 <= i <= |s| && StartsWith(s[i..], needle)
  }

  // text.find(needle, from): the first occurrence at or after `from`, or -1.
  function Find(text: string, needle: string, from: int): (r: int)
    ensures r == -1 || (from <= r && 0 <= r <= |text| && StartsWith(text[r..], needle))
    ensures forall i :: 0 <= i <= |text| && from <= i && StartsWith(text[i..], needle) ==> 0 <= r <= i
    decreases |text| - from
  {
    if from > |text| then -1
    else if from >= 0 && StartsWith(text[from..], needle) then from
    else Find(text, needle, from + 1)
  }

  // s.split(sep): scan for the leftmost separators that do not overlap.
  function Split(s: string, sep: string): (parts: seq<string>)
    requires sep != ""
    ensures |parts| > 0
  {
    if |s| < |sep| then [s]
    else if StartsWith(s, sep) then [""] + Split(s[|sep|..], sep)
    else Extend(s[0], Split(s[1..], sep))
  }

  // One more character at the front of the first part.
  function Extend(c: char, parts: seq<string>): (r: seq<string>)
    requires |parts| > 0
    ensures |r| == |parts|
  {
    [[c] + parts[0]] + parts[1..]
  }

  function Join(parts: seq<string>, sep: string): string {
    if parts == [] then ""
    else if |parts| == 1 then parts[0]
    else parts[0] + sep + Join(parts[1..], sep)
  }

  function Flatten(parts: seq<string>): string {
    if parts == [] then "" else parts[0] + Flatten(parts[1..])
  }

  lemma {:induction false} FlattenConcat(a: seq<string>, b: seq<string>)
    ensures Flatten(a + b) == Flatten(a) + Flatten(b)
  {
    if a == [] {
      assert a + b == b;
    } else {
      FlattenConcat(a[1..], b);
      assert (a + b)[1..] == a[1..] + b;
    }
  }

  // Prepending text to the first part prepends it to the joined string.
  lemma JoinPrefix(head: string, part: string, rest: seq<string>, sep: string)
    ensures Join([head + part] + rest, sep) == head + Join([part] + rest, sep)
  {
    assert ([head + part] + rest)[1..] == ([part] + rest)[1..] == rest;
  }

  lemma JoinEmpty(parts: seq<string>, sep: string)
    requires |parts| > 0
    ensures Join([""] + parts, sep) == sep + Join(parts, sep)
  {
    assert ([""] + parts)[1..] == parts;
  }

  lemma JoinExtend(c: char, parts: seq<string>, sep: string)
    requires |parts| > 0
    ensures Join(Extend(c, parts), sep) == [c] + Join(parts, sep)
  {
    JoinPrefix([c], parts[0], parts[1..], sep);
    assert [parts[0]] + parts[1..] == parts;
  }

  lemma {:induction false} JoinSplit(s: string, sep: string)
    requires sep != ""
    ensures Join(Split(s, sep), sep) == s
  {
    if |s| < |sep| {
    } else if StartsWith(s, sep) {
      JoinSplit(s[|sep|..], sep);
      JoinEmpty(Split(s[|sep|..], sep), sep);
      assert s == sep + s[|sep|..];
    } else {
      JoinSplit(s[1..], sep);
      JoinExtend(s[0], Split(s[1..], sep), sep);
      assert s == [s[0]] + s[1..];
    }
  }

  // One step of splitting at a single character.
  lemma SplitStep(s: string, sep: string)
    requires |sep| == 1 && s != ""
    ensures Split(s, sep) == if s[0] == sep[0] then [""] + Split(s[1..], sep) else Extend(s[0], Split(s[1..], sep))
  {
    assert s[..1] == [s[0]] && sep == [sep[0]];
  }

  // Cutting a ++ b at a one-character separator: the pieces of a, except that its last piece
  // goes on with b.
  lemma {:induction false} SplitConcat(a: string, b: string, sep: string)
    requires |sep| == 1
    ensures var pa := Split(a, sep); var last := |pa| - 1;
            Split(a + b, sep) == pa[..last] + Split(pa[last] + b, sep)
  {
    if a == "" {
      assert "" + b == b;
    } else {
      assert (a + b)[1..] == a[1..] + b;
      var rest := Split(a[1..], sep);
      SplitConcat(a[1..], b, sep);
      SplitStep(a, sep);
      SplitStep(a + b, sep);
      if a[0] == sep[0] {
        ConsLast("", rest, Split(rest[|rest| - 1] + b, sep));
      } else if |rest| == 1 {
        JoinSplit(a[1..], sep);
        assert a == [a[0]] + a[1..];
      } else {
        ExtendLast(a[0], rest, Split(rest[|rest| - 1] + b, sep));
      }
    }
  }

  lemma ConsLast(head: string, parts: seq<string>, more: seq<string>)
    requires |parts| > 0
    ensures var all := [head] + parts;
            && all[..|parts|] + more == [head] + (parts[..|parts| - 1] + more)
            && all[|parts|] == parts[|parts| - 1]
  {
    assert ([head] + parts)[..|parts|] == [head] + parts[..|parts| - 1];
  }

  lemma ExtendLast(c: char, parts: seq<string>, more: seq<string>)
    requires |parts| > 1
    ensures var last := |parts| - 1;
            && Extend(c, parts[..last] + more) == Extend(c, parts)[..last] + more
            && Extend(c, parts)[last] == parts[last]
  {
    ExtendConcat(c, parts[..|parts| - 1], more);
    assert Extend(c, parts)[..|parts| - 1] == Extend(c, parts[..|parts| - 1]);
  }

  lemma ExtendConcat(c: char, a: seq<string>, b: seq<string>)
    requires |a| > 0
    ensures Extend(c, a + b) == Extend(c, a) + b
  {
    assert (a + b)[1..] == a[1..] + b;
  }

  // A name without a colon, a colon, and the rest: the two parts can be read back.
  lemma {:induction false} ColonSplits(a: string, b: string, c: string, d: string)
    requires ':' !in a && ':' !in c
    ensures a + ":" + b == c + ":" + d <==> a == c && b == d
  {
    var s, t := a + ":" + b, c + ":" + d;
    if s == t {
      assert s[|a|] == ':' && t[|c|] == ':';
      if |a| == |c| {
        assert a == s[..|a|] && c == t[..|c|] && b == s[|a| + 1..] && d == t[|c| + 1..];
      }
    }
  }
}
