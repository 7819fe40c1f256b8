// The price of not clearing `current` in the chunker: which parts are emitted more than once.
module ChunkRepeats {
  import opened Chunker
  import opened Text

  // A chunk the packing loop emits, with the numbers of the parts it holds; a chunk that comes from
  // splitting an oversized part holds none.
  datatype Piece = Piece(text: string, holds: seq<nat>)

  // The chunk being built. Empty parts at its front leave no trace in it.
  datatype State = State(current: string, held: seq<nat>)

  ghost function Add(st: State, part: string, i: nat, sep: string, size: int): State {
    var candidate := Glue(st.current, sep) + part;
    if |candidate| <= size then State(candidate, if candidate == "" then [] else st.held + [i])
    else if |part| > size then st
    else State(part, if part == "" then [] else [i])
  }

  // The state of the loop before part number k.
  ghost function Before(parts: seq<string>, k: nat, sep: string, size: int): State
    requires k <= |parts|
  {
    if k == 0 then State("", []) else Add(Before(parts, k - 1, sep, size), parts[k - 1], k - 1, sep, size)
  }

  ghost function Emitted(st: State): seq<Piece> {
    if st.current == "" then [] else [Piece(st.current, st.held)]
  }

  ghost function Foreign(chunks: seq<string>): (r: seq<Piece>)
    ensures |r| == |chunks| && forall i :: 0 <= i < |r| ==> r[i] == Piece(chunks[i], [])
  {
    seq(|chunks|, i requires 0 <= i < |chunks| => Piece(chunks[i], []))
  }

  // How an oversized part is split.
  type Splitter = string -> seq<string>

  ghost function Deeper(separators: seq<string>, size: int, overlap: int): Splitter
    requires 0 <= overlap < size
  {
    (part: string) => RecSplit(part, separators, size, overlap)
  }

  // What the loop emits at part number i.
  ghost function EmittedAt(st: State, part: string, sep: string, size: int, split: Splitter): seq<Piece> {
    if |Glue(st.current, sep) + part| <= size then []
    else if |part| > size then Emitted(st) + Foreign(split(part))
    else Emitted(st)
  }

  // What the loop emits from part number i on.
  ghost function Trace(parts: seq<string>, i: nat, sep: string, size: int, split: Splitter): seq<Piece>
    requires i <= |parts|
    decreases |parts| - i
  {
    var st := Before(parts, i, sep, size);
    if i == |parts| then Emitted(st)
    else EmittedAt(st, parts[i], sep, size, split) + Trace(parts, i + 1, sep, size, split)
  }

  ghost function Texts(pieces: seq<Piece>): (r: seq<string>)
    ensures |r| == |pieces| && forall i :: 0 <= i < |r| ==> r[i] == pieces[i].text
  {
    seq(|pieces|, i requires 0 <= i < |pieces| => pieces[i].text)
  }

  // The trace is the packing.
  lemma {:induction false} TraceIsPack(parts: seq<string>, i: nat, rest: seq<string>, sep: string, deeper: seq<string>,
                                       size: int, overlap: int)
    requires 0 <= overlap < size && i <= |parts| && rest == parts[i..]
    ensures Texts(Trace(parts, i, sep, size, Deeper(deeper, size, overlap)))
            == Pack(rest, sep, Before(parts, i, sep, size).current, deeper, size, overlap)
    decreases |rest|
  {
    var st, split := Before(parts, i, sep, size), Deeper(deeper, size, overlap);
    if rest == [] {
      EmittedTexts(st);
    } else {
      TraceIsPack(parts, i + 1, rest[1..], sep, deeper, size, overlap);
      TraceUnfolds(parts, i, sep, size, split);
      PackAt(rest, st, Before(parts, i + 1, sep, size), i, sep, deeper, size, overlap,
             Trace(parts, i + 1, sep, size, split));
    }
  }

  lemma TraceUnfolds(parts: seq<string>, i: nat, sep: string, size: int, split: Splitter)
    requires i < |parts|
    ensures var st := Before(parts, i, sep, size);
            && Trace(parts, i, sep, size, split)
                  == EmittedAt(st, parts[i], sep, size, split) + Trace(parts, i + 1, sep, size, split)
            && Before(parts, i + 1, sep, size) == Add(st, parts[i], i, sep, size)
  {
  }

  lemma EmittedTexts(st: State)
    ensures Texts(Emitted(st)) == Flush(st.current)
  {
  }

  lemma TextsConcat(a: seq<Piece>, b: seq<Piece>)
    ensures Texts(a + b) == Texts(a) + Texts(b)
  {
  }

  lemma PackAt(parts: seq<string>, st: State, next: State, i: nat, sep: string, deeper: seq<string>,
               size: int, overlap: int, more: seq<Piece>)
    requires 0 <= overlap < size && parts != [] && next == Add(st, parts[0], i, sep, size)
    requires Texts(more) == Pack(parts[1..], sep, next.current, deeper, size, overlap)
    ensures Texts(EmittedAt(st, parts[0], sep, size, Deeper(deeper, size, overlap)) + more)
            == Pack(parts, sep, st.current, deeper, size, overlap)
  {
    var part := parts[0];
    var sub := RecSplit(part, deeper, size, overlap);
    EmittedTexts(st);
    assert Texts(Foreign(sub)) == sub;
    TextsConcat(Emitted(st), Foreign(sub));
    TextsConcat(EmittedAt(st, part, sep, size, Deeper(deeper, size, overlap)), more);
    assert [] + Texts(more) == Texts(more);
  }

  // Only earlier parts are held, some exactly while the chunk is not empty, and the first of them is
  // a part that fits and is not empty.
  ghost predicate HeldOk(st: State, parts: seq<string>, k: nat, size: int) {
    && k <= |parts| && (forall i :: 0 <= i < |st.held| ==> st.held[i] < k)
    && (st.held == [] <==> st.current == "") && (st.held != [] ==> 0 < |parts[st.held[0]]| <= size)
  }

  lemma AddHeld(st: State, parts: seq<string>, k: nat, sep: string, size: int)
    requires k < |parts| && HeldOk(st, parts, k, size)
    ensures HeldOk(Add(st, parts[k], k, sep, size), parts, k + 1, size)
  {
  }

  lemma {:induction false} BeforeHeld(parts: seq<string>, k: nat, sep: string, size: int)
    requires k <= |parts|
    ensures HeldOk(Before(parts, k, sep, size), parts, k, size)
  {
    if k > 0 {
      BeforeHeld(parts, k - 1, sep, size);
      AddHeld(Before(parts, k - 1, sep, size), parts, k - 1, sep, size);
    }
  }

  // The held parts, glued together one after the other.
  ghost function Glued(parts: seq<string>, held: seq<nat>, sep: string): string
    requires forall i :: 0 <= i < |held| ==> held[i] < |parts|
  {
    if held == [] then "" else Glue(Glued(parts, held[..|held| - 1], sep), sep) + parts[held[|held| - 1]]
  }

  lemma GluedMore(parts: seq<string>, held: seq<nat>, k: nat, sep: string)
    requires k < |parts| && forall i :: 0 <= i < |held| ==> held[i] < |parts|
    ensures Glued(parts, held + [k], sep) == Glue(Glued(parts, held, sep), sep) + parts[k]
  {
    assert (held + [k])[..|held|] == held;
  }

  ghost predicate GluedOk(st: State, parts: seq<string>, k: nat, sep: string, size: int) {
    HeldOk(st, parts, k, size) && st.current == Glued(parts, st.held, sep)
  }

  lemma AddGlued(st: State, next: State, parts: seq<string>, k: nat, sep: string, size: int)
    requires k < |parts| && GluedOk(st, parts, k, sep, size) && next == Add(st, parts[k], k, sep, size)
    ensures GluedOk(next, parts, k + 1, sep, size)
  {
    AddHeld(st, parts, k, sep, size);
    GluedMore(parts, st.held, k, sep);
    GluedMore(parts, [], k, sep);
    assert [] + [k] == [k];
  }

  lemma BeforeStep(parts: seq<string>, k: nat, sep: string, size: int)
    requires k < |parts|
    ensures Before(parts, k + 1, sep, size) == Add(Before(parts, k, sep, size), parts[k], k, sep, size)
  {
  }

  // The chunk being built is made of the parts it holds.
  lemma BeforeGlued(parts: seq<string>, k: nat, sep: string, size: int)
    requires k <= |parts|
    ensures GluedOk(Before(parts, k, sep, size), parts, k, sep, size)
  {
    var st := State("", []);
    for i := 0 to k
      invariant st == Before(parts, i, sep, size) && GluedOk(st, parts, i, sep, size)
    {
      var next := Add(st, parts[i], i, sep, size);
      AddGlued(st, next, parts, i, sep, size);
      BeforeStep(parts, i, sep, size);
      st := next;
    }
  }

  ghost predicate Honest(piece: Piece, parts: seq<string>, sep: string) {
    piece.holds != [] ==>
      (forall i :: 0 <= i < |piece.holds| ==> piece.holds[i] < |parts|) && piece.text == Glued(parts, piece.holds, sep)
  }

  lemma EmittedHonest(st: State, part: string, parts: seq<string>, sep: string, size: int, split: Splitter)
    requires (forall i :: 0 <= i < |st.held| ==> st.held[i] < |parts|) && st.current == Glued(parts, st.held, sep)
    ensures forall piece :: piece in Emitted(st) ==> Honest(piece, parts, sep)
    ensures forall piece :: piece in EmittedAt(st, part, sep, size, split) ==> Honest(piece, parts, sep)
  {
    assert forall piece :: piece in Foreign(split(part)) ==> piece.holds == [];
  }

  // An emitted chunk is made of the parts it is said to hold.
  lemma {:induction false} TraceHonest(parts: seq<string>, i: nat, sep: string, size: int, split: Splitter)
    requires i <= |parts|
    ensures forall piece :: piece in Trace(parts, i, sep, size, split) ==> Honest(piece, parts, sep)
    decreases |parts| - i
  {
    BeforeGlued(parts, i, sep, size);
    EmittedHonest(Before(parts, i, sep, size), if i < |parts| then parts[i] else "", parts, sep, size, split);
    if i < |parts| { TraceHonest(parts, i + 1, sep, size, split); }
  }

  // In how many emitted chunks a part is.
  ghost function Emissions(pieces: seq<Piece>, p: nat): nat {
    if pieces == [] then 0 else (if p in pieces[0].holds then 1 else 0) + Emissions(pieces[1..], p)
  }

  lemma {:induction false} EmissionsConcat(a: seq<Piece>, b: seq<Piece>, p: nat)
    ensures Emissions(a + b, p) == Emissions(a, p) + Emissions(b, p)
  {
    if a == [] {
      assert a + b == b;
    } else {
      assert (a + b)[1..] == a[1..] + b;
      EmissionsConcat(a[1..], b, p);
    }
  }

  lemma {:induction false} ForeignEmissions(pieces: seq<Piece>, p: nat)
    requires forall i :: 0 <= i < |pieces| ==> pieces[i].holds == []
    ensures Emissions(pieces, p) == 0
  {
    if pieces != [] { ForeignEmissions(pieces[1..], p); }
  }

  // The oversized parts, from number i on, that are met while part p is held.
  ghost function Met(parts: seq<string>, i: nat, p: nat, sep: string, size: int): set<nat> {
    set j | i <= j < |parts| && Meets(Before(parts, j, sep, size), parts[j], p, size)
  }

  lemma EmittedAtCount(st: State, part: string, sep: string, size: int, split: Splitter, p: nat)
    requires (st.held == [] <==> st.current == "")
    ensures Emissions(EmittedAt(st, part, sep, size, split), p)
            == if |Glue(st.current, sep) + part| > size && p in st.held then 1 else 0
  {
    var sub := Foreign(split(part));
    ForeignEmissions(sub, p);
    EmissionsConcat(Emitted(st), sub, p);
  }

  predicate Meets(st: State, part: string, p: nat, size: int) {
    |part| > size && p in st.held
  }

  lemma MetStep(parts: seq<string>, i: nat, p: nat, sep: string, size: int)
    requires i < |parts|
    ensures |Met(parts, i, p, sep, size)|
            == |Met(parts, i + 1, p, sep, size)|
               + if Meets(Before(parts, i, sep, size), parts[i], p, size) then 1 else 0
  {
    var here, later := Met(parts, i, p, sep, size), Met(parts, i + 1, p, sep, size);
    assert i !in later && here - {i} == later;
    assert i in here <==> Meets(Before(parts, i, sep, size), parts[i], p, size);
    if i in here { assert here == later + {i}; }
  }

  lemma HeldAfter(parts: seq<string>, i: nat, p: nat, sep: string, size: int)
    requires i < |parts| && p < |parts| && 0 < |parts[p]| <= size
    ensures var st, next := Before(parts, i, sep, size), Before(parts, i + 1, sep, size);
            && (i <= p ==> p !in st.held) && (i == p ==> p in next.held)
            && (i > p ==> (p in next.held <==>
                             p in st.held && (|Glue(st.current, sep) + parts[i]| <= size || |parts[i]| > size)))
  {
    BeforeHeld(parts, i, sep, size);
  }

  lemma TraceStep(parts: seq<string>, i: nat, p: nat, sep: string, size: int, split: Splitter)
    requires i < |parts|
    ensures var st := Before(parts, i, sep, size);
            Emissions(Trace(parts, i, sep, size, split), p)
            == Emissions(Trace(parts, i + 1, sep, size, split), p)
               + if |Glue(st.current, sep) + parts[i]| > size && p in st.held then 1 else 0
  {
    var st := Before(parts, i, sep, size);
    HeldIsCurrent(parts, i, sep, size);
    EmissionsConcat(EmittedAt(st, parts[i], sep, size, split), Trace(parts, i + 1, sep, size, split), p);
    EmittedAtCount(st, parts[i], sep, size, split, p);
  }

  lemma EmissionsAtEnd(parts: seq<string>, p: nat, sep: string, size: int, split: Splitter)
    requires p < |parts|
    ensures Emissions(Trace(parts, |parts|, sep, size, split), p)
            == (if p in Before(parts, |parts|, sep, size).held then 1 else 0) + |Met(parts, |parts|, p, sep, size)|
  {
    var st := Before(parts, |parts|, sep, size);
    HeldIsCurrent(parts, |parts|, sep, size);
    assert Met(parts, |parts|, p, sep, size) == {};
    assert Trace(parts, |parts|, sep, size, split) == Emitted(st);
    assert st.current != "" ==> Emitted(st)[1..] == [];
  }

  lemma HeldIsCurrent(parts: seq<string>, k: nat, sep: string, size: int)
    requires k <= |parts|
    ensures Before(parts, k, sep, size).held == [] <==> Before(parts, k, sep, size).current == ""
  {
    BeforeHeld(parts, k, sep, size);
  }

  lemma OneStepBack(parts: seq<string>, i: nat, p: nat, sep: string, size: int, count: nat, later: nat)
    requires i < |parts| && p < |parts| && 0 < |parts[p]| <= size
    requires later == (if i + 1 <= p || p in Before(parts, i + 1, sep, size).held then 1 else 0)
             + |Met(parts, i + 1, p, sep, size)|
    requires var st := Before(parts, i, sep, size);
             count == later + if |Glue(st.current, sep) + parts[i]| > size && p in st.held then 1 else 0
    ensures count == (if i <= p || p in Before(parts, i, sep, size).held then 1 else 0) + |Met(parts, i, p, sep, size)|
  {
    HeldAfter(parts, i, p, sep, size);
    MetStep(parts, i, p, sep, size);
  }

  // From part number i on: once for the chunk that p is or will be in, and once more for every
  // oversized part met while p is held.
  lemma {:induction false} EmissionsFrom(parts: seq<string>, i: nat, p: nat, sep: string, size: int, split: Splitter)
    requires i <= |parts| && p < |parts| && 0 < |parts[p]| <= size
    ensures Emissions(Trace(parts, i, sep, size, split), p)
            == (if i <= p || p in Before(parts, i, sep, size).held then 1 else 0) + |Met(parts, i, p, sep, size)|
    decreases |parts| - i
  {
    if i == |parts| {
      EmissionsAtEnd(parts, p, sep, size, split);
    } else {
      EmissionsFrom(parts, i + 1, p, sep, size, split);
      TraceStep(parts, i, p, sep, size, split);
      OneStepBack(parts, i, p, sep, size, Emissions(Trace(parts, i, sep, size, split), p),
                  Emissions(Trace(parts, i + 1, sep, size, split), p));
    }
  }

  // A non-empty part that fits is emitted once, and once more for every oversized part the loop
  // meets while it holds it.
  lemma EmittedOnceAndAgain(parts: seq<string>, p: nat, sep: string, size: int, split: Splitter)
    requires p < |parts| && 0 < |parts[p]| <= size
    ensures Emissions(Trace(parts, 0, sep, size, split), p) == 1 + |Met(parts, 0, p, sep, size)|
  {
    EmissionsFrom(parts, 0, p, sep, size, split);
  }

  ghost predicate Packable(parts: seq<string>, p: nat, size: int) {
    p < |parts| && 0 < |parts[p]| <= size
  }

  // An oversized part is reached while a chunk is held back.
  ghost predicate ReachedHolding(parts: seq<string>, j: nat, sep: string, size: int) {
    j < |parts| && |parts[j]| > size && Before(parts, j, sep, size).current != ""
  }

  // No part is emitted twice exactly when no oversized part is reached while a chunk is held back.
  lemma NoRepeatIff(parts: seq<string>, sep: string, size: int, split: Splitter)
    ensures var trace := Trace(parts, 0, sep, size, split);
            (forall p :: Packable(parts, p, size) ==> Emissions(trace, p) == 1)
            <==> !exists j :: ReachedHolding(parts, j, sep, size)
  {
    var trace := Trace(parts, 0, sep, size, split);
    if j :| ReachedHolding(parts, j, sep, size) {
      BeforeHeld(parts, j, sep, size);
      var p := Before(parts, j, sep, size).held[0];
      EmittedOnceAndAgain(parts, p, sep, size, split);
      assert j in Met(parts, 0, p, sep, size);
      assert Packable(parts, p, size) && Emissions(trace, p) != 1;
    } else {
      forall p | Packable(parts, p, size)
        ensures Emissions(trace, p) == 1
      {
        EmittedOnceAndAgain(parts, p, sep, size, split);
        forall j | j in Met(parts, 0, p, sep, size) ensures ReachedHolding(parts, j, sep, size) {
          BeforeHeld(parts, j, sep, size);
        }
        assert Met(parts, 0, p, sep, size) == {};
      }
    }
  }

  // When nothing is held: an empty part at the front, or one that no longer fits, clears `current`.
  lemma NothingHeldIff(parts: seq<string>, k: nat, sep: string, size: int)
    requires k < |parts| && size > 0
    ensures var current := Before(parts, k, sep, size).current;
            Before(parts, k + 1, sep, size).current == ""
            <==> || (current == "" && (parts[k] == "" || |parts[k]| > size))
                 || (parts[k] == "" && |current| + |sep| > size)
  {
  }

  lemma {:induction false} HoldingIff(parts: seq<string>, k: nat, sep: string, size: int)
    requires k <= |parts| && size > 0 && forall i :: 0 <= i < |parts| ==> parts[i] != ""
    ensures Before(parts, k, sep, size).current != "" <==> exists i :: 0 <= i < k && |parts[i]| <= size
  {
    if k > 0 {
      HoldingIff(parts, k - 1, sep, size);
      NothingHeldIff(parts, k - 1, sep, size);
    }
  }

  // The packing that the recursion does at the first separator that occurs.
  lemma {:induction false} RecIsPack(text: string, separators: seq<string>, k: nat, size: int, overlap: int)
    requires 0 <= overlap < size < |text| && k < |separators|
    requires forall j :: 0 <= j <= k ==> separators[j] != ""
    requires forall j :: 0 <= j < k ==> !Contains(text, separators[j])
    requires Contains(text, separators[k])
    ensures RecSplit(text, separators, size, overlap)
            == Pack(Split(text, separators[k]), separators[k], "", separators[k + 1..], size, overlap)
    decreases |separators|
  {
    if k > 0 {
      RecIsPack(text, separators[1..], k - 1, size, overlap);
      assert separators[1..][k..] == separators[k + 1..];
    }
  }

  ghost predicate NoneEmpty(parts: seq<string>) {
    forall i :: 0 <= i < |parts| ==> parts[i] != ""
  }

  ghost predicate FitsBeforeOversized(parts: seq<string>, size: int) {
    exists i, j :: 0 <= i < j < |parts| && |parts[i]| <= size < |parts[j]|
  }

  lemma TwiceIff(parts: seq<string>, sep: string, size: int, split: Splitter)
    requires size > 0 && NoneEmpty(parts)
    ensures (exists p :: Packable(parts, p, size) && Emissions(Trace(parts, 0, sep, size, split), p) >= 2)
            <==> FitsBeforeOversized(parts, size)
  {
    var trace := Trace(parts, 0, sep, size, split);
    NoRepeatIff(parts, sep, size, split);
    forall p | Packable(parts, p, size) ensures Emissions(trace, p) >= 1 {
      EmittedOnceAndAgain(parts, p, sep, size, split);
    }
    if i, j :| 0 <= i < j < |parts| && |parts[i]| <= size < |parts[j]| {
      HoldingIff(parts, j, sep, size);
      assert ReachedHolding(parts, j, sep, size);
    }
    if j :| ReachedHolding(parts, j, sep, size) {
      HoldingIff(parts, j, sep, size);
    }
  }

  // On a text: the chunks are those of the trace, and when no part at the chosen separator is empty,
  // some part is emitted twice exactly when a part that fits comes before one that does not.
  lemma RepeatsIff(text: string, separators: seq<string>, k: nat, size: int, overlap: int)
    requires 0 <= overlap < size < |text| && k < |separators|
    requires forall j :: 0 <= j <= k ==> separators[j] != ""
    requires forall j :: 0 <= j < k ==> !Contains(text, separators[j])
    requires Contains(text, separators[k])
    ensures var parts := Split(text, separators[k]);
            var trace := Trace(parts, 0, separators[k], size, Deeper(separators[k + 1..], size, overlap));
            && Texts(trace) == RecSplit(text, separators, size, overlap)
            && (NoneEmpty(parts) ==>
                  ((exists p :: Packable(parts, p, size) && Emissions(trace, p) >= 2)
                   <==> FitsBeforeOversized(parts, size)))
  {
    var parts, deeper := Split(text, separators[k]), separators[k + 1..];
    RecIsPack(text, separators, k, size, overlap);
    assert parts[0..] == parts;
    TraceIsPack(parts, 0, parts, separators[k], deeper, size, overlap);
    if NoneEmpty(parts) { TwiceIff(parts, separators[k], size, Deeper(deeper, size, overlap)); }
  }

  // ---------- All levels of the recursion ----------

  ghost predicate EmitsTwice(parts: seq<string>, sep: string, size: int, split: Splitter) {
    exists p :: Packable(parts, p, size) && Emissions(Trace(parts, 0, sep, size, split), p) >= 2
  }

  ghost predicate HoldsAtOversized(parts: seq<string>, sep: string, size: int) {
    exists j :: ReachedHolding(parts, j, sep, size)
  }

  // The recursion packs the parts of the text at the first of the separators.
  predicate Packs(text: string, separators: seq<string>, size: int) {
    |text| > size && separators != [] && separators[0] != "" && Contains(text, separators[0])
  }

  predicate PassesOn(text: string, separators: seq<string>, size: int) {
    |text| > size && separators != [] && separators[0] != "" && !Contains(text, separators[0])
  }

  // Somewhere in the recursion a part is emitted twice.
  ghost predicate RepeatsDeep(text: string, separators: seq<string>, size: int, overlap: int)
    requires 0 <= overlap < size
    decreases |separators|
  {
    if Packs(text, separators, size) then
      var parts, deeper := Split(text, separators[0]), separators[1..];
      || EmitsTwice(parts, separators[0], size, Deeper(deeper, size, overlap))
      || exists i :: 0 <= i < |parts| && |parts[i]| > size && RepeatsDeep(parts[i], deeper, size, overlap)
    else PassesOn(text, separators, size) && RepeatsDeep(text, separators[1..], size, overlap)
  }

  // Somewhere in the recursion an oversized part is reached while a chunk is held back.
  ghost predicate HoldsDeep(text: string, separators: seq<string>, size: int)
    decreases |separators|
  {
    if Packs(text, separators, size) then
      var parts, deeper := Split(text, separators[0]), separators[1..];
      || HoldsAtOversized(parts, separators[0], size)
      || exists i :: 0 <= i < |parts| && |parts[i]| > size && HoldsDeep(parts[i], deeper, size)
    else PassesOn(text, separators, size) && HoldsDeep(text, separators[1..], size)
  }

  lemma EmitsTwiceIff(parts: seq<string>, sep: string, size: int, split: Splitter)
    ensures EmitsTwice(parts, sep, size, split) <==> HoldsAtOversized(parts, sep, size)
  {
    NoRepeatIff(parts, sep, size, split);
    forall p | Packable(parts, p, size) ensures Emissions(Trace(parts, 0, sep, size, split), p) >= 1 {
      EmittedOnceAndAgain(parts, p, sep, size, split);
    }
  }

  lemma {:induction false} DeepIff(text: string, separators: seq<string>, size: int, overlap: int)
    requires 0 <= overlap < size
    ensures RepeatsDeep(text, separators, size, overlap) <==> HoldsDeep(text, separators, size)
    decreases |separators|
  {
    if Packs(text, separators, size) {
      var parts, deeper := Split(text, separators[0]), separators[1..];
      EmitsTwiceIff(parts, separators[0], size, Deeper(deeper, size, overlap));
      forall i | 0 <= i < |parts|
        ensures RepeatsDeep(parts[i], deeper, size, overlap) <==> HoldsDeep(parts[i], deeper, size)
      {
        DeepIff(parts[i], deeper, size, overlap);
      }
    } else if PassesOn(text, separators, size) {
      DeepIff(text, separators[1..], size, overlap);
    }
  }

  // For a whole split: at some level of the recursion a part is emitted twice exactly when at some
  // level an oversized part is reached while a chunk is held back.
  lemma RepeatsSomewhereIff(text: string, size: int, overlap: int)
    requires 0 <= overlap < size
    ensures RepeatsDeep(PyStrip(text), SEPARATORS, size, overlap) <==> HoldsDeep(PyStrip(text), SEPARATORS, size)
  {
    DeepIff(PyStrip(text), SEPARATORS, size, overlap);
  }

  // ---------- A text with a repeated chunk ----------

  lemma {:induction false} OnlyWindows(text: string, separators: seq<string>, size: int, overlap: int)
    requires 0 <= overlap < size < |text| && separators != [] && separators[|separators| - 1] == ""
    requires forall i :: 0 <= i < |separators| - 1 ==> separators[i] != "" && separators[i][0] !in text
    ensures RecSplit(text, separators, size, overlap) == NonBlank(Windows(text, size, overlap, 0))
    decreases |separators|
  {
    if |separators| > 1 {
      forall i | 0 <= i <= |text|
        ensures !StartsWith(text[i..], separators[0])
      {
        PrefixChars(text[i..], separators[0]);
      }
      OnlyWindows(text, separators[1..], size, overlap);
    }
  }

  lemma TwoWindows(text: string, a: string, b: string)
    requires |a| == 3 && |b| == 3 && text == a + b && !IsPySpace(a[0]) && !IsPySpace(b[0])
    ensures NonBlank(Windows(text, 3, 0, 0)) == [a, b]
  {
    assert Windows(text, 3, 0, 6) == [];
    assert Windows(text, 3, 0, 3) == [text[3..6]] && text[3..6] == b;
    assert Windows(text, 3, 0, 0) == [text[0..3]] + [text[3..6]] && text[0..3] == a;
    assert [a, b][1..] == [b] && [b][1..] == [];
    assert NonBlank([b]) == [b] + NonBlank([]);
  }

  lemma SplitAtSeparator(text: string, before: string, sep: string, after: string)
    requires text == before + sep + after && |sep| > 0 && sep[0] !in before && sep[0] !in after
    ensures Contains(text, sep) && Split(text, sep) == [before, after]
  {
    assert text[|before|..][..|sep|] == sep && StartsWith(text[|before|..], sep);
    SplitBefore(text, before, sep, after);
  }

  lemma {:induction false} NoSplit(text: string, sep: string)
    requires |sep| > 0 && sep[0] !in text
    ensures Split(text, sep) == [text]
  {
    if |text| >= |sep| {
      PrefixChars(text, sep);
      NoSplit(text[1..], sep);
      assert [text[0]] + text[1..] == text;
    }
  }

  lemma {:induction false} SplitBefore(text: string, before: string, sep: string, after: string)
    requires text == before + sep + after && |sep| > 0 && sep[0] !in before && sep[0] !in after
    ensures Split(text, sep) == [before, after]
    decreases |before|
  {
    if before == "" {
      assert text[..|sep|] == sep && text[|sep|..] == after;
      NoSplit(after, sep);
    } else {
      assert text[0] == before[0] && text[1..] == before[1..] + sep + after;
      PrefixChars(text, sep);
      SplitBefore(text[1..], before[1..], sep, after);
      assert [before[0]] + before[1..] == before;
    }
  }

  lemma PackRepeats(first: string, second: string, sep: string, deeper: seq<string>, sub: seq<string>)
    requires |first| == 2 && |second| == 6 && sub == RecSplit(second, deeper, 3, 0)
    ensures Pack([first, second], sep, "", deeper, 3, 0) == [first] + sub + [first]
  {
    assert [first, second][1..] == [second] && [second][1..] == [];
    assert Glue("", sep) + first == first;
    assert Pack([], sep, first, deeper, 3, 0) == [first];
    assert Pack([second], sep, first, deeper, 3, 0) == [first] + sub + [first];
  }

  lemma {:induction false} StripNothing(chunks: seq<string>)
    requires forall i :: 0 <= i < |chunks| ==>
             chunks[i] != "" && !IsPySpace(chunks[i][0]) && !IsPySpace(chunks[i][|chunks[i]| - 1])
    ensures Stripped(chunks) == chunks
  {
    if chunks != [] {
      TrimOfTight(chunks[0], IsPySpace);
      StripNothing(chunks[1..]);
    }
  }

  lemma RawRepeats(text: string, first: string, second: string, separators: seq<string>)
    requires first == "ab" && second == "cdefgh" && text == first + "\n\n" + second && separators == SEPARATORS
    ensures RecSplit(text, separators, 3, 0) == [first] + ["cde", "fgh"] + [first]
  {
    var sep, deeper := separators[0], separators[1..];
    SplitAtSeparator(text, first, sep, second);
    OnlyWindows(second, deeper, 3, 0);
    TwoWindows(second, "cde", "fgh");
    PackRepeats(first, second, sep, deeper, ["cde", "fgh"]);
  }

  // Chunks of three characters, no overlap: the chunk "ab" is emitted before and after the long part.
  lemma AbRepeats(text: string, first: string, second: string)
    requires first == "ab" && second == "cdefgh" && text == first + "\n\n" + second
    ensures SplitSpec(text, 3, 0) == [first, "cde", "fgh", first]
  {
    var chunks := [first] + ["cde", "fgh"] + [first];
    RawRepeats(text, first, second, SEPARATORS);
    TrimOfTight(text, IsPySpace);
    StripNothing(chunks);
    assert chunks == [first, "cde", "fgh", first];
  }
}
