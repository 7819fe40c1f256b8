// Prompt templates: {{var}}, {% if %} and {% for %} are rendered by three regular-expression
// passes over the text. The passes are compared with a direct evaluator of a template's syntax tree.
module PromptTemplate {
  import opened Text
  import opened Wrappers

  // What the renderer can observe of a Python value: str(v), bool(v) and iter(v), if it has one.
  datatype Value = NoneValue | Obj(shown: string, truthy: bool, items: Option<seq<Value>>)

  type Context = map<string, Value>

  function Show(v: Value): string {
    if v.NoneValue? then "" else v.shown
  }

  function Lookup(ctx: Context, name: string): string {
    if name in ctx then Show(ctx[name]) else ""
  }

  predicate Holds(ctx: Context, name: string) {
    name in ctx && ctx[name].Obj? && ctx[name].truthy
  }

  // context.get(name, []), iterated; None when the value cannot be iterated (a TypeError).
  function Items(ctx: Context, name: string): Option<seq<Value>> {
    if name !in ctx then Some([])
    else if ctx[name].NoneValue? then None
    else ctx[name].items
  }

  // ---------- Pattern matching ----------

  // The class \w; `letters` is the Unicode table beyond ASCII.
  predicate IsWord(c: char, letters: char -> bool) {
    if c < '\U{80}' then '0' <= c <= '9' || 'A' <= c <= 'Z' || 'a' <= c <= 'z' || c == '_' else letters(c)
  }

  function WordRun(s: string, letters: char -> bool): (n: nat)
    ensures n <= |s|
  {
    if s == "" || !IsWord(s[0], letters) then 0 else 1 + WordRun(s[1..], letters)
  }

  // What a pattern piece captured, and the text after it.
  datatype Cut = Cut(captured: string, rest: string)

  // (\w+) followed by `close`.
  function CutName(s: string, close: string, letters: char -> bool): (r: Option<Cut>)
    ensures r.Some? ==> |r.value.rest| < |s|
  {
    var n := WordRun(s, letters);
    if n > 0 && StartsWith(s[n..], close) then Some(Cut(s[..n], s[n..][|close|..])) else None
  }

  // (.*?) followed by `close`.
  function CutBody(s: string, close: string): (r: Option<Cut>)
    ensures r.Some? ==> |r.value.rest| <= |s|
  {
    var i := Find(s, close, 0);
    if i < 0 then None else Some(Cut(s[..i], s[i..][|close|..]))
  }

  function After(s: string, open: string): (r: Option<string>)
    ensures r.Some? ==> |r.value| <= |s|
  {
    if StartsWith(s, open) then Some(s[|open|..]) else None
  }

  function MatchVar(s: string, letters: char -> bool): (r: Option<Cut>)
    ensures r.Some? ==> |r.value.rest| < |s|
  {
    var t := After(s, "{{");
    if t.None? then None else CutName(t.value, "}}", letters)
  }

  datatype IfMatch = IfMatch(cond: string, body: string, rest: string)

  function MatchIf(s: string, letters: char -> bool): (r: Option<IfMatch>)
    ensures r.Some? ==> |r.value.rest| < |s|
  {
    var t := After(s, "{% if ");
    if t.None? then None
    else
      var name := CutName(t.value, " %}", letters);
      if name.None? then None
      else
        var body := CutBody(name.value.rest, "{% endif %}");
        if body.None? then None
        else Some(IfMatch(name.value.captured, body.value.captured, body.value.rest))
  }

  datatype ForMatch = ForMatch(item: string, list: string, body: string, rest: string)

  function MatchFor(s: string, letters: char -> bool): (r: Option<ForMatch>)
    ensures r.Some? ==> |r.value.rest| < |s|
  {
    var t := After(s, "{% for ");
    if t.None? then None
    else
      var item := CutName(t.value, " in ", letters);
      if item.None? then None
      else
        var list := CutName(item.value.rest, " %}", letters);
        if list.None? then None
        else
          var body := CutBody(list.value.rest, "{% endfor %}");
          if body.None? then None
          else Some(ForMatch(item.value.captured, list.value.captured, body.value.captured, body.value.rest))
  }

  // ---------- The three passes ----------

  function RenderVariables(s: string, ctx: Context, letters: char -> bool): string
    decreases |s|
  {
    if s == "" then ""
    else match MatchVar(s, letters)
      case None => [s[0]] + RenderVariables(s[1..], ctx, letters)
      case Some(m) => Lookup(ctx, m.captured) + RenderVariables(m.rest, ctx, letters)
  }

  function RenderIfBlocks(s: string, ctx: Context, letters: char -> bool): string
    decreases |s|
  {
    if s == "" then ""
    else match MatchIf(s, letters)
      case None => [s[0]] + RenderIfBlocks(s[1..], ctx, letters)
      case Some(m) =>
        (if Holds(ctx, m.cond) then RenderVariables(m.body, ctx, letters) else "")
        + RenderIfBlocks(m.rest, ctx, letters)
  }

  function LoopBodies(items: seq<Value>, item: string, body: string, ctx: Context, letters: char -> bool): seq<string> {
    if items == [] then []
    else [RenderVariables(body, ctx[item := items[0]], letters)] + LoopBodies(items[1..], item, body, ctx, letters)
  }

  // The appending loop of the substitution callback.
  method ReplaceFor(items: seq<Value>, item: string, body: string, ctx: Context, letters: char -> bool)
    returns (joined: string)
    ensures joined == Join(LoopBodies(items, item, body, ctx, letters), "\n")
  {
    var results := [];
    assert items[0..] == items;
    for i := 0 to |items|
      invariant results + LoopBodies(items[i..], item, body, ctx, letters)
                == LoopBodies(items, item, body, ctx, letters)
    {
      assert items[i..][0] == items[i] && items[i..][1..] == items[i + 1..];
      results := results + [RenderVariables(body, ctx[item := items[i]], letters)];
    }
    assert results == LoopBodies(items, item, body, ctx, letters);
    joined := Join(results, "\n");
  }

  function Prepend(s: string, rest: Option<string>): Option<string> {
    if rest.None? then None else Some(s + rest.value)
  }

  // None when a loop meets a value that cannot be iterated.
  function RenderForLoops(s: string, ctx: Context, letters: char -> bool): Option<string>
    decreases |s|
  {
    if s == "" then Some("")
    else match MatchFor(s, letters)
      case None => Prepend([s[0]], RenderForLoops(s[1..], ctx, letters))
      case Some(m) =>
        match Items(ctx, m.list)
        case None => None
        case Some(items) =>
          Prepend(Join(LoopBodies(items, m.item, m.body, ctx, letters), "\n"), RenderForLoops(m.rest, ctx, letters))
  }

  function Render(template: string, ctx: Context, letters: char -> bool): Option<string> {
    match RenderForLoops(template, ctx, letters)
    case None => None
    case Some(s) => Some(PyStrip(RenderVariables(RenderIfBlocks(s, ctx, letters), ctx, letters)))
  }

  // ---------- Templates as trees ----------

  datatype Leaf = Text(s: string) | Var(name: string)
  datatype Part = Plain(leaf: Leaf) | For(item: string, list: string, body: seq<Leaf>)
  datatype Node = Single(part: Part) | If(cond: string, body: seq<Part>)

  function PrintLeaf(l: Leaf): string {
    match l case Text(s) => s case Var(x) => "{{" + x + "}}"
  }

  function PrintLeaves(ls: seq<Leaf>): string {
    if ls == [] then "" else PrintLeaf(ls[0]) + PrintLeaves(ls[1..])
  }

  function PrintPart(p: Part): string {
    match p
    case Plain(l) => PrintLeaf(l)
    case For(item, list, body) =>
      "{% for " + (item + (" in " + (list + (" %}" + (PrintLeaves(body) + "{% endfor %}")))))
  }

  function PrintParts(ps: seq<Part>): string {
    if ps == [] then "" else PrintPart(ps[0]) + PrintParts(ps[1..])
  }

  function PrintNode(n: Node): string {
    match n
    case Single(p) => PrintPart(p)
    case If(cond, body) => "{% if " + (cond + (" %}" + (PrintParts(body) + "{% endif %}")))
  }

  function PrintNodes(ns: seq<Node>): string {
    if ns == [] then "" else PrintNode(ns[0]) + PrintNodes(ns[1..])
  }

  // ---------- Direct evaluation ----------

  function EvalLeaf(l: Leaf, ctx: Context): string {
    match l case Text(s) => s case Var(x) => Lookup(ctx, x)
  }

  function EvalLeaves(ls: seq<Leaf>, ctx: Context): string {
    if ls == [] then "" else EvalLeaf(ls[0], ctx) + EvalLeaves(ls[1..], ctx)
  }

  // One evaluation of the body per item; the loop variable hides an outer one.
  function EvalBodies(items: seq<Value>, item: string, body: seq<Leaf>, ctx: Context): seq<string> {
    if items == [] then []
    else [EvalLeaves(body, ctx[item := items[0]])] + EvalBodies(items[1..], item, body, ctx)
  }

  function EvalPart(p: Part, ctx: Context): string {
    match p
    case Plain(l) => EvalLeaf(l, ctx)
    case For(item, list, body) =>
      var items := Items(ctx, list);
      if items.None? then "" else Join(EvalBodies(items.value, item, body, ctx), "\n")
  }

  function EvalParts(ps: seq<Part>, ctx: Context): string {
    if ps == [] then "" else EvalPart(ps[0], ctx) + EvalParts(ps[1..], ctx)
  }

  function EvalNode(n: Node, ctx: Context): string {
    match n
    case Single(p) => EvalPart(p, ctx)
    case If(cond, body) => if Holds(ctx, cond) then EvalParts(body, ctx) else ""
  }

  function EvalNodes(ns: seq<Node>, ctx: Context): string {
    if ns == [] then "" else EvalNode(ns[0], ctx) + EvalNodes(ns[1..], ctx)
  }

  predicate PartIterates(p: Part, ctx: Context) {
    p.For? ==> Items(ctx, p.list).Some?
  }

  predicate PartsIterate(ps: seq<Part>, ctx: Context) {
    ps == [] || (PartIterates(ps[0], ctx) && PartsIterate(ps[1..], ctx))
  }

  predicate NodeIterates(n: Node, ctx: Context) {
    match n case Single(p) => PartIterates(p, ctx) case If(_, body) => PartsIterate(body, ctx)
  }

  predicate NodesIterate(ns: seq<Node>, ctx: Context) {
    ns == [] || (NodeIterates(ns[0], ctx) && NodesIterate(ns[1..], ctx))
  }

  // ---------- Tags that begin in a text ----------

  // Can u go on to a tag `open` (\w+) `close`?
  predicate CanOpen(u: string, open: string, close: string, letters: char -> bool) {
    || StartsWith(open, u)
    || (StartsWith(u, open) &&
          var v := u[|open|..];
          var n := WordRun(v, letters);
          v[n..] == "" || (n > 0 && (StartsWith(close, v[n..]) || StartsWith(v[n..], close))))
  }

  // Can u go on to the text `tag`?
  predicate CanBegin(u: string, tag: string) {
    StartsWith(tag, u) || StartsWith(u, tag)
  }

  // No such tag begins in t, whatever follows t.
  predicate TagInert(t: string, open: string, close: string, letters: char -> bool) {
    forall i :: 0 <= i < |t| ==> !CanOpen(t[i..], open, close, letters)
  }

  predicate VarInert(t: string, letters: char -> bool) {
    TagInert(t, "{{", "}}", letters)
  }

  predicate IfInert(t: string, letters: char -> bool) {
    TagInert(t, "{% if ", " %}", letters)
  }

  predicate EndInert(t: string, tag: string) {
    forall i :: 0 <= i < |t| ==> !CanBegin(t[i..], tag)
  }

  // ---------- Well-formed templates ----------

  // No tag at all can begin in t: a brace in it is followed by something else than a second brace or
  // a percent sign.
  ghost predicate Harmless(t: string) {
    Quiet(t) && Unpaired(t)
  }

  // No tag of the form {% ... begins in t.
  ghost predicate Quiet(t: string) {
    forall i :: 0 <= i < |t| && t[i] == '{' ==> i + 1 < |t| && t[i + 1] != '%'
  }

  // No tag of the form {{ ... begins in t.
  ghost predicate Unpaired(t: string) {
    forall i :: 0 <= i < |t| && t[i] == '{' ==> i + 1 < |t| && t[i + 1] != '{'
  }

  ghost predicate IsName(x: string, letters: char -> bool) {
    x != "" && forall i :: 0 <= i < |x| ==> IsWord(x[i], letters)
  }

  ghost predicate LeafOk(l: Leaf, letters: char -> bool) {
    match l case Text(s) => Harmless(s) case Var(x) => IsName(x, letters)
  }

  ghost predicate LeavesOk(ls: seq<Leaf>, letters: char -> bool) {
    forall i :: 0 <= i < |ls| ==> LeafOk(ls[i], letters)
  }

  ghost predicate PartOk(p: Part, letters: char -> bool) {
    match p
    case Plain(l) => LeafOk(l, letters)
    case For(item, list, body) => IsName(item, letters) && IsName(list, letters) && LeavesOk(body, letters)
  }

  ghost predicate PartsOk(ps: seq<Part>, letters: char -> bool) {
    forall i :: 0 <= i < |ps| ==> PartOk(ps[i], letters)
  }

  ghost predicate NodeOk(n: Node, letters: char -> bool) {
    match n
    case Single(p) => PartOk(p, letters)
    case If(cond, body) => IsName(cond, letters) && PartsOk(body, letters)
  }

  ghost predicate NodesOk(ns: seq<Node>, letters: char -> bool) {
    forall i :: 0 <= i < |ns| ==> NodeOk(ns[i], letters)
  }

  // ---------- What a later pass sees again ----------

  // Where a loop puts its text: outside of if-blocks, or inside one whose body is shown or not.
  datatype Place = Outside | Inside(shown: bool)

  // The text is left alone there. Outside, both later passes scan it; inside, the if pass looks for
  // the end of the block, and scans the body for variables if it is shown.
  predicate Survives(t: string, place: Place, letters: char -> bool) {
    match place
    case Outside => IfInert(t, letters) && VarInert(t, letters)
    case Inside(shown) => EndInert(t, "{% endif %}") && (shown ==> VarInert(t, letters))
  }

  ghost predicate LeavesSurvive(ls: seq<Leaf>, ctx: Context, place: Place, letters: char -> bool) {
    forall i :: 0 <= i < |ls| && ls[i].Var? ==> Survives(Lookup(ctx, ls[i].name), place, letters)
  }

  // What a loop shows, round by round.
  ghost predicate LoopSurvives(p: Part, ctx: Context, place: Place, letters: char -> bool) {
    p.For? && Items(ctx, p.list).Some? ==>
      var items := Items(ctx, p.list).value;
      forall i :: 0 <= i < |items| ==> LeavesSurvive(p.body, ctx[p.item := items[i]], place, letters)
  }

  // What an if-block shows. Its loops are unrolled even when its condition is false; its variables are
  // put in when it is shown, and then only the variable pass sees them again.
  ghost predicate BodySurvives(cond: string, ps: seq<Part>, ctx: Context, letters: char -> bool) {
    forall i :: 0 <= i < |ps| ==>
      && LoopSurvives(ps[i], ctx, Inside(Holds(ctx, cond)), letters)
      && (Holds(ctx, cond) && ps[i].Plain? && ps[i].leaf.Var? ==> VarInert(Lookup(ctx, ps[i].leaf.name), letters))
  }

  ghost predicate NodeSurvives(n: Node, ctx: Context, letters: char -> bool) {
    match n
    case Single(p) => LoopSurvives(p, ctx, Outside, letters)
    case If(cond, body) => BodySurvives(cond, body, ctx, letters)
  }

  // Nothing is asked of a value that only a variable outside of loops and if-blocks shows.
  ghost predicate NodesSurvive(ns: seq<Node>, ctx: Context, letters: char -> bool) {
    forall i :: 0 <= i < |ns| ==> NodeSurvives(ns[i], ctx, letters)
  }

  // ---------- Scanning lemmas ----------

  lemma {:induction false} WordRunOfName(x: string, rest: string, letters: char -> bool)
    requires forall i :: 0 <= i < |x| ==> IsWord(x[i], letters)
    requires rest != "" ==> !IsWord(rest[0], letters)
    ensures WordRun(x + rest, letters) == |x|
  {
    if x == "" {
      assert x + rest == rest;
    } else {
      WordRunOfName(x[1..], rest, letters);
      assert (x + rest)[1..] == x[1..] + rest;
    }
  }

  lemma Assoc(a: string, b: string, c: string)
    ensures (a + b) + c == a + (b + c)
  {
  }

  lemma CutNameOf(x: string, close: string, rest: string, letters: char -> bool)
    requires IsName(x, letters) && close != "" && !IsWord(close[0], letters)
    ensures CutName(x + (close + rest), close, letters) == Some(Cut(x, rest))
  {
    var s := x + (close + rest);
    WordRunOfName(x, close + rest, letters);
    assert s[|x|..] == close + rest && s[..|x|] == x;
    assert (close + rest)[..|close|] == close && (close + rest)[|close|..] == rest;
  }

  lemma AfterOf(open: string, rest: string)
    ensures After(open + rest, open) == Some(rest)
  {
    assert (open + rest)[..|open|] == open && (open + rest)[|open|..] == rest;
  }

  lemma OccursAfter(t: string, rest: string, tag: string, j: nat)
    requires j <= |rest|
    ensures StartsWith((t + rest)[|t| + j..], tag) <==> StartsWith(rest[j..], tag)
  {
    assert (t + rest)[|t| + j..] == rest[j..];
  }

  lemma NotWithin(t: string, rest: string, tag: string, i: nat)
    requires EndInert(t, tag) && i < |t|
    ensures !StartsWith((t + rest)[i..], tag)
  {
    var u, whole := t[i..], (t + rest)[i..];
    assert !CanBegin(u, tag) && whole == u + rest;
    PrefixChars(whole, tag);
    PrefixChars(u, tag);
    PrefixChars(tag, u);
  }

  // The first tag in what follows t is the first tag at all.
  lemma EndTagSkip(t: string, rest: string, tag: string)
    requires EndInert(t, tag)
    ensures Find(t + rest, tag, 0) == if Find(rest, tag, 0) < 0 then -1 else |t| + Find(rest, tag, 0)
  {
    var r, q := Find(t + rest, tag, 0), Find(rest, tag, 0);
    if 0 <= r < |t| { NotWithin(t, rest, tag, r); }
    if r >= |t| { OccursAfter(t, rest, tag, r - |t|); }
    if q >= 0 { OccursAfter(t, rest, tag, q); }
  }

  lemma BodyCut(t: string, close: string, rest: string)
    requires EndInert(t, close)
    ensures CutBody(t + (close + rest), close) == Some(Cut(t, rest))
  {
    EndTagSkip(t, close + rest, close);
    assert (close + rest)[0..] == close + rest && (close + rest)[..|close|] == close;
    assert StartsWith((close + rest)[0..], close);
    var s := t + (close + rest);
    assert s[..|t|] == t && s[|t|..] == close + rest && (close + rest)[|close|..] == rest;
  }

  lemma CannotOpen(u: string, open: string, close: string, letters: char -> bool)
    requires u != "" && |open| > 1 && (u[0] != open[0] || (|u| > 1 && u[1] != open[1]))
    ensures !CanOpen(u, open, close, letters) && !CanBegin(u, open)
  {
    PrefixChars(open, u);
    PrefixChars(u, open);
  }

  lemma QuietInert(t: string, tag: string, letters: char -> bool)
    requires Quiet(t) && |tag| > 1 && tag[0] == '{' && tag[1] == '%'
    ensures IfInert(t, letters) && EndInert(t, tag)
  {
    var open := "{% if ";
    forall i | 0 <= i < |t|
      ensures !CanOpen(t[i..], open, " %}", letters) && !CanBegin(t[i..], tag)
    {
      assert t[i..][0] == t[i] && (t[i] == '{' ==> t[i..][1] == t[i + 1]);
      assert open[0] == '{' && open[1] == '%';
      CannotOpen(t[i..], open, " %}", letters);
      CannotOpen(t[i..], tag, " %}", letters);
    }
  }

  lemma UnpairedInert(t: string, letters: char -> bool)
    requires Unpaired(t)
    ensures VarInert(t, letters)
  {
    var open := "{{";
    forall i | 0 <= i < |t|
      ensures !CanOpen(t[i..], open, "}}", letters)
    {
      assert t[i..][0] == t[i] && (t[i] == '{' ==> t[i..][1] == t[i + 1]);
      assert open[0] == '{' && open[1] == '{';
      CannotOpen(t[i..], open, "}}", letters);
    }
  }

  // ---------- Which texts can go on to a tag ----------

  // The text begins with a whole tag.
  predicate Opened(s: string, open: string, close: string, letters: char -> bool) {
    After(s, open).Some? && CutName(After(s, open).value, close, letters).Some?
  }

  predicate IsTag(open: string, close: string, letters: char -> bool) {
    open != "" && close != "" && !IsWord(close[0], letters)
  }

  // What completes the tag.
  function Tail(u: string, open: string, close: string, letters: char -> bool): string
    requires CanOpen(u, open, close, letters)
  {
    if |u| < |open| then open[|u|..] + ("x" + close)
    else
      var v := u[|open|..];
      var w := v[WordRun(v, letters)..];
      if w == "" then "x" + close else if StartsWith(close, w) then close[|w|..] else ""
  }

  lemma {:induction false} WordRunWords(v: string, letters: char -> bool)
    ensures var n := WordRun(v, letters);
            (forall i :: 0 <= i < n ==> IsWord(v[i], letters)) && (n < |v| ==> !IsWord(v[n], letters))
  {
    if v != "" && IsWord(v[0], letters) { WordRunWords(v[1..], letters); }
  }

  // A run of word characters that ends in v ends there whatever follows.
  lemma RunStays(v: string, rest: string, letters: char -> bool)
    requires WordRun(v, letters) < |v|
    ensures WordRun(v + rest, letters) == WordRun(v, letters)
  {
    var n := WordRun(v, letters);
    WordRunWords(v, letters);
    WordRunOfName(v[..n], v[n..] + rest, letters);
    assert v[..n] + (v[n..] + rest) == v + rest;
  }

  lemma NameCompletes(v: string, close: string, letters: char -> bool) returns (tail: string)
    requires close != "" && !IsWord(close[0], letters)
    requires var n := WordRun(v, letters);
             v[n..] == "" || (n > 0 && (StartsWith(close, v[n..]) || StartsWith(v[n..], close)))
    ensures var w := v[WordRun(v, letters)..];
            tail == if w == "" then "x" + close else if StartsWith(close, w) then close[|w|..] else ""
    ensures CutName(v + tail, close, letters).Some?
  {
    var n := WordRun(v, letters);
    var w := v[n..];
    WordRunWords(v, letters);
    assert v == v[..n] + w;
    if w == "" {
      tail := "x" + close;
      assert v + tail == (v + "x") + (close + "");
      CutNameOf(v + "x", close, "", letters);
    } else if StartsWith(close, w) {
      tail := close[|w|..];
      assert w + tail == close;
      assert v + tail == v[..n] + (close + "");
      CutNameOf(v[..n], close, "", letters);
    } else {
      tail := "";
      assert w == close + w[|close|..];
      assert v + tail == v[..n] + (close + w[|close|..]);
      CutNameOf(v[..n], close, w[|close|..], letters);
    }
  }

  lemma TailCompletes(u: string, open: string, close: string, letters: char -> bool)
    requires IsTag(open, close, letters) && CanOpen(u, open, close, letters)
    ensures Opened(u + Tail(u, open, close, letters), open, close, letters)
  {
    var tail := Tail(u, open, close, letters);
    if |u| < |open| {
      assert open == u + open[|u|..];
      assert u + tail == open + ("x" + (close + ""));
      AfterOf(open, "x" + (close + ""));
      CutNameOf("x", close, "", letters);
    } else {
      var v := u[|open|..];
      assert u == open + v;
      var t := NameCompletes(v, close, letters);
      assert u + tail == open + (v + t);
      AfterOf(open, v + t);
    }
  }

  lemma OpensBeginning(s: string, u: string, rest: string, open: string, close: string, letters: char -> bool)
    requires s == u + rest && Opened(s, open, close, letters)
    ensures CanOpen(u, open, close, letters)
  {
    PrefixChars(s, open);
    PrefixChars(open, u);
    PrefixChars(u, open);
    if StartsWith(u, open) {
      var v := u[|open|..];
      assert s[|open|..] == v + rest;
      NameBeginning(v, rest, close, letters);
    }
  }

  lemma NameBeginning(v: string, rest: string, close: string, letters: char -> bool)
    requires CutName(v + rest, close, letters).Some?
    ensures var n := WordRun(v, letters);
            v[n..] == "" || (n > 0 && (StartsWith(close, v[n..]) || StartsWith(v[n..], close)))
  {
    var n := WordRun(v, letters);
    if n < |v| {
      RunStays(v, rest, letters);
      assert (v + rest)[n..] == v[n..] + rest;
      PrefixChars(v[n..] + rest, close);
      PrefixChars(close, v[n..]);
      PrefixChars(v[n..], close);
    }
  }

  // A text can go on to a tag exactly when some continuation makes it one.
  lemma CanOpenIff(u: string, open: string, close: string, letters: char -> bool)
    requires IsTag(open, close, letters)
    ensures CanOpen(u, open, close, letters) <==> exists rest :: Opened(u + rest, open, close, letters)
  {
    if CanOpen(u, open, close, letters) {
      TailCompletes(u, open, close, letters);
    }
    if rest :| Opened(u + rest, open, close, letters) {
      OpensBeginning(u + rest, u, rest, open, close, letters);
    }
  }

  lemma InertConcat(a: string, b: string, open: string, close: string, letters: char -> bool)
    requires IsTag(open, close, letters) && TagInert(a, open, close, letters) && TagInert(b, open, close, letters)
    ensures TagInert(a + b, open, close, letters)
  {
    forall i | 0 <= i < |a + b|
      ensures !CanOpen((a + b)[i..], open, close, letters)
    {
      InertAt(a, b, i, open, close, letters);
    }
  }

  lemma InertAt(a: string, b: string, i: nat, open: string, close: string, letters: char -> bool)
    requires IsTag(open, close, letters) && TagInert(a, open, close, letters) && TagInert(b, open, close, letters)
    requires i < |a + b|
    ensures !CanOpen((a + b)[i..], open, close, letters)
  {
    if i >= |a| {
      assert (a + b)[i..] == b[i - |a|..];
    } else {
      assert (a + b)[i..] == a[i..] + b && !CanOpen(a[i..], open, close, letters);
      if CanOpen(a[i..] + b, open, close, letters) { OpensEarlier(a[i..], b, open, close, letters); }
    }
  }

  lemma OpensEarlier(u: string, more: string, open: string, close: string, letters: char -> bool)
    requires IsTag(open, close, letters) && CanOpen(u + more, open, close, letters)
    ensures CanOpen(u, open, close, letters)
  {
    var tail := Tail(u + more, open, close, letters);
    TailCompletes(u + more, open, close, letters);
    Assoc(u, more, tail);
    OpensBeginning((u + more) + tail, u, more + tail, open, close, letters);
  }

  lemma EndInertConcat(a: string, b: string, tag: string)
    requires EndInert(a, tag) && EndInert(b, tag)
    ensures EndInert(a + b, tag)
  {
    forall i | 0 <= i < |a + b|
      ensures !CanBegin((a + b)[i..], tag)
    {
      if i >= |a| {
        assert (a + b)[i..] == b[i - |a|..];
      } else {
        assert (a + b)[i..] == a[i..] + b && !CanBegin(a[i..], tag);
        PrefixChars(a[i..] + b, tag);
        PrefixChars(tag, a[i..] + b);
        PrefixChars(a[i..], tag);
        PrefixChars(tag, a[i..]);
      }
    }
  }

  // ---------- The variable pass ----------

  lemma InertTail(t: string, open: string, close: string, letters: char -> bool)
    requires t != "" && TagInert(t, open, close, letters)
    ensures TagInert(t[1..], open, close, letters)
  {
    forall i | 0 <= i < |t[1..]|
      ensures !CanOpen(t[1..][i..], open, close, letters)
    {
      assert t[1..][i..] == t[i + 1..];
    }
  }

  // No tag begins at the first character of inert text.
  lemma NotOpened(t: string, rest: string, open: string, close: string, letters: char -> bool)
    requires t != "" && IsTag(open, close, letters) && TagInert(t, open, close, letters)
    ensures !Opened(t + rest, open, close, letters)
  {
    assert t[0..] == t && !CanOpen(t[0..], open, close, letters);
    if Opened(t + rest, open, close, letters) { OpensBeginning(t + rest, t, rest, open, close, letters); }
  }

  lemma {:induction false} VarsSkip(t: string, rest: string, ctx: Context, letters: char -> bool)
    requires VarInert(t, letters)
    ensures RenderVariables(t + rest, ctx, letters) == t + RenderVariables(rest, ctx, letters)
  {
    if t == "" {
      assert t + rest == rest;
    } else {
      NotOpened(t, rest, "{{", "}}", letters);
      InertTail(t, "{{", "}}", letters);
      VarsSkip(t[1..], rest, ctx, letters);
      OneCharVars(t, rest, ctx, letters);
    }
  }

  lemma OneCharVars(t: string, rest: string, ctx: Context, letters: char -> bool)
    requires t != "" && MatchVar(t + rest, letters) == None
    requires RenderVariables(t[1..] + rest, ctx, letters) == t[1..] + RenderVariables(rest, ctx, letters)
    ensures RenderVariables(t + rest, ctx, letters) == t + RenderVariables(rest, ctx, letters)
  {
    FirstChar(t, rest);
    VarsStep(t + rest, ctx, letters);
    FirstChar(t, RenderVariables(rest, ctx, letters));
  }

  lemma FirstChar(t: string, rest: string)
    requires t != ""
    ensures (t + rest)[0] == t[0] && (t + rest)[1..] == t[1..] + rest && [t[0]] + (t[1..] + rest) == t + rest
  {
  }

  lemma VarsStep(s: string, ctx: Context, letters: char -> bool)
    requires s != "" && MatchVar(s, letters) == None
    ensures RenderVariables(s, ctx, letters) == [s[0]] + RenderVariables(s[1..], ctx, letters)
  {
  }

  lemma VarsTag(x: string, rest: string, ctx: Context, letters: char -> bool)
    requires IsName(x, letters)
    ensures RenderVariables("{{" + x + "}}" + rest, ctx, letters)
            == Lookup(ctx, x) + RenderVariables(rest, ctx, letters)
  {
    var s := "{{" + x + "}}" + rest;
    assert s == "{{" + (x + ("}}" + rest));
    AfterOf("{{", x + ("}}" + rest));
    CutNameOf(x, "}}", rest, letters);
    assert MatchVar(s, letters) == Some(Cut(x, rest));
  }

  // Text and variables that the variable pass reads back.
  ghost predicate LeafReads(l: Leaf, letters: char -> bool) {
    match l case Text(s) => VarInert(s, letters) case Var(x) => IsName(x, letters)
  }

  ghost predicate LeavesRead(ls: seq<Leaf>, letters: char -> bool) {
    forall i :: 0 <= i < |ls| ==> LeafReads(ls[i], letters)
  }

  lemma LeavesOkRead(ls: seq<Leaf>, letters: char -> bool)
    requires LeavesOk(ls, letters)
    ensures LeavesRead(ls, letters)
  {
    forall i | 0 <= i < |ls|
      ensures LeafReads(ls[i], letters)
    {
      assert LeafOk(ls[i], letters);
      if ls[i].Text? { UnpairedInert(ls[i].s, letters); }
    }
  }

  lemma {:induction false} VarsLeaves(ls: seq<Leaf>, ctx: Context, letters: char -> bool)
    requires LeavesRead(ls, letters)
    ensures RenderVariables(PrintLeaves(ls), ctx, letters) == EvalLeaves(ls, ctx)
  {
    if ls != [] {
      assert LeafReads(ls[0], letters);
      VarsLeaves(ls[1..], ctx, letters);
      match ls[0]
      case Text(t) => VarsSkip(t, PrintLeaves(ls[1..]), ctx, letters);
      case Var(x) => VarsTag(x, PrintLeaves(ls[1..]), ctx, letters);
    }
  }

  lemma {:induction false} LeavesQuiet(ls: seq<Leaf>, letters: char -> bool)
    requires LeavesOk(ls, letters)
    ensures Quiet(PrintLeaves(ls))
  {
    if ls != [] {
      assert LeafOk(ls[0], letters);
      LeavesQuiet(ls[1..], letters);
    }
  }

  // ---------- The loop pass ----------

  // No for-tag starts inside t, whatever follows t.
  ghost predicate LoopQuiet(t: string) {
    forall i :: 0 <= i < |t| ==> NoLoopAt(t, i)
  }

  ghost predicate NoLoopAt(t: string, i: nat)
    requires i < |t|
  {
    t[i] == '{' ==> i + 1 < |t| && (t[i + 1] != '%' || (i + 3 < |t| && t[i + 3] != 'f'))
  }

  lemma PrependNothing(rest: Option<string>)
    ensures Prepend("", rest) == rest
  {
    if rest.Some? { assert "" + rest.value == rest.value; }
  }

  lemma PrependPrepend(a: string, b: string, rest: Option<string>)
    ensures Prepend(a, Prepend(b, rest)) == Prepend(a + b, rest)
  {
    if rest.Some? { assert a + (b + rest.value) == a + b + rest.value; }
  }

  lemma NoLoop(t: string, rest: string)
    requires t != "" && LoopQuiet(t)
    ensures After(t + rest, "{% for ") == None
  {
    var s := t + rest;
    var open := "{% for ";
    assert open[0] == '{' && open[1] == '%' && open[3] == 'f';
    assert NoLoopAt(t, 0) && s[0] == t[0] && (|t| > 1 ==> s[1] == t[1]) && (|t| > 3 ==> s[3] == t[3]);
    PrefixChars(s, open);
  }

  lemma LoopQuietTail(t: string)
    requires t != "" && LoopQuiet(t)
    ensures LoopQuiet(t[1..])
  {
    forall i | 0 <= i < |t[1..]|
      ensures NoLoopAt(t[1..], i)
    {
      assert NoLoopAt(t, i + 1);
    }
  }

  lemma LoopsPass(t: string, rest: string, ctx: Context, letters: char -> bool)
    requires t != "" && LoopQuiet(t)
    ensures RenderForLoops(t + rest, ctx, letters) == Prepend([t[0]], RenderForLoops(t[1..] + rest, ctx, letters))
  {
    var s := t + rest;
    NoLoop(t, rest);
    assert MatchFor(s, letters) == None;
    assert s[0] == t[0] && s[1..] == t[1..] + rest;
  }

  lemma {:induction false} LoopsSkip(t: string, rest: string, ctx: Context, letters: char -> bool)
    requires LoopQuiet(t)
    ensures RenderForLoops(t + rest, ctx, letters) == Prepend(t, RenderForLoops(rest, ctx, letters))
  {
    if t == "" {
      assert t + rest == rest;
      PrependNothing(RenderForLoops(rest, ctx, letters));
    } else {
      LoopsPass(t, rest, ctx, letters);
      LoopQuietTail(t);
      LoopsSkip(t[1..], rest, ctx, letters);
      PrependPrepend([t[0]], t[1..], RenderForLoops(rest, ctx, letters));
      assert [t[0]] + t[1..] == t;
    }
  }

  lemma ForText(item: string, list: string, body: string, rest: string)
    ensures ("{% for " + (item + (" in " + (list + (" %}" + (body + "{% endfor %}")))))) + rest
            == "{% for " + (item + (" in " + (list + (" %}" + (body + ("{% endfor %}" + rest))))))
  {
    var close := "{% endfor %}";
    Assoc(body, close, rest);
    Assoc(" %}", body + close, rest);
    Assoc(list, " %}" + (body + close), rest);
    Assoc(" in ", list + (" %}" + (body + close)), rest);
    Assoc(item, " in " + (list + (" %}" + (body + close))), rest);
    Assoc("{% for ", item + (" in " + (list + (" %}" + (body + close)))), rest);
  }

  // The head of a for tag, followed by s, whose body ends at the first end tag.
  lemma ForHead(item: string, list: string, s: string, body: string, rest: string, letters: char -> bool)
    requires IsName(item, letters) && IsName(list, letters) && CutBody(s, "{% endfor %}") == Some(Cut(body, rest))
    ensures MatchFor("{% for " + (item + (" in " + (list + (" %}" + s)))), letters)
            == Some(ForMatch(item, list, body, rest))
  {
    var s2 := list + (" %}" + s);
    var s1 := item + (" in " + s2);
    AfterOf("{% for ", s1);
    CutNameOf(item, " in ", s2, letters);
    CutNameOf(list, " %}", s, letters);
  }

  lemma ForTag(item: string, list: string, body: string, rest: string, letters: char -> bool)
    requires IsName(item, letters) && IsName(list, letters) && Quiet(body)
    ensures MatchFor("{% for " + (item + (" in " + (list + (" %}" + (body + ("{% endfor %}" + rest)))))), letters)
            == Some(ForMatch(item, list, body, rest))
  {
    var end := "{% endfor %}";
    QuietInert(body, end, letters);
    BodyCut(body, end, rest);
    ForHead(item, list, body + (end + rest), body, rest, letters);
  }

  lemma {:induction false} BodiesAgree(items: seq<Value>, item: string, body: seq<Leaf>, ctx: Context,
                                       letters: char -> bool)
    requires LeavesOk(body, letters)
    ensures LoopBodies(items, item, PrintLeaves(body), ctx, letters) == EvalBodies(items, item, body, ctx)
  {
    if items != [] {
      LeavesOkRead(body, letters);
      VarsLeaves(body, ctx[item := items[0]], letters);
      BodiesAgree(items[1..], item, body, ctx, letters);
    }
  }

  // What the loop pass turns a part into: a loop becomes the text it prints.
  function ExpandPart(p: Part, ctx: Context): Leaf {
    match p case Plain(l) => l case For(_, _, _) => Text(EvalPart(p, ctx))
  }

  function ExpandParts(ps: seq<Part>, ctx: Context): seq<Leaf> {
    if ps == [] then [] else [ExpandPart(ps[0], ctx)] + ExpandParts(ps[1..], ctx)
  }

  lemma PartStep(p: Part, rest: string, ctx: Context, letters: char -> bool)
    requires PartOk(p, letters)
    ensures RenderForLoops(PrintPart(p) + rest, ctx, letters)
            == if PartIterates(p, ctx) then Prepend(PrintLeaf(ExpandPart(p, ctx)), RenderForLoops(rest, ctx, letters))
               else None
  {
    match p
    case Plain(l) => LoopsSkip(PrintLeaf(l), rest, ctx, letters);
    case For(item, list, body) =>
      LeavesQuiet(body, letters);
      ForText(item, list, PrintLeaves(body), rest);
      ForTag(item, list, PrintLeaves(body), rest, letters);
      if Items(ctx, list).Some? {
        BodiesAgree(Items(ctx, list).value, item, body, ctx, letters);
      }
  }

  lemma {:induction false} LoopsInParts(ps: seq<Part>, rest: string, ctx: Context, letters: char -> bool)
    requires PartsOk(ps, letters)
    ensures RenderForLoops(PrintParts(ps) + rest, ctx, letters)
            == if PartsIterate(ps, ctx)
               then Prepend(PrintLeaves(ExpandParts(ps, ctx)), RenderForLoops(rest, ctx, letters)) else None
  {
    if ps == [] {
      assert PrintParts(ps) + rest == rest;
      PrependNothing(RenderForLoops(rest, ctx, letters));
    } else {
      var tail := PrintParts(ps[1..]) + rest;
      assert PrintParts(ps) + rest == PrintPart(ps[0]) + tail;
      PartStep(ps[0], tail, ctx, letters);
      LoopsInParts(ps[1..], rest, ctx, letters);
      PrependPrepend(PrintLeaf(ExpandPart(ps[0], ctx)), PrintLeaves(ExpandParts(ps[1..], ctx)),
                     RenderForLoops(rest, ctx, letters));
    }
  }

  // A template without loops: what the loop pass leaves for the if pass.
  datatype Flat = Lit(leaf: Leaf) | Cond(cond: string, body: seq<Leaf>)

  function PrintFlat(f: Flat): string {
    match f
    case Lit(l) => PrintLeaf(l)
    case Cond(cond, body) => "{% if " + (cond + (" %}" + (PrintLeaves(body) + "{% endif %}")))
  }

  function PrintFlats(fs: seq<Flat>): string {
    if fs == [] then "" else PrintFlat(fs[0]) + PrintFlats(fs[1..])
  }

  function ExpandNode(n: Node, ctx: Context): Flat {
    match n case Single(p) => Lit(ExpandPart(p, ctx)) case If(cond, body) => Cond(cond, ExpandParts(body, ctx))
  }

  function ExpandNodes(ns: seq<Node>, ctx: Context): seq<Flat> {
    if ns == [] then [] else [ExpandNode(ns[0], ctx)] + ExpandNodes(ns[1..], ctx)
  }

  lemma IfText(cond: string, body: string, rest: string)
    ensures ("{% if " + (cond + (" %}" + (body + "{% endif %}")))) + rest
            == ("{% if " + (cond + " %}")) + (body + ("{% endif %}" + rest))
    ensures "{% if " + (cond + (" %}" + (body + "{% endif %}"))) == ("{% if " + (cond + " %}")) + (body + "{% endif %}")
  {
    var close := "{% endif %}";
    Assoc(cond, " %}", body + close);
    Assoc("{% if ", cond + " %}", body + close);
    Assoc("{% if " + (cond + " %}"), body + close, rest);
    Assoc(body, close, rest);
  }

  lemma OpenTagQuiet(cond: string, letters: char -> bool)
    requires IsName(cond, letters)
    ensures LoopQuiet("{% if " + (cond + " %}"))
  {
    var open := "{% if " + (cond + " %}");
    forall i | 1 <= i < |open|
      ensures open[i] != '{'
    {
      if 6 <= i < 6 + |cond| { assert open[i] == cond[i - 6] && IsWord(cond[i - 6], letters); }
    }
  }

  // An if-tag pair is passed over by the loop pass, which goes to work on what it encloses.
  lemma LoopsInIf(cond: string, body: seq<Part>, rest: string, ctx: Context, letters: char -> bool)
    requires IsName(cond, letters) && PartsOk(body, letters)
    ensures var open, inner := "{% if " + (cond + " %}"), PrintLeaves(ExpandParts(body, ctx));
            RenderForLoops(open + (PrintParts(body) + ("{% endif %}" + rest)), ctx, letters)
            == if PartsIterate(body, ctx)
               then Prepend(open + (inner + "{% endif %}"), RenderForLoops(rest, ctx, letters)) else None
  {
    var open, close, inner := "{% if " + (cond + " %}"), "{% endif %}", PrintLeaves(ExpandParts(body, ctx));
    var tail := RenderForLoops(rest, ctx, letters);
    OpenTagQuiet(cond, letters);
    LoopsSkip(open, PrintParts(body) + (close + rest), ctx, letters);
    LoopsInParts(body, close + rest, ctx, letters);
    CloseTagQuiet(close);
    LoopsSkip(close, rest, ctx, letters);
    PrependPrepend(inner, close, tail);
    PrependPrepend(open, inner + close, tail);
  }

  lemma CloseTagQuiet(close: string)
    requires close == "{% endif %}"
    ensures LoopQuiet(close)
  {
  }

  lemma NodeStep(n: Node, rest: string, ctx: Context, letters: char -> bool)
    requires NodeOk(n, letters)
    ensures RenderForLoops(PrintNode(n) + rest, ctx, letters)
            == if NodeIterates(n, ctx) then Prepend(PrintFlat(ExpandNode(n, ctx)), RenderForLoops(rest, ctx, letters))
               else None
  {
    match n
    case Single(p) => PartStep(p, rest, ctx, letters);
    case If(cond, body) =>
      IfText(cond, PrintParts(body), rest);
      IfText(cond, PrintLeaves(ExpandParts(body, ctx)), "");
      LoopsInIf(cond, body, rest, ctx, letters);
  }

  lemma {:induction false} LoopPass(ns: seq<Node>, ctx: Context, letters: char -> bool)
    requires NodesOk(ns, letters)
    ensures RenderForLoops(PrintNodes(ns), ctx, letters)
            == if NodesIterate(ns, ctx) then Some(PrintFlats(ExpandNodes(ns, ctx))) else None
  {
    if ns != [] {
      NodeStep(ns[0], PrintNodes(ns[1..]), ctx, letters);
      LoopPass(ns[1..], ctx, letters);
    }
  }

  // ---------- The if pass ----------

  lemma {:induction false} IfsSkip(t: string, rest: string, ctx: Context, letters: char -> bool)
    requires IfInert(t, letters)
    ensures RenderIfBlocks(t + rest, ctx, letters) == t + RenderIfBlocks(rest, ctx, letters)
  {
    if t == "" {
      assert t + rest == rest;
    } else {
      NotOpened(t, rest, "{% if ", " %}", letters);
      InertTail(t, "{% if ", " %}", letters);
      IfsSkip(t[1..], rest, ctx, letters);
      OneCharIfs(t, rest, ctx, letters);
    }
  }

  lemma OneCharIfs(t: string, rest: string, ctx: Context, letters: char -> bool)
    requires t != "" && MatchIf(t + rest, letters) == None
    requires RenderIfBlocks(t[1..] + rest, ctx, letters) == t[1..] + RenderIfBlocks(rest, ctx, letters)
    ensures RenderIfBlocks(t + rest, ctx, letters) == t + RenderIfBlocks(rest, ctx, letters)
  {
    FirstChar(t, rest);
    IfsStep(t + rest, ctx, letters);
    FirstChar(t, RenderIfBlocks(rest, ctx, letters));
  }

  lemma IfsStep(s: string, ctx: Context, letters: char -> bool)
    requires s != "" && MatchIf(s, letters) == None
    ensures RenderIfBlocks(s, ctx, letters) == [s[0]] + RenderIfBlocks(s[1..], ctx, letters)
  {
  }

  lemma IfTag(cond: string, body: string, rest: string, letters: char -> bool)
    requires IsName(cond, letters) && EndInert(body, "{% endif %}")
    ensures MatchIf("{% if " + (cond + (" %}" + (body + "{% endif %}"))) + rest, letters)
            == Some(IfMatch(cond, body, rest))
  {
    var close := "{% endif %}";
    var s2 := body + (close + rest);
    var s1 := cond + (" %}" + s2);
    Assoc(body, close, rest);
    Assoc(" %}", body + close, rest);
    Assoc(cond, " %}" + (body + close), rest);
    Assoc("{% if ", cond + (" %}" + (body + close)), rest);
    AfterOf("{% if ", s1);
    CutNameOf(cond, " %}", s2, letters);
    BodyCut(body, close, rest);
  }

  // A leaf inside of an if-block, after the loops have been unrolled.
  ghost predicate InnerOk(l: Leaf, shown: bool, ctx: Context, letters: char -> bool) {
    match l
    case Text(s) => Survives(s, Inside(shown), letters)
    case Var(x) => IsName(x, letters) && (shown ==> VarInert(Lookup(ctx, x), letters))
  }

  ghost predicate InnersOk(ls: seq<Leaf>, shown: bool, ctx: Context, letters: char -> bool) {
    forall i :: 0 <= i < |ls| ==> InnerOk(ls[i], shown, ctx, letters)
  }

  ghost predicate FlatOk(f: Flat, ctx: Context, letters: char -> bool) {
    match f
    case Lit(Text(s)) => Survives(s, Outside, letters)
    case Lit(Var(x)) => IsName(x, letters)
    case Cond(cond, body) => IsName(cond, letters) && InnersOk(body, Holds(ctx, cond), ctx, letters)
  }

  lemma TagOfVar(x: string, letters: char -> bool)
    requires IsName(x, letters)
    ensures Quiet("{{" + x + "}}")
  {
    forall i | 0 <= i < |x|
      ensures x[i] != '{' && x[i] != '%'
    {
      assert IsWord(x[i], letters);
    }
  }

  lemma {:induction false} InnersEnd(ls: seq<Leaf>, shown: bool, ctx: Context, letters: char -> bool)
    requires InnersOk(ls, shown, ctx, letters)
    ensures EndInert(PrintLeaves(ls), "{% endif %}")
  {
    if ls != [] {
      var close := "{% endif %}";
      InnersEnd(ls[1..], shown, ctx, letters);
      assert InnerOk(ls[0], shown, ctx, letters);
      if ls[0].Var? {
        TagOfVar(ls[0].name, letters);
        QuietInert(PrintLeaf(ls[0]), close, letters);
      }
      EndInertConcat(PrintLeaf(ls[0]), PrintLeaves(ls[1..]), close);
    }
  }

  lemma {:induction false} InnersShow(ls: seq<Leaf>, ctx: Context, letters: char -> bool)
    requires InnersOk(ls, true, ctx, letters)
    ensures LeavesRead(ls, letters) && VarInert(EvalLeaves(ls, ctx), letters)
  {
    if ls != [] {
      InnersShow(ls[1..], ctx, letters);
      assert InnerOk(ls[0], true, ctx, letters);
      InertConcat(EvalLeaf(ls[0], ctx), EvalLeaves(ls[1..], ctx), "{{", "}}", letters);
    }
  }

  // What the if pass turns a flat node into.
  function Resolve(f: Flat, ctx: Context): Leaf {
    match f
    case Lit(l) => l
    case Cond(cond, body) => Text(if Holds(ctx, cond) then EvalLeaves(body, ctx) else "")
  }

  function ResolveAll(fs: seq<Flat>, ctx: Context): seq<Leaf> {
    if fs == [] then [] else [Resolve(fs[0], ctx)] + ResolveAll(fs[1..], ctx)
  }

  lemma FlatStep(f: Flat, rest: string, ctx: Context, letters: char -> bool)
    requires FlatOk(f, ctx, letters)
    ensures RenderIfBlocks(PrintFlat(f) + rest, ctx, letters)
            == PrintLeaf(Resolve(f, ctx)) + RenderIfBlocks(rest, ctx, letters)
    ensures LeafReads(Resolve(f, ctx), letters)
  {
    match f
    case Lit(l) =>
      if l.Var? {
        TagOfVar(l.name, letters);
        QuietInert(PrintLeaf(l), "{% endif %}", letters);
      }
      IfsSkip(PrintLeaf(l), rest, ctx, letters);
    case Cond(cond, body) =>
      InnersEnd(body, Holds(ctx, cond), ctx, letters);
      IfTag(cond, PrintLeaves(body), rest, letters);
      if Holds(ctx, cond) {
        InnersShow(body, ctx, letters);
        VarsLeaves(body, ctx, letters);
      }
  }

  lemma {:induction false} IfPass(fs: seq<Flat>, ctx: Context, letters: char -> bool)
    requires FlatsOk(fs, ctx, letters)
    ensures RenderIfBlocks(PrintFlats(fs), ctx, letters) == PrintLeaves(ResolveAll(fs, ctx))
    ensures LeavesRead(ResolveAll(fs, ctx), letters)
  {
    if fs != [] {
      FlatStep(fs[0], PrintFlats(fs[1..]), ctx, letters);
      IfPass(fs[1..], ctx, letters);
    }
  }

  // ---------- Evaluation commutes with the passes ----------

  lemma {:induction false} EvalExpandedParts(ps: seq<Part>, ctx: Context)
    ensures EvalLeaves(ExpandParts(ps, ctx), ctx) == EvalParts(ps, ctx)
  {
    if ps != [] { EvalExpandedParts(ps[1..], ctx); }
  }

  lemma {:induction false} EvalResolved(ns: seq<Node>, ctx: Context)
    ensures EvalLeaves(ResolveAll(ExpandNodes(ns, ctx), ctx), ctx) == EvalNodes(ns, ctx)
  {
    if ns != [] {
      EvalResolved(ns[1..], ctx);
      if ns[0].If? { EvalExpandedParts(ns[0].body, ctx); }
    }
  }

  // ---------- Text put in by loops survives ----------

  lemma SurvivesConcat(a: string, b: string, place: Place, letters: char -> bool)
    requires Survives(a, place, letters) && Survives(b, place, letters)
    ensures Survives(a + b, place, letters)
  {
    if place.Outside? || place.shown { InertConcat(a, b, "{{", "}}", letters); }
    match place
    case Outside => InertConcat(a, b, "{% if ", " %}", letters);
    case Inside(_) => EndInertConcat(a, b, "{% endif %}");
  }

  lemma HarmlessSurvives(t: string, place: Place, letters: char -> bool)
    requires Harmless(t)
    ensures Survives(t, place, letters)
  {
    QuietInert(t, "{% endif %}", letters);
    UnpairedInert(t, letters);
  }

  lemma {:induction false} EvalLeavesSurvive(ls: seq<Leaf>, ctx: Context, place: Place, letters: char -> bool)
    requires LeavesOk(ls, letters) && LeavesSurvive(ls, ctx, place, letters)
    ensures Survives(EvalLeaves(ls, ctx), place, letters)
  {
    if ls == [] {
      HarmlessSurvives(EvalLeaves(ls, ctx), place, letters);
    } else {
      assert LeafOk(ls[0], letters) && (ls[0].Var? ==> Survives(Lookup(ctx, ls[0].name), place, letters));
      if ls[0].Text? { HarmlessSurvives(ls[0].s, place, letters); }
      assert forall i :: 0 <= i < |ls[1..]| ==> ls[1..][i] == ls[i + 1];
      EvalLeavesSurvive(ls[1..], ctx, place, letters);
      SurvivesConcat(EvalLeaf(ls[0], ctx), EvalLeaves(ls[1..], ctx), place, letters);
    }
  }

  lemma {:induction false} JoinedBodiesSurvive(items: seq<Value>, item: string, body: seq<Leaf>, ctx: Context,
                                               place: Place, letters: char -> bool)
    requires LeavesOk(body, letters)
    requires forall i :: 0 <= i < |items| ==> LeavesSurvive(body, ctx[item := items[i]], place, letters)
    ensures Survives(Join(EvalBodies(items, item, body, ctx), "\n"), place, letters)
  {
    if items == [] {
      HarmlessSurvives(Join(EvalBodies(items, item, body, ctx), "\n"), place, letters);
    } else {
      assert LeavesSurvive(body, ctx[item := items[0]], place, letters);
      EvalLeavesSurvive(body, ctx[item := items[0]], place, letters);
      assert forall i :: 0 <= i < |items[1..]| ==> items[1..][i] == items[i + 1];
      JoinedBodiesSurvive(items[1..], item, body, ctx, place, letters);
      JoinSurvives(EvalLeaves(body, ctx[item := items[0]]), EvalBodies(items[1..], item, body, ctx), place, letters);
    }
  }

  lemma JoinSurvives(first: string, rest: seq<string>, place: Place, letters: char -> bool)
    requires Survives(first, place, letters) && Survives(Join(rest, "\n"), place, letters)
    ensures Survives(Join([first] + rest, "\n"), place, letters)
  {
    assert ([first] + rest)[1..] == rest;
    HarmlessSurvives("\n", place, letters);
    SurvivesConcat("\n", Join(rest, "\n"), place, letters);
    SurvivesConcat(first, "\n" + Join(rest, "\n"), place, letters);
    Assoc(first, "\n", Join(rest, "\n"));
  }

  lemma LoopExpandsOk(p: Part, ctx: Context, place: Place, letters: char -> bool)
    requires p.For? && PartOk(p, letters) && LoopSurvives(p, ctx, place, letters)
    ensures Survives(EvalPart(p, ctx), place, letters)
  {
    if Items(ctx, p.list).Some? {
      JoinedBodiesSurvive(Items(ctx, p.list).value, p.item, p.body, ctx, place, letters);
    } else {
      HarmlessSurvives(EvalPart(p, ctx), place, letters);
    }
  }

  lemma {:induction false} PartsExpandOk(cond: string, ps: seq<Part>, ctx: Context, letters: char -> bool)
    requires PartsOk(ps, letters) && BodySurvives(cond, ps, ctx, letters)
    ensures InnersOk(ExpandParts(ps, ctx), Holds(ctx, cond), ctx, letters)
  {
    if ps != [] {
      InnerExpandsOk(cond, ps[0], ctx, letters);
      assert forall i :: 0 <= i < |ps[1..]| ==> ps[1..][i] == ps[i + 1];
      PartsExpandOk(cond, ps[1..], ctx, letters);
    }
  }

  lemma InnerExpandsOk(cond: string, p: Part, ctx: Context, letters: char -> bool)
    requires PartOk(p, letters) && LoopSurvives(p, ctx, Inside(Holds(ctx, cond)), letters)
    requires Holds(ctx, cond) && p.Plain? && p.leaf.Var? ==> VarInert(Lookup(ctx, p.leaf.name), letters)
    ensures InnerOk(ExpandPart(p, ctx), Holds(ctx, cond), ctx, letters)
  {
    match p
    case Plain(l) => if l.Text? { HarmlessSurvives(l.s, Inside(Holds(ctx, cond)), letters); }
    case For(_, _, _) => LoopExpandsOk(p, ctx, Inside(Holds(ctx, cond)), letters);
  }

  lemma NodeExpandsOk(n: Node, ctx: Context, letters: char -> bool)
    requires NodeOk(n, letters) && NodeSurvives(n, ctx, letters)
    ensures FlatOk(ExpandNode(n, ctx), ctx, letters)
  {
    match n
    case Single(Plain(l)) => if l.Text? { HarmlessSurvives(l.s, Outside, letters); }
    case Single(For(_, _, _)) => LoopExpandsOk(n.part, ctx, Outside, letters);
    case If(cond, body) => PartsExpandOk(cond, body, ctx, letters);
  }

  lemma {:induction false} NodesExpandOk(ns: seq<Node>, ctx: Context, letters: char -> bool)
    requires NodesOk(ns, letters) && NodesSurvive(ns, ctx, letters)
    ensures FlatsOk(ExpandNodes(ns, ctx), ctx, letters)
  {
    if ns != [] {
      assert forall i :: 0 <= i < |ns[1..]| ==> ns[1..][i] == ns[i + 1];
      NodesExpandOk(ns[1..], ctx, letters);
      NodeExpandsOk(ns[0], ctx, letters);
      FlatsCons(ExpandNode(ns[0], ctx), ExpandNodes(ns[1..], ctx), ctx, letters);
    }
  }

  ghost predicate FlatsOk(fs: seq<Flat>, ctx: Context, letters: char -> bool) {
    forall i :: 0 <= i < |fs| ==> FlatOk(fs[i], ctx, letters)
  }

  lemma FlatsCons(f: Flat, fs: seq<Flat>, ctx: Context, letters: char -> bool)
    requires FlatOk(f, ctx, letters) && FlatsOk(fs, ctx, letters)
    ensures FlatsOk([f] + fs, ctx, letters)
  {
    forall i | 0 <= i < |[f] + fs|
      ensures FlatOk(([f] + fs)[i], ctx, letters)
    {
      assert i > 0 ==> ([f] + fs)[i] == fs[i - 1];
    }
  }

  // Rendering a printed template is evaluating its tree, and fails exactly when some loop - even
  // one inside an if-block whose condition is false - meets a value that cannot be iterated.
  lemma RenderIsEval(ns: seq<Node>, ctx: Context, letters: char -> bool)
    requires NodesOk(ns, letters) && NodesSurvive(ns, ctx, letters)
    ensures Render(PrintNodes(ns), ctx, letters)
            == if NodesIterate(ns, ctx) then Some(PyStrip(EvalNodes(ns, ctx))) else None
  {
    LoopPass(ns, ctx, letters);
    if NodesIterate(ns, ctx) {
      NodesExpandOk(ns, ctx, letters);
      IfPass(ExpandNodes(ns, ctx), ctx, letters);
      VarsLeaves(ResolveAll(ExpandNodes(ns, ctx), ctx), ctx, letters);
      EvalResolved(ns, ctx);
    }
  }
}
