// What a template shows for a value that is there, that is missing, or that is None, told from the
// context alone.
module TemplateValues {
  import opened Text
  import opened Wrappers
  import opened PromptTemplate

  // ---------- Templates of three nodes ----------

  function Words(t: string): Node {
    Single(Plain(Text(t)))
  }

  lemma PrintThree(a: string, n: Node, b: string)
    ensures PrintNodes([Words(a), n, Words(b)]) == a + PrintNode(n) + b
  {
    var ns := [Words(a), n, Words(b)];
    assert ns[1..] == [n, Words(b)] && ns[1..][1..] == [Words(b)] && ns[1..][1..][1..] == [];
    assert PrintNodes([Words(b)]) == b + "" == b;
    assert a + (PrintNode(n) + b) == a + PrintNode(n) + b;
  }

  lemma EvalThree(a: string, n: Node, b: string, ctx: Context)
    ensures EvalNodes([Words(a), n, Words(b)], ctx) == a + EvalNode(n, ctx) + b
  {
    var ns := [Words(a), n, Words(b)];
    assert ns[1..] == [n, Words(b)] && ns[1..][1..] == [Words(b)] && ns[1..][1..][1..] == [];
    assert EvalNodes([Words(b)], ctx) == b + "" == b;
    assert a + (EvalNode(n, ctx) + b) == a + EvalNode(n, ctx) + b;
  }

  lemma IteratesThree(a: string, n: Node, b: string, ctx: Context)
    ensures NodesIterate([Words(a), n, Words(b)], ctx) <==> NodeIterates(n, ctx)
  {
    var ns := [Words(a), n, Words(b)];
    assert ns[1..] == [n, Words(b)] && ns[1..][1..] == [Words(b)] && ns[1..][1..][1..] == [];
    assert NodesIterate([Words(b)], ctx);
    assert NodesIterate(ns[1..], ctx) == NodeIterates(n, ctx);
  }

  // Between harmless texts.
  lemma RenderThree(a: string, n: Node, b: string, template: string, ctx: Context, letters: char -> bool)
    requires Harmless(a) && Harmless(b) && NodeOk(n, letters) && NodeSurvives(n, ctx, letters)
    requires template == a + PrintNode(n) + b
    ensures Render(template, ctx, letters)
            == if NodeIterates(n, ctx) then Some(PyStrip(a + EvalNode(n, ctx) + b)) else None
  {
    var ns := [Words(a), n, Words(b)];
    PrintThree(a, n, b);
    EvalThree(a, n, b, ctx);
    IteratesThree(a, n, b, ctx);
    RenderIsEval(ns, ctx, letters);
  }

  lemma NothingBetween(a: string, b: string)
    ensures a + "" + b == a + b
  {
  }

  // ---------- Variables ----------

  // A variable shows its value; one that is missing or None shows nothing.
  lemma VariableShown(a: string, x: string, b: string, template: string, ctx: Context, letters: char -> bool)
    requires Harmless(a) && Harmless(b) && IsName(x, letters)
    requires template == a + ("{{" + x + "}}") + b
    ensures Render(template, ctx, letters)
            == Some(PyStrip(if x !in ctx || ctx[x] == NoneValue then a + b else a + ctx[x].shown + b))
  {
    RenderThree(a, Single(Plain(Var(x))), b, template, ctx, letters);
    NothingBetween(a, b);
  }

  // ---------- If-blocks ----------

  lemma IfNode(x: string, body: string, ctx: Context, letters: char -> bool) returns (n: Node)
    requires Harmless(body) && IsName(x, letters)
    ensures NodeOk(n, letters) && NodeSurvives(n, ctx, letters) && NodeIterates(n, ctx)
    ensures PrintNode(n) == "{% if " + (x + (" %}" + (body + "{% endif %}")))
    ensures EvalNode(n, ctx) == if x in ctx && ctx[x] != NoneValue && ctx[x].truthy then body else ""
  {
    var inner := [Plain(Text(body))];
    assert inner[1..] == [];
    assert PrintParts(inner) == body + PrintParts([]) == body;
    assert EvalParts(inner, ctx) == body + EvalParts([], ctx) == body;
    n := If(x, inner);
  }

  // An if-block is shown exactly when its name is there, not None, and true.
  lemma BlockShown(a: string, x: string, body: string, b: string, template: string, ctx: Context,
                   letters: char -> bool)
    requires Harmless(a) && Harmless(body) && Harmless(b) && IsName(x, letters)
    requires template == a + ("{% if " + (x + (" %}" + (body + "{% endif %}")))) + b
    ensures Render(template, ctx, letters)
            == Some(PyStrip(if x in ctx && ctx[x] != NoneValue && ctx[x].truthy then a + body + b else a + b))
  {
    var n := IfNode(x, body, ctx, letters);
    RenderThree(a, n, b, template, ctx, letters);
    NothingBetween(a, b);
  }

  // ---------- Loops ----------

  // One round of a loop over its variable between two texts.
  function Round(v: Value, head: string, tail: string): string {
    if v == NoneValue then head + tail else head + v.shown + tail
  }

  function Rounds(items: seq<Value>, head: string, tail: string): seq<string> {
    if items == [] then [] else [Round(items[0], head, tail)] + Rounds(items[1..], head, tail)
  }

  ghost predicate ShownHarmless(items: seq<Value>) {
    forall i :: 0 <= i < |items| && items[i] != NoneValue ==> Harmless(items[i].shown)
  }

  function LoopBody(item: string, head: string, tail: string): seq<Leaf> {
    [Text(head), Var(item), Text(tail)]
  }

  lemma PrintBody(item: string, head: string, tail: string)
    ensures PrintLeaves(LoopBody(item, head, tail)) == head + ("{{" + item + "}}") + tail
  {
    var body := LoopBody(item, head, tail);
    assert body[1..] == [Var(item), Text(tail)] && body[1..][1..] == [Text(tail)] && body[1..][1..][1..] == [];
    assert PrintLeaves([Text(tail)]) == tail + "" == tail;
    assert head + (("{{" + item + "}}") + tail) == head + ("{{" + item + "}}") + tail;
  }

  lemma EvalBody(v: Value, item: string, head: string, tail: string, ctx: Context)
    ensures EvalLeaves(LoopBody(item, head, tail), ctx[item := v]) == Round(v, head, tail)
  {
    var body, shown := LoopBody(item, head, tail), if v == NoneValue then "" else v.shown;
    assert body[1..] == [Var(item), Text(tail)] && body[1..][1..] == [Text(tail)] && body[1..][1..][1..] == [];
    assert EvalLeaves([Text(tail)], ctx[item := v]) == tail + "" == tail;
    assert head + (shown + tail) == head + shown + tail && head + "" == head;
  }

  lemma {:induction false} EvalRounds(items: seq<Value>, item: string, head: string, tail: string, ctx: Context)
    ensures EvalBodies(items, item, LoopBody(item, head, tail), ctx) == Rounds(items, head, tail)
  {
    if items != [] {
      EvalBody(items[0], item, head, tail, ctx);
      EvalRounds(items[1..], item, head, tail, ctx);
    }
  }

  lemma RoundsSurvive(items: seq<Value>, item: string, head: string, tail: string, ctx: Context, letters: char -> bool)
    requires ShownHarmless(items)
    ensures forall i :: 0 <= i < |items| ==>
              LeavesSurvive(LoopBody(item, head, tail), ctx[item := items[i]], Outside, letters)
  {
    forall i | 0 <= i < |items|
      ensures LeavesSurvive(LoopBody(item, head, tail), ctx[item := items[i]], Outside, letters)
    {
      HarmlessSurvives(Lookup(ctx[item := items[i]], item), Outside, letters);
    }
  }

  // What a loop shows, or None if it fails.
  function LoopText(list: string, head: string, tail: string, ctx: Context): Option<string> {
    if list !in ctx then Some("")
    else if ctx[list] == NoneValue || ctx[list].items.None? then None
    else Some(Join(Rounds(ctx[list].items.value, head, tail), "\n"))
  }

  lemma LoopNode(item: string, list: string, head: string, tail: string, ctx: Context, letters: char -> bool)
      returns (n: Node)
    requires Harmless(head) && Harmless(tail) && IsName(item, letters) && IsName(list, letters)
    requires list in ctx && ctx[list] != NoneValue && ctx[list].items.Some? ==> ShownHarmless(ctx[list].items.value)
    ensures NodeOk(n, letters) && NodeSurvives(n, ctx, letters)
    ensures NodeIterates(n, ctx) == LoopText(list, head, tail, ctx).Some?
    ensures NodeIterates(n, ctx) ==> EvalNode(n, ctx) == LoopText(list, head, tail, ctx).value
    ensures PrintNode(n) == "{% for " + (item + (" in " + (list + (" %}" + (head + ("{{" + item + "}}") + tail
                                                                              + "{% endfor %}")))))
  {
    var p := For(item, list, LoopBody(item, head, tail));
    n := Single(p);
    PrintBody(item, head, tail);
    if list in ctx && ctx[list] != NoneValue && ctx[list].items.Some? {
      RoundsSurvive(ctx[list].items.value, item, head, tail, ctx, letters);
      EvalRounds(ctx[list].items.value, item, head, tail, ctx);
    }
  }

  // A loop shows one round per item, in order, one line each, and nothing if its list is missing. It
  // fails exactly when the list is None or cannot be iterated.
  lemma LoopShown(a: string, item: string, list: string, head: string, tail: string, b: string, template: string,
                  ctx: Context, letters: char -> bool)
    requires Harmless(a) && Harmless(b) && Harmless(head) && Harmless(tail) && IsName(item, letters)
    requires IsName(list, letters)
    requires list in ctx && ctx[list] != NoneValue && ctx[list].items.Some? ==> ShownHarmless(ctx[list].items.value)
    requires template == a + ("{% for " + (item + (" in " + (list + (" %}" + (head + ("{{" + item + "}}") + tail
                                                                              + "{% endfor %}")))))) + b
    ensures var text := LoopText(list, head, tail, ctx);
            Render(template, ctx, letters) == if text.Some? then Some(PyStrip(a + text.value + b)) else None
  {
    var n := LoopNode(item, list, head, tail, ctx, letters);
    RenderThree(a, n, b, template, ctx, letters);
  }
}
