// Text that a loop or an if-block of a prompt template shows is scanned again by the later passes: which
// text they leave alone, exactly, and what goes wrong with other text.
module RescannedText {
  import opened PromptTemplate
  import opened Text
  import opened Wrappers

  function Rescanned(t: string, ctx: Context, letters: char -> bool): string {
    RenderVariables(RenderIfBlocks(t, ctx, letters), ctx, letters)
  }

  // A tag that begins in t is replaced, when its name stands for a text that does not begin with a brace.
  lemma {:induction false} VarsDiffer(t: string, rest: string, i: nat, letters: char -> bool) returns (ctx: Context)
    requires i < |t| && MatchVar((t + rest)[i..], letters).Some?
    ensures RenderVariables(t + rest, ctx, letters) != t + RenderVariables(rest, ctx, letters)
    decreases |t|
  {
    var s := t + rest;
    assert s[0..] == s && s[1..] == t[1..] + rest;
    if MatchVar(s, letters).Some? {
      ctx := TagDiffers(t, rest, s, letters);
    } else {
      assert s[1..][i - 1..] == s[i..];
      ctx := VarsDiffer(t[1..], rest, i - 1, letters);
      LaterDiffers(t, rest, s, ctx, letters);
    }
  }

  lemma TagDiffers(t: string, rest: string, s: string, letters: char -> bool) returns (ctx: Context)
    requires t != "" && s == t + rest && MatchVar(s, letters).Some?
    ensures RenderVariables(s, ctx, letters) != t + RenderVariables(rest, ctx, letters)
  {
    var m, open := MatchVar(s, letters).value, "{{";
    ctx := map[m.captured := Obj("x", true, None)];
    PrefixChars(s, open);
    assert Lookup(ctx, m.captured) == "x" && t[0] == s[0] == open[0];
    assert RenderVariables(s, ctx, letters) == "x" + RenderVariables(m.rest, ctx, letters);
    assert (t + RenderVariables(rest, ctx, letters))[0] == '{'
           && ("x" + RenderVariables(m.rest, ctx, letters))[0] == 'x';
  }

  lemma LaterDiffers(t: string, rest: string, s: string, ctx: Context, letters: char -> bool)
    requires t != "" && s == t + rest && MatchVar(s, letters) == None
    requires RenderVariables(t[1..] + rest, ctx, letters) != t[1..] + RenderVariables(rest, ctx, letters)
    ensures RenderVariables(s, ctx, letters) != t + RenderVariables(rest, ctx, letters)
  {
    FirstChar(t, rest);
    VarsStep(s, ctx, letters);
    FirstChar(t, RenderVariables(rest, ctx, letters));
    ConsDiffers(t[0], RenderVariables(t[1..] + rest, ctx, letters), t[1..] + RenderVariables(rest, ctx, letters));
  }

  lemma ConsDiffers(c: char, x: string, y: string)
    requires x != y
    ensures [c] + x != [c] + y
  {
    assert ([c] + x)[1..] == x && ([c] + y)[1..] == y;
  }

  lemma MatchWithin(t: string, i: nat, rest: string, letters: char -> bool)
    requires i < |t| && Opened(t[i..] + rest, "{{", "}}", letters)
    ensures MatchVar((t + rest)[i..], letters).Some?
  {
    assert (t + rest)[i..] == t[i..] + rest;
  }

  // The variable pass leaves a text alone, whatever follows it and whatever the context, exactly when
  // no part of it can go on to a variable tag. This is what a variable inside of an if-block shows.
  lemma VariableLeftAloneIff(t: string, letters: char -> bool)
    ensures (forall rest, ctx :: RenderVariables(t + rest, ctx, letters) == t + RenderVariables(rest, ctx, letters))
            <==> VarInert(t, letters)
  {
    if VarInert(t, letters) {
      forall rest, ctx ensures RenderVariables(t + rest, ctx, letters) == t + RenderVariables(rest, ctx, letters) {
        VarsSkip(t, rest, ctx, letters);
      }
    } else {
      var i :| 0 <= i < |t| && CanOpen(t[i..], "{{", "}}", letters);
      var rest, ctx := VarsDifferAt(t, i, "{{", "}}", letters);
    }
  }

  // With nothing in the context every tag disappears.
  lemma {:induction false} VarsShrink(t: string, ctx: Context, letters: char -> bool)
    requires ctx == map[]
    ensures |RenderVariables(t, ctx, letters)| <= |t|
    ensures |RenderVariables(t, ctx, letters)| == |t| ==>
              RenderVariables(t, ctx, letters) == t && forall i :: 0 <= i < |t| ==> MatchVar(t[i..], letters) == None
    decreases |t|
  {
    if t != "" {
      var m := MatchVar(t, letters);
      assert t[0..] == t && [t[0]] + t[1..] == t;
      if m.Some? {
        VarsShrink(m.value.rest, ctx, letters);
      } else {
        VarsShrink(t[1..], ctx, letters);
        assert forall i :: 0 < i < |t| ==> t[i..] == t[1..][i - 1..];
      }
    }
  }

  lemma {:induction false} IfsShrink(t: string, ctx: Context, letters: char -> bool)
    requires ctx == map[]
    ensures |RenderIfBlocks(t, ctx, letters)| <= |t|
    ensures |RenderIfBlocks(t, ctx, letters)| == |t| ==>
              RenderIfBlocks(t, ctx, letters) == t && forall i :: 0 <= i < |t| ==> MatchIf(t[i..], letters) == None
    decreases |t|
  {
    if t != "" {
      var m := MatchIf(t, letters);
      assert t[0..] == t && [t[0]] + t[1..] == t;
      if m.Some? {
        IfsShrink(m.value.rest, ctx, letters);
      } else {
        IfsShrink(t[1..], ctx, letters);
        assert forall i :: 0 < i < |t| ==> t[i..] == t[1..][i - 1..];
      }
    }
  }

  // What completes a tag holds no brace of its own, apart from that of a half-open one.
  lemma TailQuiet(u: string, open: string, close: string, letters: char -> bool)
    requires u != "" && CanOpen(u, open, close, letters) && '{' !in close
    requires |open| > 1 && open[0] == '{' && forall i :: 2 <= i < |open| ==> open[i] != '{'
    requires open[1] == '{' ==> |open| == 2
    ensures Quiet(Tail(u, open, close, letters))
    ensures open[1] != '{' ==> '{' !in Tail(u, open, close, letters)
  {
    var tail := Tail(u, open, close, letters);
    if |u| < |open| {
      var left := open[|u|..];
      assert tail == left + ("x" + close);
      forall i | 0 <= i < |tail| && tail[i] == '{'
        ensures i == 0 && |u| == 1 && open[1] == '{' && |tail| > 1 && tail[1] != '%'
      {
        assert i < |left| && left[i] == open[|u| + i];
        assert |open| == 2 ==> |left| == 1 && tail[1] == 'x';
      }
    } else {
      var v := u[|open|..];
      var w := v[WordRun(v, letters)..];
      forall i | 0 <= i < |tail| ensures tail[i] != '{' {
        if w != "" && StartsWith(close, w) { assert tail[i] == close[|w| + i]; }
      }
    }
  }

  lemma FollowedByEnd(a: string, letters: char -> bool)
    requires Opened(a, "{% if ", " %}", letters)
    ensures MatchIf(a + "{% endif %}", letters).Some?
  {
    var open, close, end := "{% if ", " %}", "{% endif %}";
    var v := After(a, open).value;
    assert (a + end)[..|open|] == a[..|open|] && (a + end)[|open|..] == v + end;
    NameThenMore(v, close, end, letters);
    var body := CutName(v, close, letters).value.rest;
    assert (body + end)[|body|..] == end && end[..|end|] == end;
    assert StartsWith((body + end)[|body|..], end);
  }

  lemma NameThenMore(v: string, close: string, more: string, letters: char -> bool)
    requires close != "" && CutName(v, close, letters).Some?
    ensures var name := CutName(v, close, letters).value;
            CutName(v + more, close, letters) == Some(Cut(name.captured, name.rest + more))
  {
    var n := WordRun(v, letters);
    RunStays(v, more, letters);
    assert (v + more)[n..] == v[n..] + more && (v + more)[..n] == v[..n];
    assert (v[n..] + more)[..|close|] == v[n..][..|close|];
    assert (v[n..] + more)[|close|..] == v[n..][|close|..] + more;
  }

  // The two passes leave alone what completes an if tag and closes the block.
  lemma EndLeftAlone(tail: string, end: string, ctx: Context, letters: char -> bool)
    requires '{' !in tail && end == "{% endif %}"
    ensures Rescanned(tail + end, ctx, letters) == tail + end
  {
    ClosedText(tail, end, ctx, letters);
  }

  lemma EndInertForIf(end: string, letters: char -> bool)
    requires end == "{% endif %}"
    ensures IfInert(end, letters)
  {
    var open := "{% if ";
    forall i | 0 <= i < |end|
      ensures !CanOpen(end[i..], open, " %}", letters)
    {
      PrefixChars(open, end[i..]);
      PrefixChars(end[i..], open);
      assert open[0] == '{' && open[3] == 'i' && end[i..][0] == end[i] && (i == 0 ==> end[i..][3] == 'e');
    }
  }

  // An if-block that begins in t and is closed after it makes a difference.
  lemma BlockDiffers(t: string, i: nat, tail: string, end: string, ctx: Context, letters: char -> bool)
    requires i < |t| && Opened(t[i..] + tail, "{% if ", " %}", letters) && '{' !in tail
    requires end == "{% endif %}" && ctx == map[]
    ensures Rescanned(t + (tail + end), ctx, letters) != t + Rescanned(tail + end, ctx, letters)
  {
    var s := t + (tail + end);
    FollowedByEnd(t[i..] + tail, letters);
    SuffixOf(t, i, tail, end);
    BlockShrinks(s, i, ctx, letters);
    EndLeftAlone(tail, end, ctx, letters);
  }

  lemma SuffixOf(t: string, i: nat, tail: string, end: string)
    requires i < |t|
    ensures (t + (tail + end))[i..] == (t[i..] + tail) + end
  {
  }

  lemma BlockShrinks(s: string, i: nat, ctx: Context, letters: char -> bool)
    requires i < |s| && MatchIf(s[i..], letters).Some? && ctx == map[]
    ensures |Rescanned(s, ctx, letters)| < |s|
  {
    IfsShrink(s, ctx, letters);
    VarsShrink(RenderIfBlocks(s, ctx, letters), ctx, letters);
  }

  // Text that the if pass leaves alone comes to the variable pass as it is.
  lemma OnlyVariables(t: string, rest: string, ctx: Context, letters: char -> bool)
    requires IfInert(t, letters) && IfInert(rest, letters)
    ensures Rescanned(rest, ctx, letters) == RenderVariables(rest, ctx, letters)
    ensures Rescanned(t + rest, ctx, letters) == RenderVariables(t + rest, ctx, letters)
  {
    assert rest + "" == rest;
    IfsSkip(rest, "", ctx, letters);
    IfsSkip(t, rest, ctx, letters);
  }

  lemma VarsDifferAt(t: string, i: nat, open: string, close: string, letters: char -> bool)
      returns (rest: string, ctx: Context)
    requires open == "{{" && close == "}}" && i < |t| && CanOpen(t[i..], open, close, letters)
    ensures RenderVariables(t + rest, ctx, letters) != t + RenderVariables(rest, ctx, letters) && Quiet(rest)
  {
    rest := Tail(t[i..], open, close, letters);
    TailCompletes(t[i..], open, close, letters);
    TailQuiet(t[i..], open, close, letters);
    MatchWithin(t, i, rest, letters);
    ctx := VarsDiffer(t, rest, i, letters);
  }

  lemma RescanDiffers(t: string, rest: string, ctx: Context, letters: char -> bool)
    requires IfInert(t, letters) && Quiet(rest)
    requires RenderVariables(t + rest, ctx, letters) != t + RenderVariables(rest, ctx, letters)
    ensures Rescanned(t + rest, ctx, letters) != t + Rescanned(rest, ctx, letters)
  {
    QuietInert(rest, "{% endif %}", letters);
    OnlyVariables(t, rest, ctx, letters);
  }

  lemma IfDiffers(t: string, i: nat, open: string, close: string, letters: char -> bool)
      returns (rest: string, ctx: Context)
    requires open == "{% if " && close == " %}"
    requires i < |t| && CanOpen(t[i..], open, close, letters)
    ensures Rescanned(t + rest, ctx, letters) != t + Rescanned(rest, ctx, letters)
  {
    var tail, end := Tail(t[i..], open, close, letters), "{% endif %}";
    TailCompletes(t[i..], open, close, letters);
    TailQuiet(t[i..], open, close, letters);
    rest, ctx := tail + end, map[];
    BlockDiffers(t, i, tail, end, ctx, letters);
  }

  lemma Differs(t: string, letters: char -> bool) returns (rest: string, ctx: Context)
    requires !Survives(t, Outside, letters)
    ensures Rescanned(t + rest, ctx, letters) != t + Rescanned(rest, ctx, letters)
  {
    if !IfInert(t, letters) {
      var i :| 0 <= i < |t| && CanOpen(t[i..], "{% if ", " %}", letters);
      rest, ctx := IfDiffers(t, i, "{% if ", " %}", letters);
    } else {
      var i :| 0 <= i < |t| && CanOpen(t[i..], "{{", "}}", letters);
      rest, ctx := VarsDifferAt(t, i, "{{", "}}", letters);
      RescanDiffers(t, rest, ctx, letters);
    }
  }

  lemma LeftAlone(t: string, rest: string, ctx: Context, letters: char -> bool)
    requires Survives(t, Outside, letters)
    ensures Rescanned(t + rest, ctx, letters) == t + Rescanned(rest, ctx, letters)
  {
    IfsSkip(t, rest, ctx, letters);
    VarsSkip(t, RenderIfBlocks(rest, ctx, letters), ctx, letters);
  }

  // The two later passes leave a text alone, whatever follows it and whatever the context, exactly when
  // no part of it can go on to a variable tag or to an if tag. This is what a loop shows outside of
  // if-blocks.
  lemma LeftAloneIff(t: string, letters: char -> bool)
    ensures (forall rest, ctx :: Rescanned(t + rest, ctx, letters) == t + Rescanned(rest, ctx, letters))
            <==> Survives(t, Outside, letters)
  {
    if Survives(t, Outside, letters) {
      forall rest, ctx ensures Rescanned(t + rest, ctx, letters) == t + Rescanned(rest, ctx, letters) {
        LeftAlone(t, rest, ctx, letters);
      }
    } else {
      var rest, ctx := Differs(t, letters);
    }
  }

  // The search for the end of an if-block passes over a text, whatever follows it, exactly when no part
  // of it can go on to an end tag. Together with the variable pass this is what happens to the text of
  // a loop inside of an if-block.
  lemma EndTagPassesIff(t: string, tag: string)
    requires tag != ""
    ensures (forall rest :: Find(t + rest, tag, 0) == if Find(rest, tag, 0) < 0 then -1 else |t| + Find(rest, tag, 0))
            <==> EndInert(t, tag)
  {
    if EndInert(t, tag) {
      forall rest ensures Find(t + rest, tag, 0) == if Find(rest, tag, 0) < 0 then -1 else |t| + Find(rest, tag, 0) {
        EndTagSkip(t, rest, tag);
      }
    } else {
      var i :| 0 <= i < |t| && CanBegin(t[i..], tag);
      var u := t[i..];
      var rest := if StartsWith(u, tag) then "" else tag[|u|..];
      assert (t + rest)[i..] == u + rest && (u + rest)[..|tag|] == tag;
      assert StartsWith((t + rest)[i..], tag);
      assert 0 <= Find(t + rest, tag, 0) <= i;
    }
  }

  lemma RenderFlats(ns: seq<Node>, s: string, ctx: Context, letters: char -> bool)
    requires NodesOk(ns, letters) && NodesIterate(ns, ctx) && PrintFlats(ExpandNodes(ns, ctx)) == s
    ensures Render(PrintNodes(ns), ctx, letters) == Some(PyStrip(Rescanned(s, ctx, letters)))
  {
    LoopPass(ns, ctx, letters);
  }

  // A loop over one item shows the item's text, rescanned.
  lemma LoopItemRescanned(p: Part, t: string, ctx: Context, letters: char -> bool)
    requires p == For("i", "l", [Var("i")]) && Items(ctx, "l") == Some([Obj(t, true, None)])
    ensures NodesOk([Single(p)], letters) && EvalNodes([Single(p)], ctx) == t
    ensures Render(PrintNodes([Single(p)]), ctx, letters) == Some(PyStrip(Rescanned(t, ctx, letters)))
  {
    var ns := [Single(p)];
    assert PartOk(p, letters) && NodeOk(ns[0], letters);
    OneItem(Obj(t, true, None), p.body, ctx);
    assert EvalNodes(ns, ctx) == t + "" == t;
    LoopPass(ns, ctx, letters);
    assert PrintFlats(ExpandNodes(ns, ctx)) == t + "" == t;
  }

  // The hypothesis on values matters: a loop item that shows as a variable tag is substituted
  // once more, while evaluating the tree gives the tag itself.
  lemma SecondSubstitution(y: string, replacement: Value, letters: char -> bool)
    requires IsName(y, letters) && y != "l"
    ensures var p := For("i", "l", [Var("i")]);
            var ctx := map["l" := Obj("", true, Some([Obj("{{" + y + "}}", true, None)])), y := replacement];
            && NodesOk([Single(p)], letters) && EvalNodes([Single(p)], ctx) == "{{" + y + "}}"
            && Render(PrintNodes([Single(p)]), ctx, letters) == Some(PyStrip(Show(replacement)))
  {
    var tag := "{{" + y + "}}";
    var ctx := map["l" := Obj("", true, Some([Obj(tag, true, None)])), y := replacement];
    LoopItemRescanned(For("i", "l", [Var("i")]), tag, ctx, letters);
    TagResolves(y, ctx, letters);
  }

  lemma TagResolves(y: string, ctx: Context, letters: char -> bool)
    requires IsName(y, letters)
    ensures RenderVariables(RenderIfBlocks("{{" + y + "}}", ctx, letters), ctx, letters) == Lookup(ctx, y)
  {
    var tag := "{{" + y + "}}";
    assert tag + "" == tag && Lookup(ctx, y) + "" == Lookup(ctx, y);
    TagOfVar(y, letters);
    QuietInert(tag, "{% endif %}", letters);
    IfsSkip(tag, "", ctx, letters);
    VarsTag(y, "", ctx, letters);
  }

  lemma OneItem(item: Value, body: seq<Leaf>, ctx: Context)
    requires body == [Var("i")]
    ensures Join(EvalBodies([item], "i", body, ctx), "\n") == Show(item)
  {
    assert EvalLeaves(body, ctx["i" := item]) == Show(item) + "";
    assert [item][1..] == [];
  }

  // ---------- What goes wrong beside other text ----------

  lemma LoopThenText(half: string, text: string, ctx: Context, ns: seq<Node>, letters: char -> bool)
    requires Items(ctx, "l") == Some([Obj(half, true, None)]) && Harmless(text)
    requires ns == [Single(For("i", "l", [Var("i")])), Single(Plain(Leaf.Text(text)))]
    ensures NodesOk(ns, letters) && NodesIterate(ns, ctx) && EvalNodes(ns, ctx) == half + text
    ensures PrintFlats(ExpandNodes(ns, ctx)) == half + text
  {
    assert NodeOk(ns[0], letters) && NodeOk(ns[1], letters);
    OneItem(Obj(half, true, None), [Var("i")], ctx);
    assert ns[1..] == [Single(Plain(Leaf.Text(text)))] && ns[1..][1..] == [];
    assert EvalNodes(ns[1..], ctx) == text + "" == text;
    assert PrintFlats(ExpandNodes(ns[1..], ctx)) == text + "" == text;
    assert ExpandNodes(ns, ctx)[1..] == ExpandNodes(ns[1..], ctx);
  }

  // The end of a variable's tag may stand in the template: a loop item "{{" + a, followed by b + "}}",
  // is rendered to the value of the variable a + b.
  lemma SplitTag(a: string, b: string, ctx: Context, ns: seq<Node>, letters: char -> bool)
    requires IsName(a + b, letters) && Items(ctx, "l") == Some([Obj("{{" + a, true, None)])
    requires ns == [Single(For("i", "l", [Var("i")])), Single(Plain(Leaf.Text(b + "}}")))]
    ensures NodesOk(ns, letters) && NodesIterate(ns, ctx) && EvalNodes(ns, ctx) == "{{" + (a + b) + "}}"
    ensures Render(PrintNodes(ns), ctx, letters) == Some(PyStrip(Lookup(ctx, a + b)))
  {
    var half, text, tag := "{{" + a, b + "}}", "{{" + (a + b) + "}}";
    WordsHarmless(b, a, letters);
    LoopThenText(half, text, ctx, ns, letters);
    Halves(a, b);
    RenderFlats(ns, tag, ctx, letters);
    TagResolves(a + b, ctx, letters);
  }

  lemma Halves(a: string, b: string)
    ensures ("{{" + a) + (b + "}}") == "{{" + (a + b) + "}}"
  {
  }

  lemma WordsHarmless(b: string, a: string, letters: char -> bool)
    requires IsName(a + b, letters)
    ensures Harmless(b + "}}")
  {
    var text := b + "}}";
    forall i | 0 <= i < |text|
      ensures text[i] != '{'
    {
      if i < |b| { assert text[i] == (a + b)[|a| + i] && IsWord((a + b)[|a| + i], letters); }
    }
  }

  lemma LoopInBlock(item: string, ctx: Context, ns: seq<Node>, letters: char -> bool)
    requires Items(ctx, "l") == Some([Obj(item, true, None)]) && "c" !in ctx
    requires ns == [If("c", [For("i", "l", [Var("i")])])]
    ensures NodesOk(ns, letters) && NodesIterate(ns, ctx) && EvalNodes(ns, ctx) == ""
    ensures PrintFlats(ExpandNodes(ns, ctx)) == "{% if " + ("c" + (" %}" + (item + "{% endif %}")))
  {
    var p := For("i", "l", [Var("i")]);
    assert PartOk(p, letters) && NodeOk(ns[0], letters);
    OneItem(Obj(item, true, None), p.body, ctx);
    assert ns[1..] == [] && [p][1..] == [];
    assert PartIterates(p, ctx) && PartsIterate([p], ctx) && NodeIterates(ns[0], ctx);
    assert ExpandParts([p], ctx) == [Leaf.Text(item)] && PrintLeaves([Leaf.Text(item)]) == item + "" == item;
    var tag := "{% if " + ("c" + (" %}" + (item + "{% endif %}")));
    assert PrintFlats(ExpandNodes(ns, ctx)) == tag + "" == tag;
  }

  lemma Regroup(open: string, a: string, end: string, b: string)
    ensures (open + ("c" + (" %}" + (a + end)))) + (b + end) == open + ("c" + (" %}" + ((a + (end + b)) + end)))
  {
  }

  // An if-block whose condition is false disappears up to the first end tag.
  lemma HiddenBlock(cond: string, body: string, rest: string, s: string, ctx: Context, letters: char -> bool)
    requires IsName(cond, letters) && EndInert(body, "{% endif %}") && !Holds(ctx, cond)
    requires s == "{% if " + (cond + (" %}" + (body + "{% endif %}"))) + rest
    ensures RenderIfBlocks(s, ctx, letters) == RenderIfBlocks(rest, ctx, letters)
  {
    IfTag(cond, body, rest, letters);
    assert "" + RenderIfBlocks(rest, ctx, letters) == RenderIfBlocks(rest, ctx, letters);
  }

  lemma LeakedRest(a: string, b: string, end: string, s: string, ctx: Context, letters: char -> bool)
    requires Harmless(a) && Harmless(b) && end == "{% endif %}" && "c" !in ctx
    requires s == "{% if " + ("c" + (" %}" + ((a + (end + b)) + end)))
    ensures Rescanned(s, ctx, letters) == b + end
  {
    QuietInert(a, end, letters);
    Regroup("{% if ", a, end, b);
    HiddenBlock("c", a, b + end, s, ctx, letters);
    ClosedText(b, end, ctx, letters);
  }

  lemma ClosedText(b: string, end: string, ctx: Context, letters: char -> bool)
    requires Harmless(b) && end == "{% endif %}"
    ensures RenderIfBlocks(b + end, ctx, letters) == b + end && RenderVariables(b + end, ctx, letters) == b + end
  {
    ClosedInert(b, end, b + end, letters);
    assert (b + end) + "" == b + end;
    IfsSkip(b + end, "", ctx, letters);
    VarsSkip(b + end, "", ctx, letters);
  }

  lemma ClosedInert(b: string, end: string, t: string, letters: char -> bool)
    requires Harmless(b) && end == "{% endif %}" && t == b + end
    ensures Survives(t, Outside, letters)
  {
    QuietInert(b, end, letters);
    EndInertForIf(end, letters);
    InertConcat(b, end, "{% if ", " %}", letters);
    assert Unpaired(t);
    UnpairedInert(t, letters);
  }

  // A loop item that holds an end tag ends the if-block around its loop: what follows the tag, and the
  // block's own end tag, are rendered although the condition is false.
  lemma LeakedBlock(a: string, b: string, end: string, ctx: Context, ns: seq<Node>, letters: char -> bool)
    requires Harmless(a) && Harmless(b) && end == "{% endif %}" && "c" !in ctx
    requires Items(ctx, "l") == Some([Obj(a + (end + b), true, None)])
    requires ns == [If("c", [For("i", "l", [Var("i")])])]
    ensures NodesOk(ns, letters) && NodesIterate(ns, ctx) && EvalNodes(ns, ctx) == ""
    ensures Render(PrintNodes(ns), ctx, letters) == Some(PyStrip(b + end))
  {
    var s := "{% if " + ("c" + (" %}" + ((a + (end + b)) + end)));
    LoopInBlock(a + (end + b), ctx, ns, letters);
    RenderFlats(ns, s, ctx, letters);
    LeakedRest(a, b, end, s, ctx, letters);
  }
}
