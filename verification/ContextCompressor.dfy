// Context compression: messages are taken greedily in order of importance while they fit the token
// budget, and put back into time order.
module ContextCompressor {
  import opened Sorting
  import opened Text
  import opened Wrappers

  // `isToolResult` is the truth of metadata["is_tool_result"]; a timestamp counts from datetime.min.
  datatype Message = Message(role: string, content: string, timestamp: Option<nat>, isToolResult: bool)

  function Score(m: Message, lower: string -> string): real {
    if m.isToolResult then 1.0
    else if Contains(lower(m.content), "prefer") || Contains(lower(m.content), "always") then 0.9
    else if m.role == "system" then 0.6
    else if m.role == "tool" then 1.0
    else if m.role == "preference" then 0.9
    else if m.role == "user" then 0.5
    else 0.3
  }

  function Tokens(m: Message): nat {
    |m.content| / 4
  }

  function Urgency(lower: string -> string): Message -> real {
    (m: Message) => -Score(m, lower)
  }

  function Time(): Message -> real {
    (m: Message) => if m.timestamp.Some? then m.timestamp.value as real else 0.0
  }

  // ---------- Specification ----------

  // Which messages of a list are taken when `used` tokens are spent already.
  ghost function Choice(s: seq<Message>, used: nat, budget: int): (c: seq<bool>)
    ensures |c| == |s|
  {
    if s == [] then []
    else
      var fits := used + Tokens(s[0]) <= budget;
      [fits] + Choice(s[1..], if fits then used + Tokens(s[0]) else used, budget)
  }

  ghost function Chosen(s: seq<Message>, c: seq<bool>): seq<Message>
    requires |c| == |s|
  {
    if s == [] then [] else if c[0] then [s[0]] + Chosen(s[1..], c[1..])
    else Chosen(s[1..], c[1..])
  }

  ghost function Size(): Message -> nat {
    (m: Message) => Tokens(m)
  }

  ghost function Cost(s: seq<Message>): nat {
    Sum(Size(), s)
  }

  ghost function ByImportance(messages: seq<Message>, lower: string -> string): seq<Message> {
    Sort(messages, Urgency(lower))
  }

  ghost function Compressed(messages: seq<Message>, budget: int, lower: string -> string): seq<Message> {
    var order := ByImportance(messages, lower);
    Sort(Chosen(order, Choice(order, 0, budget)), Time())
  }

  method Compress(messages: seq<Message>, budget: int, lower: string -> string) returns (result: seq<Message>)
    ensures result == Compressed(messages, budget, lower)
  {
    if messages == [] {
      return [];
    }
    var scored := Sort(messages, Urgency(lower));
    result := Select(scored, budget);
    result := Sort(result, Time());
  }

  // The loop that keeps what fits.
  method Select(scored: seq<Message>, budget: int) returns (result: seq<Message>)
    ensures result == Chosen(scored, Choice(scored, 0, budget))
  {
    result := [];
    var currentTokens := 0;
    ghost var c := Choice(scored, 0, budget);
    assert scored[0..] == scored && c[0..] == c;
    for i := 0 to |scored|
      invariant 0 <= currentTokens
      invariant c[i..] == Choice(scored[i..], currentTokens, budget)
      invariant result + Chosen(scored[i..], c[i..]) == Chosen(scored, c)
    {
      var msg := scored[i];
      assert scored[i..][0] == msg && scored[i..][1..] == scored[i + 1..] && c[i..][1..] == c[i + 1..];
      var msgTokens := Tokens(msg);
      if currentTokens + msgTokens <= budget {
        result := result + [msg];
        currentTokens := currentTokens + msgTokens;
      }
    }
    assert scored[|scored|..] == [] && c[|scored|..] == [];
  }

  // ---------- Properties ----------

  lemma {:induction false} CostOfChoice(s: seq<Message>, used: nat, budget: int)
    requires used <= budget
    ensures used + Cost(Chosen(s, Choice(s, used, budget))) <= budget
  {
    if s != [] {
      var fits := used + Tokens(s[0]) <= budget;
      CostOfChoice(s[1..], if fits then used + Tokens(s[0]) else used, budget);
      var c := Choice(s, used, budget);
      assert c[1..] == Choice(s[1..], if fits then used + Tokens(s[0]) else used, budget);
      var rest := Chosen(s[1..], c[1..]);
      assert ([s[0]] + rest)[1..] == rest;
    }
  }

  lemma ChosenStep(s: seq<Message>, c: seq<bool>)
    requires |c| == |s| > 0
    ensures Cost(Chosen(s, c)) == (if c[0] then Tokens(s[0]) else 0) + Cost(Chosen(s[1..], c[1..]))
  {
    var rest := Chosen(s[1..], c[1..]);
    assert ([s[0]] + rest)[1..] == rest;
  }

  // c precedes d when at the first difference only d takes the message.
  ghost predicate LexLeq(c: seq<bool>, d: seq<bool>)
    requires |c| == |d|
  {
    c == [] || (!c[0] && d[0]) || (c[0] == d[0] && LexLeq(c[1..], d[1..]))
  }

  lemma {:induction false} GreedyIsGreatest(s: seq<Message>, c: seq<bool>, used: nat, budget: int)
    requires |c| == |s| && used + Cost(Chosen(s, c)) <= budget
    ensures LexLeq(c, Choice(s, used, budget))
  {
    if s != [] {
      ChosenStep(s, c);
      var fits := used + Tokens(s[0]) <= budget;
      var g := Choice(s, used, budget);
      assert g[1..] == Choice(s[1..], if fits then used + Tokens(s[0]) else used, budget);
      if c[0] == g[0] {
        GreedyIsGreatest(s[1..], c[1..], if fits then used + Tokens(s[0]) else used, budget);
      }
    }
  }

  lemma {:induction false} DroppedDoNotFit(s: seq<Message>, used: nat, budget: int, i: nat)
    requires i < |s| && !Choice(s, used, budget)[i]
    ensures used + Cost(Chosen(s, Choice(s, used, budget))) + Tokens(s[i]) > budget
  {
    var fits := used + Tokens(s[0]) <= budget;
    var c := Choice(s, used, budget);
    assert c[1..] == Choice(s[1..], if fits then used + Tokens(s[0]) else used, budget);
    ChosenStep(s, c);
    if i > 0 {
      DroppedDoNotFit(s[1..], if fits then used + Tokens(s[0]) else used, budget, i - 1);
    }
  }

  lemma {:induction false} ChosenWithin(s: seq<Message>, c: seq<bool>)
    requires |c| == |s|
    ensures multiset(Chosen(s, c)) <= multiset(s)
  {
    if s != [] {
      ChosenWithin(s[1..], c[1..]);
      assert s == [s[0]] + s[1..];
    }
  }

  // The result is in time order, a sub-multiset of the messages, and within the budget.
  lemma CompressedFits(messages: seq<Message>, budget: int, lower: string -> string)
    ensures var r := Compressed(messages, budget, lower);
            && Sorted(r, Time()) && multiset(r) <= multiset(messages)
            && (if budget >= 0 then Cost(r) <= budget else r == [])
  {
    var order := ByImportance(messages, lower);
    var c := Choice(order, 0, budget);
    var taken := Chosen(order, c);
    SortSorted(taken, Time());
    ChosenWithin(order, c);
    SumOfMultiset(Size(), taken, Sort(taken, Time()));
    if budget >= 0 { CostOfChoice(order, 0, budget); } else { NothingFits(order, 0, budget); }
  }

  lemma {:induction false} NothingFits(s: seq<Message>, used: nat, budget: int)
    requires budget < 0
    ensures Chosen(s, Choice(s, used, budget)) == []
  {
    if s != [] {
      NothingFits(s[1..], used, budget);
      assert Choice(s, used, budget)[1..] == Choice(s[1..], used, budget);
    }
  }

  // The order of importance: scores fall, and messages of equal score keep their places.
  lemma ImportanceStable(messages: seq<Message>, lower: string -> string, level: real)
    ensures var order := ByImportance(messages, lower);
            && (forall i, j :: 0 <= i < j < |order| ==> Score(order[i], lower) >= Score(order[j], lower))
            && Filter(AtLevel(lower, level), order) == Filter(AtLevel(lower, level), messages)
  {
    var key := Urgency(lower);
    var order := ByImportance(messages, lower);
    SortSorted(messages, key);
    forall i, j | 0 <= i < j < |order| ensures Score(order[i], lower) >= Score(order[j], lower) {
      assert key(order[i]) <= key(order[j]);
    }
    FilterSort(AtLevel(lower, level), messages, key);
    SortOfSorted(Filter(AtLevel(lower, level), messages), key);
  }

  predicate Mentions(m: Message, lower: string -> string) {
    Contains(lower(m.content), "prefer") || Contains(lower(m.content), "always")
  }

  predicate FromTool(m: Message) {
    m.isToolResult || m.role == "tool"
  }

  predicate Preference(m: Message, lower: string -> string) {
    m.role == "preference" || Mentions(m, lower)
  }

  // Who can come before whom: before a tool result only tool messages, before a message that states
  // a preference only these two kinds, then the system's, then the user's, then all others.
  lemma KindsInOrder(messages: seq<Message>, lower: string -> string, i: nat, j: nat)
    requires i < j < |messages|
    ensures var order := ByImportance(messages, lower); var m, n := order[i], order[j];
            && (n.isToolResult ==> FromTool(m))
            && (Mentions(n, lower) ==> FromTool(m) || Preference(m, lower))
            && (n.role == "system" ==> FromTool(m) || Preference(m, lower) || m.role == "system")
            && (n.role == "user" ==> FromTool(m) || Preference(m, lower) || m.role == "system" || m.role == "user")
  {
    var order := ByImportance(messages, lower);
    ImportanceStable(messages, lower, 0.0);
    KindsApart(order[i], order[j], lower);
  }

  lemma KindsApart(m: Message, n: Message, lower: string -> string)
    requires Score(m, lower) >= Score(n, lower)
    ensures n.isToolResult ==> FromTool(m)
    ensures Mentions(n, lower) ==> FromTool(m) || Preference(m, lower)
    ensures n.role == "system" ==> FromTool(m) || Preference(m, lower) || m.role == "system"
    ensures n.role == "user" ==> FromTool(m) || Preference(m, lower) || m.role == "system" || m.role == "user"
  {
  }

  ghost function AtLevel(lower: string -> string, level: real): Message -> bool {
    (m: Message) => Score(m, lower) == level
  }

  // In that order the selection is the lexicographically greatest of all selections within the
  // budget, and no message that was dropped would still fit.
  lemma SelectionIsBest(messages: seq<Message>, budget: int, lower: string -> string, other: seq<bool>, i: nat)
    requires |other| == |messages| && i < |messages|
    ensures var order := ByImportance(messages, lower); var c := Choice(order, 0, budget);
            && (Cost(Chosen(order, other)) <= budget ==> LexLeq(other, c))
            && (!c[i] ==> Cost(Compressed(messages, budget, lower)) + Tokens(order[i]) > budget)
  {
    var order := ByImportance(messages, lower);
    var c := Choice(order, 0, budget);
    if Cost(Chosen(order, other)) <= budget { GreedyIsGreatest(order, other, 0, budget); }
    if !c[i] {
      DroppedDoNotFit(order, 0, budget, i);
      SumOfMultiset(Size(), Chosen(order, c), Compressed(messages, budget, lower));
    }
  }
}
