// Reconciliation of the chat store: server messages are merged with the local messages the server
// has not confirmed yet, sorted by time and freed of duplicate ids.
module ChatStore {
  import opened Sorting

  // The time is new Date(createdAt).getTime(); `body` stands for the remaining fields.
  datatype Message = Message(id: string, createdAt: int, isOptimistic: bool, body: string)

  function Ids(s: seq<Message>): set<string> {
    set m | m in s :: m.id
  }

  function Time(): Message -> real {
    (m: Message) => m.createdAt as real
  }

  // ---------- Specification ----------

  ghost function Known(ids: set<string>): Message -> bool {
    (m: Message) => m.id in ids
  }

  ghost function Unknown(ids: set<string>): Message -> bool {
    (m: Message) => m.id !in ids
  }

  function Pending(ids: set<string>): Message -> bool {
    (m: Message) => m.isOptimistic && m.id !in ids
  }

  // Keep the first message of every id that is not in `seen`.
  ghost function Dedup(s: seq<Message>, seen: set<string>): seq<Message> {
    if s == [] then []
    else if s[0].id in seen then Dedup(s[1..], seen)
    else [s[0]] + Dedup(s[1..], seen + {s[0].id})
  }

  ghost function Merged(local: seq<Message>, server: seq<Message>): seq<Message> {
    server + Filter(Pending(Ids(server)), local)
  }

  ghost function Reconciled(local: seq<Message>, server: seq<Message>): seq<Message> {
    Dedup(Sort(Merged(local, server), Time()), {})
  }

  // ---------- The store ----------

  class Store {
    var messages: seq<Message>

    method ReconcileMessages(serverMessages: seq<Message>)
      modifies this
      ensures messages == Reconciled(old(messages), serverMessages)
    {
      var serverIds := Ids(serverMessages);
      var unconfirmed := Filter(Pending(serverIds), messages);
      var merged := Sort(serverMessages + unconfirmed, Time());
      messages := Deduplicate(merged);
    }

    // The filter whose callback grows the set of ids seen.
    method Deduplicate(merged: seq<Message>) returns (deduped: seq<Message>)
      ensures deduped == Dedup(merged, {})
    {
      var seen: set<string> := {};
      deduped := [];
      assert merged[0..] == merged;
      for i := 0 to |merged|
        invariant deduped + Dedup(merged[i..], seen) == Dedup(merged, {})
      {
        assert merged[i..][0] == merged[i] && merged[i..][1..] == merged[i + 1..];
        if merged[i].id !in seen {
          seen := seen + {merged[i].id};
          deduped := deduped + [merged[i]];
        }
      }
      assert merged[|merged|..] == [];
    }
  }

  lemma {:induction false} FilterSame<T>(p: T -> bool, q: T -> bool, s: seq<T>)
    requires forall i :: 0 <= i < |s| ==> p(s[i]) == q(s[i])
    ensures Filter(p, s) == Filter(q, s)
  {
    if s != [] { FilterSame(p, q, s[1..]); }
  }

  // ---------- Deduplication ----------

  lemma {:induction false} DedupWithin(s: seq<Message>, seen: set<string>)
    ensures forall m :: m in Dedup(s, seen) ==> m in s && m.id !in seen
    ensures Ids(Dedup(s, seen)) == Ids(s) - seen
  {
    if s != [] {
      var more := if s[0].id in seen then seen else seen + {s[0].id};
      DedupWithin(s[1..], more);
      assert Ids(s) == {s[0].id} + Ids(s[1..]);
      if s[0].id !in seen {
        var r := Dedup(s[1..], more);
        assert Ids([s[0]] + r) == {s[0].id} + Ids(r);
      }
    }
  }

  ghost predicate UniqueIds(s: seq<Message>) {
    forall i, j :: 0 <= i < j < |s| ==> s[i].id != s[j].id
  }

  lemma {:induction false} DedupUnique(s: seq<Message>, seen: set<string>)
    ensures UniqueIds(Dedup(s, seen))
  {
    if s != [] {
      if s[0].id in seen {
        DedupUnique(s[1..], seen);
      } else {
        DedupUnique(s[1..], seen + {s[0].id});
        DedupWithin(s[1..], seen + {s[0].id});
        var r := Dedup(s[1..], seen + {s[0].id});
        forall j | 0 <= j < |r|
          ensures r[j].id != s[0].id
        {
          assert r[j] in r;
        }
      }
    }
  }

  lemma {:induction false} DedupOfUnique(s: seq<Message>, seen: set<string>)
    requires UniqueIds(s) && Ids(s) !! seen
    ensures Dedup(s, seen) == s
  {
    if s != [] {
      assert s[0].id in Ids(s);
      forall id | id in Ids(s[1..])
        ensures id in Ids(s) && id != s[0].id
      {
        var m :| m in s[1..] && m.id == id;
      }
      DedupOfUnique(s[1..], seen + {s[0].id});
    }
  }

  // Deduplication does not mix the messages the server knows with the others.
  lemma {:induction false} FilterDedup(p: Message -> bool, s: seq<Message>, seen: set<string>, seen': set<string>)
    requires forall i, j :: 0 <= i < |s| && 0 <= j < |s| && s[i].id == s[j].id ==> p(s[i]) == p(s[j])
    requires forall i :: 0 <= i < |s| && p(s[i]) ==> (s[i].id in seen <==> s[i].id in seen')
    ensures Filter(p, Dedup(s, seen)) == Dedup(Filter(p, s), seen')
  {
    if s != [] {
      var more := if s[0].id in seen then seen else seen + {s[0].id};
      var more' := if p(s[0]) && s[0].id !in seen' then seen' + {s[0].id} else seen';
      FilterDedup(p, s[1..], more, more');
      assert s[0].id !in seen ==> ([s[0]] + Dedup(s[1..], more))[1..] == Dedup(s[1..], more);
    }
  }

  // ---------- Order: by time, and at equal times the server's messages first ----------

  ghost predicate Ranked(s: seq<Message>, first: Message -> bool) {
    forall i, j :: 0 <= i < j < |s| ==>
      s[i].createdAt < s[j].createdAt || (s[i].createdAt == s[j].createdAt && (first(s[j]) ==> first(s[i])))
  }

  lemma {:induction false} InsertRanked(x: Message, s: seq<Message>, first: Message -> bool)
    requires Ranked(s, first) && first(x)
    ensures Ranked(Insert(x, s, Time()), first)
  {
    if s != [] && s[0].createdAt < x.createdAt {
      InsertRanked(x, s[1..], first);
      var r := Insert(x, s[1..], Time());
      forall j | 0 <= j < |r|
        ensures s[0].createdAt < r[j].createdAt || (s[0].createdAt == r[j].createdAt && (first(r[j]) ==> first(s[0])))
      {
        InsertMembers(x, s[1..], Time());
        assert r[j] in r;
      }
    }
  }

  ghost predicate ByTime(s: seq<Message>) {
    forall i, j :: 0 <= i < j < |s| ==> s[i].createdAt <= s[j].createdAt
  }

  lemma SortedByTime(s: seq<Message>)
    ensures ByTime(Sort(s, Time()))
  {
    SortSorted(s, Time());
    var r := Sort(s, Time());
    forall i, j | 0 <= i < j < |r|
      ensures r[i].createdAt <= r[j].createdAt
    {
      assert Time()(r[i]) <= Time()(r[j]);
    }
  }

  lemma NoneFirst(b: seq<Message>, r: seq<Message>, first: Message -> bool)
    requires forall i :: 0 <= i < |b| ==> !first(b[i])
    requires forall m :: m in r <==> m in b
    ensures forall m :: m in r ==> !first(m)
  {
    forall m | m in r
      ensures !first(m)
    {
      var i :| 0 <= i < |b| && b[i] == m;
    }
  }

  lemma NoneFirstRanked(r: seq<Message>, first: Message -> bool)
    requires ByTime(r) && forall m :: m in r ==> !first(m)
    ensures Ranked(r, first)
  {
  }

  lemma {:induction false} SortRanked(a: seq<Message>, b: seq<Message>, first: Message -> bool)
    requires forall i :: 0 <= i < |a| ==> first(a[i])
    requires forall i :: 0 <= i < |b| ==> !first(b[i])
    ensures Ranked(Sort(a + b, Time()), first)
  {
    if a == [] {
      assert a + b == b;
      SortedByTime(b);
      SameMembers(b, Time());
      NoneFirst(b, Sort(b, Time()), first);
      NoneFirstRanked(Sort(b, Time()), first);
    } else {
      assert (a + b)[1..] == a[1..] + b;
      SortRanked(a[1..], b, first);
      InsertRanked(a[0], Sort(a[1..] + b, Time()), first);
    }
  }

  lemma {:induction false} DedupRanked(s: seq<Message>, seen: set<string>, first: Message -> bool)
    requires Ranked(s, first)
    ensures Ranked(Dedup(s, seen), first)
  {
    if s != [] {
      if s[0].id in seen {
        DedupRanked(s[1..], seen, first);
      } else {
        DedupRanked(s[1..], seen + {s[0].id}, first);
        DedupWithin(s[1..], seen + {s[0].id});
        var r := Dedup(s[1..], seen + {s[0].id});
        forall j | 0 <= j < |r|
          ensures r[j] in s[1..]
        {
        }
      }
    }
  }

  lemma SameClass(a: seq<Message>, b: seq<Message>, first: Message -> bool, second: Message -> bool)
    requires a != [] && b != [] && Ranked(a, first) && Ranked(b, first)
    requires second(a[0]) == !first(a[0]) && second(b[0]) == !first(b[0])
    requires Filter(first, a) == Filter(first, b) && Filter(second, a) == Filter(second, b)
    ensures first(a[0]) == first(b[0])
  {
    if first(a[0]) && !first(b[0]) {
      assert a[0] in Filter(first, b) && b[0] in Filter(second, a);
      RanksBefore(a, b[0], first);
      RanksBefore(b, a[0], first);
    } else if !first(a[0]) && first(b[0]) {
      assert a[0] in Filter(second, b) && b[0] in Filter(first, a);
      RanksBefore(a, b[0], first);
      RanksBefore(b, a[0], first);
    }
  }

  lemma RanksBefore(s: seq<Message>, m: Message, first: Message -> bool)
    requires Ranked(s, first) && m in s && m != s[0]
    ensures s[0].createdAt < m.createdAt || (s[0].createdAt == m.createdAt && (first(m) ==> first(s[0])))
  {
  }

  lemma SameHead(a: seq<Message>, b: seq<Message>, p: Message -> bool)
    requires a != [] && b != [] && p(a[0]) == p(b[0]) && Filter(p, a) == Filter(p, b)
    ensures p(a[0]) ==> a[0] == b[0]
    ensures Filter(p, a[1..]) == Filter(p, b[1..])
  {
    if p(a[0]) {
      assert Filter(p, a)[0] == a[0] && Filter(p, b)[0] == b[0];
      assert Filter(p, a)[1..] == Filter(p, a[1..]) && Filter(p, b)[1..] == Filter(p, b[1..]);
    }
  }

  lemma TailRanked(s: seq<Message>, first: Message -> bool)
    requires s != [] && Ranked(s, first)
    ensures Ranked(s[1..], first)
  {
  }

  // A ranked sequence is determined by its two halves.
  lemma {:induction false} RankedUnique(a: seq<Message>, b: seq<Message>, first: Message -> bool,
                                        second: Message -> bool)
    requires forall m :: second(m) <==> !first(m)
    requires Ranked(a, first) && Ranked(b, first)
    requires Filter(first, a) == Filter(first, b) && Filter(second, a) == Filter(second, b)
    ensures a == b
  {
    if a != [] && b != [] {
      SameClass(a, b, first, second);
      SameHead(a, b, first);
      SameHead(a, b, second);
      TailRanked(a, first);
      TailRanked(b, first);
      RankedUnique(a[1..], b[1..], first, second);
      assert a == [a[0]] + a[1..] && b == [b[0]] + b[1..];
    }
  }

  // ---------- Results ----------

  lemma MergedSplits(local: seq<Message>, server: seq<Message>)
    ensures var ids := Ids(server); var u := Filter(Pending(ids), local); var all := Merged(local, server);
            && Filter(Known(ids), all) == server && Filter(Unknown(ids), all) == u
            && (forall m :: m in u ==> m.isOptimistic && m.id !in ids)
            && (forall m :: m in all && m.id !in ids ==> m in u)
            && (forall m :: m in server ==> m.id in ids)
  {
    var ids := Ids(server);
    var u := Filter(Pending(ids), local);
    FilterConcat(Known(ids), server, u);
    FilterConcat(Unknown(ids), server, u);
    FilterAll(Known(ids), server);
    FilterNone(Known(ids), u);
    FilterNone(Unknown(ids), server);
    FilterAll(Unknown(ids), u);
  }

  lemma HalvesOfResult(local: seq<Message>, server: seq<Message>)
    ensures var ids := Ids(server); var r := Reconciled(local, server);
            && Ranked(r, Known(ids))
            && Filter(Known(ids), r) == Dedup(Sort(server, Time()), {})
            && Filter(Unknown(ids), r) == Dedup(Sort(Filter(Pending(ids), local), Time()), {})
  {
    var ids := Ids(server);
    var u, all := Filter(Pending(ids), local), Merged(local, server);
    MergedSplits(local, server);
    SortRanked(server, u, Known(ids));
    DedupRanked(Sort(all, Time()), {}, Known(ids));
    FilterDedup(Known(ids), Sort(all, Time()), {}, {});
    FilterDedup(Unknown(ids), Sort(all, Time()), {}, {});
    FilterSort(Known(ids), all, Time());
    FilterSort(Unknown(ids), all, Time());
  }

  // A local message that the server has not acknowledged.
  predicate Unconfirmed(m: Message, local: seq<Message>, server: seq<Message>) {
    m in local && m.isOptimistic && m.id !in Ids(server)
  }

  function OptimisticIds(local: seq<Message>): set<string> {
    set m | m in local && m.isOptimistic :: m.id
  }

  lemma UnconfirmedIds(local: seq<Message>, server: seq<Message>)
    ensures Ids(server) + Ids(Filter(Pending(Ids(server)), local)) == Ids(server) + OptimisticIds(local)
  {
    var pending := Filter(Pending(Ids(server)), local);
    forall id | id in OptimisticIds(local) && id !in Ids(server)
      ensures id in Ids(pending)
    {
      var m :| m in local && m.isOptimistic && m.id == id;
      assert m in pending;
    }
  }

  // The result is sorted by time, its ids are unique, and they are exactly the server's ids and
  // those of the unconfirmed optimistic messages.
  lemma ReconciledShape(local: seq<Message>, server: seq<Message>)
    ensures var r := Reconciled(local, server);
            && (forall i, j :: 0 <= i < j < |r| ==> r[i].createdAt <= r[j].createdAt)
            && UniqueIds(r)
            && Ids(r) == Ids(server) + OptimisticIds(local)
            && (forall m :: m in r ==> m in server || Unconfirmed(m, local, server))
  {
    HalvesOfResult(local, server);
    UnconfirmedIds(local, server);
    DedupUnique(Sort(Merged(local, server), Time()), {});
    ResultIds(local, server);
    ResultMembers(local, server);
  }

  lemma ResultIds(local: seq<Message>, server: seq<Message>)
    ensures Ids(Reconciled(local, server)) == Ids(server) + Ids(Filter(Pending(Ids(server)), local))
  {
    var all := Merged(local, server);
    SameMembers(all, Time());
    DedupWithin(Sort(all, Time()), {});
    assert Ids(Sort(all, Time())) == Ids(all);
    IdsConcat(server, Filter(Pending(Ids(server)), local));
  }

  lemma ResultMembers(local: seq<Message>, server: seq<Message>)
    ensures forall m :: m in Reconciled(local, server) ==>
              m in server || Unconfirmed(m, local, server)
  {
    var all := Merged(local, server);
    SameMembers(all, Time());
    DedupWithin(Sort(all, Time()), {});
  }

  lemma IdsConcat(a: seq<Message>, b: seq<Message>)
    ensures Ids(a + b) == Ids(a) + Ids(b)
  {
  }

  // Of several messages with one id the earliest survives.
  lemma {:induction false} DedupKeepsFirst(s: seq<Message>, seen: set<string>)
    requires forall i, j :: 0 <= i < j < |s| ==> s[i].createdAt <= s[j].createdAt
    ensures forall m, x :: m in Dedup(s, seen) && x in s && x.id == m.id ==> m.createdAt <= x.createdAt
  {
    if s != [] {
      var more := if s[0].id in seen then seen else seen + {s[0].id};
      DedupKeepsFirst(s[1..], more);
      DedupWithin(s[1..], more);
      forall m, x | m in Dedup(s, seen) && x in s && x.id == m.id
        ensures m.createdAt <= x.createdAt
      {
        if m != s[0] { assert m in Dedup(s[1..], more) && m.id !in more; }
      }
    }
  }

  lemma EarliestSurvives(local: seq<Message>, server: seq<Message>)
    ensures forall m: Message, x: Message ::
              m in Reconciled(local, server) && x.id == m.id && (x in server || Unconfirmed(x, local, server)) ==>
                m.createdAt <= x.createdAt
  {
    var all := Merged(local, server);
    SortedByTime(all);
    SameMembers(all, Time());
    DedupKeepsFirst(Sort(all, Time()), {});
    forall x | x in server || Unconfirmed(x, local, server)
      ensures x in Sort(all, Time())
    {
    }
  }

  // Reconciling again with the same server messages changes nothing.
  lemma Idempotent(local: seq<Message>, server: seq<Message>)
    ensures Reconciled(Reconciled(local, server), server) == Reconciled(local, server)
  {
    var ids := Ids(server);
    var r := Reconciled(local, server);
    var again := Reconciled(r, server);
    HalvesOfResult(local, server);
    HalvesOfResult(r, server);
    ReconciledShape(local, server);
    var u := Filter(Unknown(ids), r);
    FilterSame(Pending(ids), Unknown(ids), r);
    UnknownHalf(local, server);
    RankedUnique(again, r, Known(ids), Unknown(ids));
  }

  // The unconfirmed half of a result is already sorted and free of duplicates.
  lemma UnknownHalf(local: seq<Message>, server: seq<Message>)
    ensures var u := Filter(Unknown(Ids(server)), Reconciled(local, server));
            Dedup(Sort(u, Time()), {}) == u
  {
    var sorted := Sort(Filter(Pending(Ids(server)), local), Time());
    var u := Dedup(sorted, {});
    HalvesOfResult(local, server);
    SortedByTime(Filter(Pending(Ids(server)), local));
    DedupRanked(sorted, {}, AllFirst());
    DedupUnique(sorted, {});
    SortOfSorted(u, Time());
    DedupOfUnique(u, {});
  }

  ghost function AllFirst(): Message -> bool {
    (m: Message) => true
  }
}
