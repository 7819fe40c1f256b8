// Thread cache of the chat front end: saving a thread evicts the oldest threads until the total size
// fits, and loading never hands out an expired thread.
module ThreadCache {
  import opened Sorting
  import opened Wrappers

  // `messages` are the cached messages; the size is the length of their serialisation.
  datatype Thread = Thread(messages: seq<string>, cachedAt: int, sizeBytes: nat)

  datatype Config = Config(maxSizeBytes: int, maxMessages: int, maxThreads: int, ttlMs: int)

  datatype Item = Item(key: string, thread: Thread)

  // messages.slice(-n): the last n, but all of them when n is 0.
  function Tail(messages: seq<string>, n: int): (kept: seq<string>)
    ensures |kept| <= |messages| && kept == messages[|messages| - |kept|..]
    ensures n > 0 ==> |kept| <= n && (|kept| < n ==> kept == messages)
    ensures n == 0 ==> kept == messages
  {
    if n > 0 then (if n < |messages| then messages[|messages| - n..] else messages)
    else if -n < |messages| then messages[-n..]
    else []
  }

  predicate Expired(cfg: Config, t: Thread, now: int) {
    t.cachedAt + cfg.ttlMs < now
  }

  function Age(): Item -> real {
    (i: Item) => i.thread.cachedAt as real
  }

  // `all` lists every entry of the store once, in the order entries() gives them.
  ghost predicate Lists(all: seq<Item>, store: map<string, Thread>) {
    && (forall i :: 0 <= i < |all| ==> all[i].key in store && store[all[i].key] == all[i].thread)
    && (forall i, j :: 0 <= i < j < |all| ==> all[i].key != all[j].key)
    && (forall k :: k in store ==> exists i :: 0 <= i < |all| && all[i].key == k)
  }

  function Bytes(): Item -> nat {
    (i: Item) => i.thread.sizeBytes
  }

  function Total(items: seq<Item>): nat {
    Sum(Bytes(), items)
  }

  function Keys(items: seq<Item>): set<string> {
    set i | i in items :: i.key
  }

  // How many of the oldest entries have to go.
  ghost function Excess(sorted: seq<Item>, limit: int): (n: nat)
    ensures n <= |sorted|
  {
    if sorted == [] || Total(sorted) <= limit then 0 else 1 + Excess(sorted[1..], limit)
  }

  ghost function Evicted(all: seq<Item>, limit: int): seq<Item> {
    var sorted := Sort(all, Age());
    sorted[..Excess(sorted, limit)]
  }

  class Cache {
    var store: map<string, Thread>
    var cfg: Config

    method SaveThread(id: string, messages: seq<string>, size: seq<string> -> nat, now: int, all: seq<Item>)
      requires var trimmed := Tail(messages, cfg.maxMessages);
               Lists(all, store[id := Thread(trimmed, now, size(trimmed))])
      modifies this`store
      ensures var trimmed := Tail(messages, cfg.maxMessages);
              store == old(store)[id := Thread(trimmed, now, size(trimmed))] - Keys(Evicted(all, cfg.maxSizeBytes))
    {
      var trimmed := Tail(messages, cfg.maxMessages);
      store := store[id := Thread(trimmed, now, size(trimmed))];
      EvictIfNeeded(all);
    }

    method EvictIfNeeded(all: seq<Item>)
      requires Lists(all, store)
      modifies this`store
      ensures store == old(store) - Keys(Evicted(all, cfg.maxSizeBytes))
    {
      var totalSize := Total(all);
      ghost var sorted := Sort(all, Age());
      SumOfMultiset(Bytes(), all, sorted);
      if totalSize <= cfg.maxSizeBytes {
        assert sorted[..0] == [];
        return;
      }
      EvictOldest(Sort(all, Age()), totalSize);
    }

    // The deleting loop.
    method EvictOldest(sorted: seq<Item>, size: nat)
      requires size == Total(sorted)
      modifies this`store
      ensures store == old(store) - Keys(sorted[..Excess(sorted, cfg.maxSizeBytes)])
    {
      var totalSize: int := size;
      assert sorted[0..] == sorted && sorted[..0] == [];
      var i := 0;
      while i < |sorted|
        invariant 0 <= i <= |sorted|
        invariant store == old(store) - Keys(sorted[..i])
        invariant totalSize == Total(sorted[i..])
        invariant Excess(sorted, cfg.maxSizeBytes) == i + Excess(sorted[i..], cfg.maxSizeBytes)
      {
        if totalSize <= cfg.maxSizeBytes {
          break;
        }
        OneMoreKey(sorted, i);
        store := store - {sorted[i].key};
        totalSize := totalSize - sorted[i].thread.sizeBytes;
        i := i + 1;
      }
    }

    method LoadThread(id: string, now: int) returns (r: Option<Thread>)
      modifies this`store
      ensures r.Some? <==> id in old(store) && now - old(store)[id].cachedAt <= cfg.ttlMs
      ensures r.Some? ==> r.value == old(store)[id] && store == old(store)
      ensures r.None? ==> store == old(store) - {id}
    {
      if id !in store {
        return None;
      }
      var cached := store[id];
      if cached.cachedAt + cfg.ttlMs < now {
        store := store - {id};
        return None;
      }
      r := Some(cached);
    }

    method ClearExpired(now: int, all: seq<Item>)
      requires Lists(all, store)
      modifies this`store
      ensures store == map k | k in old(store) && now - old(store)[k].cachedAt <= cfg.ttlMs :: old(store)[k]
    {
      ghost var before := store;
      for i := 0 to |all|
        invariant forall k :: k in store ==> k in before && store[k] == before[k]
        invariant forall k :: k in before && k !in store ==> Expired(cfg, before[k], now)
        invariant forall j :: 0 <= j < i && Expired(cfg, all[j].thread, now) ==> all[j].key !in store
      {
        if all[i].thread.cachedAt + cfg.ttlMs < now {
          store := store - {all[i].key};
        }
      }
      forall k | k in before && Expired(cfg, before[k], now) ensures k !in store {
        var i :| 0 <= i < |all| && all[i].key == k;
      }
    }
  }

  lemma OneMoreKey(s: seq<Item>, i: nat)
    requires i < |s|
    ensures Keys(s[..i + 1]) == Keys(s[..i]) + {s[i].key}
    ensures s[i..] != [] && s[i..][0] == s[i] && s[i..][1..] == s[i + 1..]
  {
    assert s[..i + 1] == s[..i] + [s[i]];
  }

  lemma {:induction false} ExcessFits(sorted: seq<Item>, limit: nat)
    ensures var n := Excess(sorted, limit);
            Total(sorted[n..]) <= limit && (n > 0 ==> sorted[n - 1].thread.sizeBytes + Total(sorted[n..]) > limit)
  {
    assert sorted[0..] == sorted;
    if sorted != [] && Total(sorted) > limit {
      var n := Excess(sorted, limit);
      ExcessFits(sorted[1..], limit);
      assert sorted[1..][n - 1..] == sorted[n..];
      if n == 1 { assert sorted[1..] == sorted[n..]; }
    }
  }

  // ---------- What an eviction leaves ----------

  ghost predicate OldestFirst(s: seq<Item>) {
    forall i, j :: 0 <= i < j < |s| ==> s[i].thread.cachedAt <= s[j].thread.cachedAt
  }

  // The evicted threads are the first n of the store in oldest-first order, and the others are what
  // the store still holds.
  lemma EvictsOldest(all: seq<Item>, store: map<string, Thread>, limit: int)
    requires Lists(all, store)
    ensures var sorted := Sort(all, Age()); var n := |Evicted(all, limit)|;
            && Evicted(all, limit) == sorted[..n] && OldestFirst(sorted) && Lists(sorted, store)
            && Lists(sorted[n..], store - Keys(Evicted(all, limit)))
  {
    SortedOldest(all);
    SortedLists(all, store);
    KeptLists(Sort(all, Age()), store, Excess(Sort(all, Age()), limit));
  }

  // What stays fits the limit, and would not with the last evicted thread put back.
  lemma EvictionIsMinimal(all: seq<Item>, limit: nat)
    ensures var sorted := Sort(all, Age()); var n := |Evicted(all, limit)|;
            && Total(sorted[n..]) <= limit
            && (n > 0 ==> sorted[n - 1].thread.sizeBytes + Total(sorted[n..]) > limit)
  {
    var sorted := Sort(all, Age());
    assert |Evicted(all, limit)| == Excess(sorted, limit);
    ExcessFits(sorted, limit);
  }

  lemma SortedOldest(all: seq<Item>)
    ensures OldestFirst(Sort(all, Age()))
  {
    var sorted := Sort(all, Age());
    SortSorted(all, Age());
    forall i, j | 0 <= i < j < |sorted| ensures sorted[i].thread.cachedAt <= sorted[j].thread.cachedAt {
      assert Age()(sorted[i]) <= Age()(sorted[j]);
    }
  }

  lemma KeptLists(sorted: seq<Item>, store: map<string, Thread>, n: nat)
    requires Lists(sorted, store) && n <= |sorted|
    ensures Lists(sorted[n..], store - Keys(sorted[..n]))
  {
    var left := store - Keys(sorted[..n]);
    forall i | n <= i < |sorted|
      ensures sorted[i].key !in Keys(sorted[..n])
    {
      forall x | x in sorted[..n] ensures x.key != sorted[i].key {
        var j :| 0 <= j < n && sorted[j] == x;
      }
    }
    forall i | 0 <= i < n
      ensures sorted[i].key in Keys(sorted[..n])
    {
      assert sorted[..n][i] in sorted[..n];
    }
    forall k | k in left
      ensures exists i :: 0 <= i < |sorted[n..]| && sorted[n..][i].key == k
    {
      var i :| 0 <= i < |sorted| && sorted[i].key == k;
      assert sorted[n..][i - n].key == k;
    }
  }

  lemma SortedLists(all: seq<Item>, store: map<string, Thread>)
    requires Lists(all, store)
    ensures Lists(Sort(all, Age()), store)
  {
    var sorted := Sort(all, Age());
    SameMembers(all, Age());
    forall i | 0 <= i < |sorted|
      ensures sorted[i].key in store && store[sorted[i].key] == sorted[i].thread
    {
      assert sorted[i] in all;
    }
    forall k | k in store ensures exists i :: 0 <= i < |sorted| && sorted[i].key == k {
      var i :| 0 <= i < |all| && all[i].key == k;
      assert all[i] in sorted;
    }
    forall i, j | 0 <= i < j < |sorted|
      ensures sorted[i].key != sorted[j].key
    {
      DistinctKeys(all, sorted, store, i, j);
    }
  }

  lemma DistinctKeys(all: seq<Item>, sorted: seq<Item>, store: map<string, Thread>, i: nat, j: nat)
    requires Lists(all, store) && multiset(sorted) == multiset(all) && i < j < |sorted|
    requires forall k :: 0 <= k < |sorted| ==> sorted[k].key in store && store[sorted[k].key] == sorted[k].thread
    ensures sorted[i].key != sorted[j].key
  {
    if sorted[i].key == sorted[j].key {
      assert sorted[i] == sorted[j];
      Twice(sorted, i, j);
      AtMostOnce(all, sorted[i]);
    }
  }

  lemma Twice(s: seq<Item>, i: nat, j: nat)
    requires i < j < |s| && s[i] == s[j]
    ensures multiset(s)[s[i]] >= 2
  {
    assert s == s[..i] + [s[i]] + s[i + 1..];
    assert s[i + 1..][j - i - 1] == s[j];
    assert s[j] in s[i + 1..];
  }

  lemma {:induction false} AtMostOnce(s: seq<Item>, x: Item)
    requires forall i, j :: 0 <= i < j < |s| ==> s[i].key != s[j].key
    ensures multiset(s)[x] <= 1
  {
    if s != [] {
      AtMostOnce(s[1..], x);
      assert s == [s[0]] + s[1..];
      if s[0] == x { assert x !in s[1..]; }
    }
  }

  // ---------- The number of threads ----------

  lemma {:induction false} KeysCount(s: seq<Item>)
    requires forall i, j :: 0 <= i < j < |s| ==> s[i].key != s[j].key
    ensures |Keys(s)| == |s|
  {
    if s != [] {
      KeysCount(s[1..]);
      assert Keys(s) == Keys(s[1..]) + {s[0].key};
      assert forall i :: 0 <= i < |s[1..]| ==> s[1..][i] == s[i + 1];
    }
  }

  lemma StoreWithout(store: map<string, Thread>, gone: set<string>)
    requires gone <= store.Keys
    ensures |(store - gone).Keys| == |store.Keys| - |gone|
  {
    assert (store - gone).Keys == store.Keys - gone;
    assert store.Keys == (store.Keys - gone) + gone;
  }

  lemma PrefixKeys(sorted: seq<Item>, n: nat, store: map<string, Thread>)
    requires Lists(sorted, store) && n <= |sorted|
    ensures Keys(sorted[..n]) <= store.Keys && |Keys(sorted[..n])| == n
  {
    var gone := sorted[..n];
    assert forall i :: 0 <= i < n ==> gone[i] == sorted[i];
    KeysCount(gone);
  }

  // An eviction removes as many threads as it evicts.
  lemma ThreadsKept(all: seq<Item>, store: map<string, Thread>, limit: int)
    requires Lists(all, store)
    ensures |(store - Keys(Evicted(all, limit))).Keys| == |store.Keys| - |Evicted(all, limit)|
  {
    var sorted := Sort(all, Age());
    SortedLists(all, store);
    PrefixKeys(sorted, Excess(sorted, limit), store);
    StoreWithout(store, Keys(Evicted(all, limit)));
  }

  // After a save there are at most maxThreads threads exactly when the threads there were, the new
  // one included, exceed the limit by no more than the number evicted for their size.
  lemma MaxThreadsIff(cfg: Config, store: map<string, Thread>, id: string, thread: Thread,
                      written: map<string, Thread>, all: seq<Item>)
    requires written == store[id := thread] && Lists(all, written)
    ensures var gone := Evicted(all, cfg.maxSizeBytes);
            |(written - Keys(gone)).Keys| <= cfg.maxThreads <==> |store.Keys + {id}| - |gone| <= cfg.maxThreads
  {
    ThreadsKept(all, written, cfg.maxSizeBytes);
    KeysAfterSave(store, id, thread);
  }

  lemma KeysAfterSave(store: map<string, Thread>, id: string, thread: Thread)
    ensures store[id := thread].Keys == store.Keys + {id}
  {
  }

  lemma TwoFit(a: Item, b: Item, all: seq<Item>, limit: int)
    requires all == [a, b] && a.thread.sizeBytes + b.thread.sizeBytes <= limit
    ensures Evicted(all, limit) == []
  {
    OneTotal(b, all[1..]);
    SumOfMultiset(Bytes(), all, Sort(all, Age()));
  }

  // Saving a second thread beside one it fits together with keeps both, though only one is allowed.
  lemma MaxThreadsExceeded(cfg: Config, a: Item, b: Item, all: seq<Item>, written: map<string, Thread>)
    requires cfg.maxThreads == 1 && a.thread.sizeBytes + b.thread.sizeBytes <= cfg.maxSizeBytes
    requires all == [a, b] && a.key != b.key && written == map[a.key := a.thread, b.key := b.thread]
    ensures Lists(all, written) && |(written - Keys(Evicted(all, cfg.maxSizeBytes))).Keys| == 2 > cfg.maxThreads
  {
    TwoListed(a, b, all, written);
    TwoFit(a, b, all, cfg.maxSizeBytes);
    ThreadsKept(all, written, cfg.maxSizeBytes);
  }

  lemma TwoListed(a: Item, b: Item, all: seq<Item>, written: map<string, Thread>)
    requires all == [a, b] && a.key != b.key && written == map[a.key := a.thread, b.key := b.thread]
    ensures Lists(all, written) && |written.Keys| == 2
  {
    assert all[0].key == a.key && all[1].key == b.key;
    assert forall k :: k in written.Keys <==> k == a.key || k == b.key;
    assert written.Keys == {a.key, b.key};
  }

  // ---------- Overlapping saves ----------

  // A save writes its thread, later lists the entries, and then deletes them one by one, oldest first,
  // while the sizes it has listed and not yet deleted exceed the limit.
  datatype Save = Written | Evicting(left: seq<Item>, total: int)

  datatype System = System(store: map<string, Thread>, saves: map<nat, Save>)

  datatype Step =
    | Put(w: nat, key: string, thread: Thread)
    | Survey(w: nat, all: seq<Item>)
    | Drop(w: nat)
    | Finish(w: nat)
    | Remove(key: string)

  ghost predicate Enabled(limit: int, s: System, step: Step) {
    match step
    case Put(w, _, _) => w !in s.saves
    case Survey(w, all) => w in s.saves && s.saves[w].Written? && Lists(all, s.store)
    case Drop(w) => w in s.saves && s.saves[w].Evicting? && s.saves[w].left != [] && s.saves[w].total > limit
    case Finish(w) => w in s.saves && s.saves[w].Evicting? && (s.saves[w].left == [] || s.saves[w].total <= limit)
    // A load or clearExpired deletes an expired thread.
    case Remove(_) => true
  }

  ghost function Next(limit: int, s: System, step: Step): System
    requires Enabled(limit, s, step)
  {
    match step
    case Put(w, key, thread) => System(s.store[key := thread], s.saves[w := Written])
    case Survey(w, all) => s.(saves := s.saves[w := Evicting(Sort(all, Age()), Total(all))])
    case Drop(w) =>
      var first, rest := s.saves[w].left[0], s.saves[w].left[1..];
      System(s.store - {first.key}, s.saves[w := Evicting(rest, s.saves[w].total - first.thread.sizeBytes)])
    case Finish(w) => s.(saves := s.saves - {w})
    case Remove(key) => s.(store := s.store - {key})
  }

  ghost predicate Legal(limit: int, s: System, steps: seq<Step>)
    decreases |steps|
  {
    steps == [] || (Enabled(limit, s, steps[0]) && Legal(limit, Next(limit, s, steps[0]), steps[1..]))
  }

  ghost function Run(limit: int, s: System, steps: seq<Step>): System
    requires Legal(limit, s, steps)
    decreases |steps|
  {
    if steps == [] then s else Run(limit, Next(limit, s, steps[0]), steps[1..])
  }

  // The entries of the store are among those listed.
  ghost predicate Among(store: map<string, Thread>, items: seq<Item>) {
    forall k :: k in store ==> Item(k, store[k]) in items
  }

  ghost predicate Fits(limit: int, store: map<string, Thread>) {
    exists all: seq<Item> :: Lists(all, store) && Total(all) <= limit
  }

  // A save that will bring the store within the limit, whatever the others do, unless one of them
  // writes again.
  ghost predicate Settles(s: System, w: nat) {
    w in s.saves && s.saves[w].Evicting? && Among(s.store, s.saves[w].left)
       && s.saves[w].total == Total(s.saves[w].left)
  }

  predicate HasWritten(s: System, w: nat) {
    w in s.saves && s.saves[w].Written?
  }

  ghost predicate WillFit(limit: int, s: System) {
    || Fits(limit, s.store)
    || (exists w: nat :: HasWritten(s, w))
    || (exists w: nat :: Settles(s, w))
  }

  lemma {:induction false} SomeListing(store: map<string, Thread>) returns (all: seq<Item>)
    ensures Lists(all, store)
    decreases |store.Keys|
  {
    if store == map[] {
      all := [];
    } else {
      var k :| k in store;
      var rest := store - {k};
      assert rest.Keys == store.Keys - {k};
      var others := SomeListing(rest);
      all := [Item(k, store[k])] + others;
      OneMoreListed(others, rest, k, store[k]);
      assert rest[k := store[k]] == store;
    }
  }

  lemma OneMoreListed(others: seq<Item>, rest: map<string, Thread>, k: string, thread: Thread)
    requires Lists(others, rest) && k !in rest
    ensures Lists([Item(k, thread)] + others, rest[k := thread])
  {
    var all, whole := [Item(k, thread)] + others, rest[k := thread];
    forall x | x in whole
      ensures exists i :: 0 <= i < |all| && all[i].key == x
    {
      if x == k {
        assert all[0].key == x;
      } else {
        var i :| 0 <= i < |others| && others[i].key == x;
        assert all[i + 1].key == x;
      }
    }
  }

  // A store whose entries are among some that fit, fits.
  lemma AmongFits(limit: int, store: map<string, Thread>, items: seq<Item>)
    requires Among(store, items) && Total(items) <= limit
    ensures Fits(limit, store)
  {
    var all := SomeListing(store);
    forall i | 0 <= i < |all| ensures all[i] in items {
      assert all[i] == Item(all[i].key, store[all[i].key]);
    }
    SumOfSome(Bytes(), all, items);
  }

  lemma LessFits(limit: int, store: map<string, Thread>, key: string)
    requires Fits(limit, store)
    ensures Fits(limit, store - {key})
  {
    var all: seq<Item> :| Lists(all, store) && Total(all) <= limit;
    forall k | k in store - {key}
      ensures Item(k, store[k]) in all
    {
      var i: nat :| 0 <= i < |all| && all[i].key == k;
      assert all[i] == Item(k, store[k]);
    }
    AmongFits(limit, store - {key}, all);
  }

  lemma SurveySettles(limit: int, s: System, step: Step)
    requires Enabled(limit, s, step) && step.Survey?
    ensures Settles(Next(limit, s, step), step.w)
  {
    var sorted := Sort(step.all, Age());
    SortedLists(step.all, s.store);
    SumOfMultiset(Bytes(), step.all, sorted);
    forall k | k in s.store
      ensures Item(k, s.store[k]) in sorted
    {
      var i :| 0 <= i < |sorted| && sorted[i].key == k;
      assert sorted[i] == Item(k, s.store[k]);
    }
  }

  lemma DropSettles(limit: int, s: System, step: Step)
    requires Enabled(limit, s, step) && step.Drop? && Settles(s, step.w)
    ensures Settles(Next(limit, s, step), step.w)
  {
    var left := s.saves[step.w].left;
    assert left == [left[0]] + left[1..];
  }

  lemma FinishFits(limit: int, s: System, w: nat)
    requires limit >= 0 && Settles(s, w) && (s.saves[w].left == [] || s.saves[w].total <= limit)
    ensures Fits(limit, s.store)
  {
    AmongFits(limit, s.store, s.saves[w].left);
  }

  // A save that settles goes on settling while another one deletes, surveys or finishes.
  lemma OtherSettles(limit: int, s: System, step: Step, w: nat)
    requires Enabled(limit, s, step) && Settles(s, w) && !step.Put?
    requires step.Remove? || step.w != w
    ensures Settles(Next(limit, s, step), w)
  {
  }

  lemma StepWillFit(limit: int, s: System, step: Step)
    requires limit >= 0 && WillFit(limit, s) && Enabled(limit, s, step)
    ensures WillFit(limit, Next(limit, s, step))
  {
    var t := Next(limit, s, step);
    if step.Put? {
      assert HasWritten(t, step.w);
    } else if step.Survey? {
      SurveySettles(limit, s, step);
    } else if Fits(limit, s.store) {
      if step.Drop? { LessFits(limit, s.store, s.saves[step.w].left[0].key); }
      if step.Remove? { LessFits(limit, s.store, step.key); }
    } else if w: nat :| HasWritten(s, w) {
      assert HasWritten(t, w);
    } else {
      var w: nat :| Settles(s, w);
      if step.Remove? || step.w != w { OtherSettles(limit, s, step, w); }
      else if step.Drop? { DropSettles(limit, s, step); }
      else { FinishFits(limit, s, w); }
    }
  }

  // However saves overlap with each other and with loads and clean-ups: once all of them have finished
  // the stored threads fit the limit.
  lemma {:induction false} OverlappingSavesFit(limit: int, s: System, steps: seq<Step>)
    requires limit >= 0 && WillFit(limit, s) && Legal(limit, s, steps)
    ensures WillFit(limit, Run(limit, s, steps))
    ensures Run(limit, s, steps).saves == map[] ==> Fits(limit, Run(limit, s, steps).store)
    decreases |steps|
  {
    if steps != [] {
      StepWillFit(limit, s, steps[0]);
      OverlappingSavesFit(limit, Next(limit, s, steps[0]), steps[1..]);
    }
  }

  // ---------- A listing that has grown stale ----------

  ghost predicate Leads(limit: int, s: System, step: Step, t: System) {
    Enabled(limit, s, step) && t == Next(limit, s, step)
  }

  lemma RunStep(limit: int, s: System, step: Step, t: System, rest: seq<Step>)
    requires Leads(limit, s, step, t) && Legal(limit, t, rest)
    ensures Legal(limit, s, [step] + rest) && Run(limit, s, [step] + rest) == Run(limit, t, rest)
  {
    assert ([step] + rest)[1..] == rest;
  }

  lemma OneTotal(x: Item, s: seq<Item>)
    requires s == [x]
    ensures Total(s) == x.thread.sizeBytes
  {
    assert s[1..] == [] && Sum(Bytes(), s[1..]) == 0;
    assert Bytes()(s[0]) == x.thread.sizeBytes;
  }

  // Save 0 has listed an entry that is too large, and save 1 then replaces it by one that fits.
  lemma Replaced(limit: int, s: System, big: Item, small: Thread, all: seq<Item>)
      returns (s1: System, s2: System, s3: System)
    requires s == System(map[], map[]) && all == [big] && big.thread.sizeBytes > limit >= small.sizeBytes
    ensures Leads(limit, s, Put(0, big.key, big.thread), s1) && Leads(limit, s1, Survey(0, all), s2)
    ensures Leads(limit, s2, Put(1, big.key, small), s3) && s3.store == map[big.key := small]
    ensures s3.saves == map[0 := Evicting(all, big.thread.sizeBytes), 1 := Written]
  {
    s1 := Next(limit, s, Put(0, big.key, big.thread));
    assert all[0].key == big.key && all[1..] == [];
    assert Sort(all, Age()) == all;
    OneTotal(big, all);
    s2 := Next(limit, s1, Survey(0, all));
    s3 := Next(limit, s2, Put(1, big.key, small));
  }

  // Save 0 goes on deleting what it has listed, and both finish.
  lemma Lost(limit: int, s: System, big: Item, small: Thread, all: seq<Item>)
      returns (s1: System, s2: System, s3: System, s4: System)
    requires all == [big] && big.thread.sizeBytes > limit >= 0 && s.store == map[big.key := small]
    requires s.saves == map[0 := Evicting(all, big.thread.sizeBytes), 1 := Written]
    ensures Leads(limit, s, Drop(0), s1) && Leads(limit, s1, Finish(0), s2) && Leads(limit, s2, Survey(1, []), s3)
    ensures Leads(limit, s3, Finish(1), s4) && s4 == System(map[], map[])
  {
    s1 := Next(limit, s, Drop(0));
    assert s1.store == map[];
    s2 := Next(limit, s1, Finish(0));
    s3 := Next(limit, s2, Survey(1, []));
    s4 := Next(limit, s3, Finish(1));
    assert s4.saves == map[];
  }

  // A thread that fits is saved after a larger version of it has been listed, and the listing's save
  // deletes it: when both have finished the cache is empty.
  lemma StaleListingDeletes(limit: int, s: System, big: Item, small: Thread) returns (steps: seq<Step>)
    requires s == System(map[], map[]) && big.thread.sizeBytes > limit >= small.sizeBytes
    ensures Legal(limit, s, steps) && Run(limit, s, steps) == System(map[], map[])
    ensures |steps| == 7 && steps[2] == Put(1, big.key, small)
    ensures forall i :: 3 <= i < 7 ==> !steps[i].Put? && !steps[i].Remove?
  {
    var all := [big];
    var s1, s2, s3 := Replaced(limit, s, big, small, all);
    var s4, s5, s6, s7 := Lost(limit, s3, big, small, all);
    RunStep(limit, s6, Finish(1), s7, []);
    RunStep(limit, s5, Survey(1, []), s6, [Finish(1)] + []);
    steps := [Survey(1, [])] + ([Finish(1)] + []);
    RunStep(limit, s4, Finish(0), s5, steps);
    steps := [Finish(0)] + steps;
    RunStep(limit, s3, Drop(0), s4, steps);
    steps := [Drop(0)] + steps;
    RunStep(limit, s2, Put(1, big.key, small), s3, steps);
    steps := [Put(1, big.key, small)] + steps;
    RunStep(limit, s1, Survey(0, all), s2, steps);
    steps := [Survey(0, all)] + steps;
    RunStep(limit, s, Put(0, big.key, big.thread), s1, steps);
    steps := [Put(0, big.key, big.thread)] + steps;
  }
}
