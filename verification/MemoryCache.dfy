// In-memory cache with lazy expiry.
module MemoryCache {
  import opened Wrappers

  datatype Entry<V> = Entry(value: V, expiry: Option<real>)

  predicate Expired<V>(e: Entry<V>, now: real) {
    e.expiry.Some? && now > e.expiry.value
  }

  // `ttl or default_ttl`: a missing or zero ttl means the default.
  function Deadline(ttl: Option<int>, defaultTtl: int, now: real): real {
    now + (if ttl.None? || ttl.value == 0 then defaultTtl else ttl.value) as real
  }

  // What a reader sees of a store, whether or not expired entries have been removed.
  function Visible<V>(store: map<string, Entry<V>>, key: string, now: real): Option<V> {
    if key in store && !Expired(store[key], now) then Some(store[key].value) else None
  }

  // A read removes the entry it finds expired.
  function Swept<V>(store: map<string, Entry<V>>, key: string, now: real): map<string, Entry<V>> {
    if key in store && Expired(store[key], now) then store - {key} else store
  }

  class Cache<V> {
    var store: map<string, Entry<V>>
    const defaultTtl: int

    constructor (defaultTtl: int)
      ensures store == map[] && this.defaultTtl == defaultTtl
    {
      this.defaultTtl := defaultTtl;
      store := map[];
    }

    method Get(key: string, now: real) returns (r: Option<V>)
      modifies this
      ensures r == Visible(old(store), key, now)
      ensures store == Swept(old(store), key, now)
    {
      if key !in store {
        return None;
      }
      var entry := store[key];
      if entry.expiry.Some? && now > entry.expiry.value {
        store := store - {key};
        return None;
      }
      r := Some(entry.value);
    }

    method Set(key: string, value: V, ttl: Option<int>, now: real)
      modifies this
      ensures store == old(store)[key := Entry(value, Some(Deadline(ttl, defaultTtl, now)))]
    {
      var expiry := now + (if ttl.None? || ttl.value == 0 then defaultTtl else ttl.value) as real;
      store := store[key := Entry(value, Some(expiry))];
    }

    method Delete(key: string)
      modifies this
      ensures store == old(store) - {key}
    {
      store := store - {key};
    }

    method Exists(key: string, now: real) returns (r: bool)
      modifies this
      ensures r == Visible(old(store), key, now).Some?
      ensures store == Swept(old(store), key, now)
    {
      if key !in store {
        return false;
      }
      if store[key].expiry.Some? && now > store[key].expiry.value {
        store := store - {key};
        return false;
      }
      r := true;
    }
  }

  // ---------- Runs against a map that forgets nothing ----------

  datatype Op<V> =
    | Get(key: string)
    | Set(key: string, value: V, ttl: Option<int>)
    | Delete(key: string)
    | Exists(key: string)

  datatype Event<V> = Event(at: real, op: Op<V>)

  datatype Output<V> = Found(value: Option<V>) | Flag(b: bool) | Silent

  ghost function Answer<V>(store: map<string, Entry<V>>, e: Event<V>): Output<V> {
    match e.op
    case Get(key) => Found(Visible(store, key, e.at))
    case Exists(key) => Flag(Visible(store, key, e.at).Some?)
    case _ => Silent
  }

  // The store of the class after one operation.
  ghost function Lazy<V>(store: map<string, Entry<V>>, defaultTtl: int, e: Event<V>): map<string, Entry<V>> {
    match e.op
    case Get(key) => Swept(store, key, e.at)
    case Exists(key) => Swept(store, key, e.at)
    case Set(key, value, ttl) => store[key := Entry(value, Some(Deadline(ttl, defaultTtl, e.at)))]
    case Delete(key) => store - {key}
  }

  // The reference: reads leave the map alone.
  ghost function Pure<V>(store: map<string, Entry<V>>, defaultTtl: int, e: Event<V>): map<string, Entry<V>> {
    match e.op
    case Get(_) => store
    case Exists(_) => store
    case Set(key, value, ttl) => store[key := Entry(value, Some(Deadline(ttl, defaultTtl, e.at)))]
    case Delete(key) => store - {key}
  }

  ghost function LazyOutputs<V>(store: map<string, Entry<V>>, defaultTtl: int, events: seq<Event<V>>): seq<Output<V>>
    decreases |events|
  {
    if events == [] then []
    else [Answer(store, events[0])] + LazyOutputs(Lazy(store, defaultTtl, events[0]), defaultTtl, events[1..])
  }

  ghost function PureOutputs<V>(store: map<string, Entry<V>>, defaultTtl: int, events: seq<Event<V>>): seq<Output<V>>
    decreases |events|
  {
    if events == [] then []
    else [Answer(store, events[0])] + PureOutputs(Pure(store, defaultTtl, events[0]), defaultTtl, events[1..])
  }

  ghost predicate Ordered<V>(from: real, events: seq<Event<V>>)
    decreases |events|
  {
    events == [] || (from <= events[0].at && Ordered(events[0].at, events[1..]))
  }

  // The lazy store lacks only entries that have expired.
  ghost predicate Refines<V>(store: map<string, Entry<V>>, whole: map<string, Entry<V>>, now: real) {
    && (forall key :: key in store ==> key in whole && store[key] == whole[key])
    && (forall key :: key in whole && key !in store ==> Expired(whole[key], now))
  }

  // On a clock that does not go back, nobody can tell the lazily expiring store from a map of keys
  // to values with deadlines, whatever the run.
  lemma {:induction false} LazyIsPure<V>(store: map<string, Entry<V>>, whole: map<string, Entry<V>>, defaultTtl: int,
                                         events: seq<Event<V>>, now: real)
    requires Refines(store, whole, now) && Ordered(now, events)
    ensures LazyOutputs(store, defaultTtl, events) == PureOutputs(whole, defaultTtl, events)
    decreases |events|
  {
    if events != [] {
      var e := events[0];
      assert Refines(store, whole, e.at);
      LazyIsPure(Lazy(store, defaultTtl, e), Pure(whole, defaultTtl, e), defaultTtl, events[1..], e.at);
    }
  }

  // ---------- How long a value can be read ----------

  ghost function PureAfter<V>(store: map<string, Entry<V>>, defaultTtl: int, events: seq<Event<V>>):
      map<string, Entry<V>>
    decreases |events|
  {
    if events == [] then store else PureAfter(Pure(store, defaultTtl, events[0]), defaultTtl, events[1..])
  }

  predicate Writes<V>(op: Op<V>, key: string) {
    (op.Set? || op.Delete?) && op.key == key
  }

  ghost predicate NoneWrites<V>(events: seq<Event<V>>, key: string) {
    forall i :: 0 <= i < |events| ==> !Writes(events[i].op, key)
  }

  lemma {:induction false} EntryStays<V>(store: map<string, Entry<V>>, defaultTtl: int, events: seq<Event<V>>,
                                         key: string)
    requires key in store && NoneWrites(events, key)
    ensures var after := PureAfter(store, defaultTtl, events); key in after && after[key] == store[key]
    decreases |events|
  {
    if events != [] {
      assert !Writes(events[0].op, key);
      EntryStays(Pure(store, defaultTtl, events[0]), defaultTtl, events[1..], key);
    }
  }

  // A value is read back until ttl seconds after it was set, default_ttl seconds if no ttl or zero was
  // given, unless its key is written again.
  lemma ReadableUntil<V>(store: map<string, Entry<V>>, defaultTtl: int, key: string, value: V, ttl: Option<int>,
                         now: real, events: seq<Event<V>>, later: real)
    requires NoneWrites(events, key)
    ensures var start := Pure(store, defaultTtl, Event(now, Set(key, value, ttl)));
            var after := PureAfter(start, defaultTtl, events);
            var life := if ttl == None || ttl == Some(0) then defaultTtl else ttl.value;
            Answer(after, Event(later, Get(key))) == Found(if later - now <= life as real then Some(value) else None)
  {
    EntryStays(Pure(store, defaultTtl, Event(now, Set(key, value, ttl))), defaultTtl, events, key);
  }
}
