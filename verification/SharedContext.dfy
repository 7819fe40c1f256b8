// The context that agents share: entries of the cache under namespaced keys.
module SharedContext {
  import opened Text
  import opened MemoryCache
  import opened Wrappers

  const GLOBAL_PREFIX := "ctx:global:"
  const ROLE_PREFIX := "ctx:role:"

  function GlobalKey(key: string): string {
    GLOBAL_PREFIX + key
  }

  function RoleKey(role: string, key: string): string {
    ROLE_PREFIX + (role + ":" + key)
  }

  // A stored text that does not parse as JSON is handed out as it is.
  datatype Fetched<V> = Missing | Decoded(value: V) | Raw(text: string)

  function Decode<V>(text: Option<string>, loads: string -> Option<V>): Fetched<V> {
    if text.None? then Missing
    else match loads(text.value) case None => Raw(text.value) case Some(v) => Decoded(v)
  }

  class Context<V> {
    const cache: Cache<string>
    const dumps: V -> string
    const loads: string -> Option<V>

    constructor (cache: Cache<string>, dumps: V -> string, loads: string -> Option<V>)
      ensures this.cache == cache && this.dumps == dumps && this.loads == loads
    {
      this.cache, this.dumps, this.loads := cache, dumps, loads;
    }

    method SetGlobal(key: string, value: V, ttl: int, now: real)
      modifies cache
      ensures cache.store == old(cache.store)[GlobalKey(key) :=
                Entry(dumps(value), Some(Deadline(Some(ttl), cache.defaultTtl, now)))]
    {
      cache.Set(GlobalKey(key), dumps(value), Some(ttl), now);
    }

    method GetGlobal(key: string, now: real) returns (r: Fetched<V>)
      modifies cache
      ensures r == Decode(Visible(old(cache.store), GlobalKey(key), now), loads)
      ensures cache.store == Swept(old(cache.store), GlobalKey(key), now)
    {
      var text := cache.Get(GlobalKey(key), now);
      r := Decode(text, loads);
    }

    method SetRole(role: string, key: string, value: V, ttl: int, now: real)
      modifies cache
      ensures cache.store == old(cache.store)[RoleKey(role, key) :=
                Entry(dumps(value), Some(Deadline(Some(ttl), cache.defaultTtl, now)))]
    {
      cache.Set(RoleKey(role, key), dumps(value), Some(ttl), now);
    }

    method GetRole(role: string, key: string, now: real) returns (r: Fetched<V>)
      modifies cache
      ensures r == Decode(Visible(old(cache.store), RoleKey(role, key), now), loads)
      ensures cache.store == Swept(old(cache.store), RoleKey(role, key), now)
    {
      var text := cache.Get(RoleKey(role, key), now);
      r := Decode(text, loads);
    }
  }

  lemma PrefixInjective(prefix: string, a: string, b: string)
    ensures prefix + a == prefix + b <==> a == b
  {
    if prefix + a == prefix + b {
      assert a == (prefix + a)[|prefix|..] && b == (prefix + b)[|prefix|..];
    }
  }

  // Role entries and global entries never share a key, global keys are told apart by name, and role
  // keys by role and name provided the roles hold no colon.
  lemma KeysApart(role: string, key: string, role': string, key': string)
    ensures GlobalKey(key) == GlobalKey(key') <==> key == key'
    ensures RoleKey(role, key) != GlobalKey(key')
    ensures ':' !in role && ':' !in role' ==>
              (RoleKey(role, key) == RoleKey(role', key') <==> role == role' && key == key')
  {
    PrefixInjective(GLOBAL_PREFIX, key, key');
    PrefixInjective(ROLE_PREFIX, role + ":" + key, role' + ":" + key');
    assert RoleKey(role, key)[4] == 'r' && GlobalKey(key')[4] == 'g';
    if ':' !in role && ':' !in role' { ColonSplits(role, key, role', key'); }
  }

  ghost predicate ShareKey(role: string, role': string) {
    exists key, key' :: RoleKey(role, key) == RoleKey(role', key')
  }

  // Two roles can meet in one key exactly when they are equal or one of them continues the other
  // after a colon.
  lemma RolesCollideIff(role: string, role': string)
    ensures ShareKey(role, role') <==> role == role' || StartsWith(role', role + ":") || StartsWith(role, role' + ":")
  {
    if key, key' :| RoleKey(role, key) == RoleKey(role', key') {
      PrefixInjective(ROLE_PREFIX, role + ":" + key, role' + ":" + key');
      if |role| < |role'| { Continues(role, key, role', key'); }
      if |role'| < |role| { Continues(role', key', role, key); }
      if |role| == |role'| { assert role == (role + ":" + key)[..|role|] == role'; }
    }
    if role == role' { assert RoleKey(role, "") == RoleKey(role', ""); }
    if StartsWith(role', role + ":") { Meet(role, role'); }
    if StartsWith(role, role' + ":") { Meet(role', role); }
  }

  lemma Continues(role: string, key: string, role': string, key': string)
    requires role + ":" + key == role' + ":" + key' && |role| < |role'|
    ensures StartsWith(role', role + ":")
  {
    var n := |role| + 1;
    assert role' == (role' + ":" + key')[..|role'|];
    assert role'[..n] == (role + ":" + key)[..n] == role + ":";
  }

  lemma Meet(role: string, role': string)
    requires StartsWith(role', role + ":")
    ensures ShareKey(role, role') && ShareKey(role', role)
  {
    var rest := role'[|role| + 1..];
    var key := rest + ":";
    assert role' == (role + ":") + rest;
    assert role' + ":" + "" == role + ":" + key;
    assert RoleKey(role, key) == RoleKey(role', "");
  }

  // Writing one (role, key) leaves every other role entry and every global entry as it was, and the
  // entry itself reads back until its deadline.
  lemma RoleWriteIsLocal(store: map<string, Entry<string>>, role: string, key: string, text: string, deadline: real,
                         role': string, key': string, now: real)
    requires ':' !in role && ':' !in role'
    ensures var after := store[RoleKey(role, key) := Entry(text, Some(deadline))];
            && Visible(after, GlobalKey(key'), now) == Visible(store, GlobalKey(key'), now)
            && Visible(after, RoleKey(role', key'), now)
               == if role == role' && key == key' then (if now > deadline then None else Some(text))
                  else Visible(store, RoleKey(role', key'), now)
  {
    KeysApart(role, key, role', key');
  }
}
