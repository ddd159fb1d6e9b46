/** The keyed pool of servers as a value: reuse, death and eviction over time
    (crates/codequery-lsp/src/daemon.rs, `get_or_start_server` and `evict_idle_servers`). */
module ServerPool {
  import opened Wrappers

  datatype Pooled<+S> = Pooled(server: S, lastUsed: nat, started: nat)

  /** The entries idle no longer than the timeout. */
  function Evicted<K, S>(pool: map<K, Pooled<S>>, now: nat, timeout: nat): map<K, Pooled<S>> {
    map k | k in pool && !Idle(pool[k], now, timeout) :: pool[k]
  }

  predicate Idle<S>(p: Pooled<S>, now: nat, timeout: nat) {
    now - p.lastUsed > timeout
  }

  /** The environment: how long entries may be idle, and when the process of a server runs, as long as
      the daemon does not kill it. */
  datatype Setting<!S> = Setting(timeout: nat, runs: (S, nat) -> bool)

  /** What happens to a pool. A query gets a server or none, after some time. */
  datatype Event<K, S> =
    | Pass(time: nat)
    | Evict
    | Use(key: K, got: Option<S>, took: nat)

  datatype State<K, S> = State(pool: map<K, Pooled<S>>, now: nat)

  /** The pool has a server for the key, and its process runs. */
  predicate Serves<K, S>(c: Setting<S>, s: State<K, S>, key: K) {
    key in s.pool && c.runs(s.pool[key].server, s.now)
  }

  /** The entry of a key after its server is dead, missing, or replaced by one started at time `ready`. */
  function Replaced<K, S>(pool: map<K, Pooled<S>>, key: K, got: Option<S>, ready: nat): map<K, Pooled<S>> {
    match got
    case Some(server) => pool[key := Pooled(server, ready, ready)]
    case None => pool - {key}
  }

  /** A query touches the server whose process runs, and replaces any other. */
  function After<K, S>(c: Setting<S>, s: State<K, S>, e: Event<K, S>): State<K, S> {
    match e
    case Pass(time) => s.(now := s.now + time)
    case Evict => s.(pool := Evicted(s.pool, s.now, c.timeout))
    case Use(key, got, took) =>
      if Serves(c, s, key) then s.(pool := s.pool[key := s.pool[key].(lastUsed := s.now)])
      else State(Replaced(s.pool, key, got, s.now + took), s.now + took)
  }

  /** A query gets the server that the pool serves. */
  predicate Lawful<K, S(==)>(c: Setting<S>, s: State<K, S>, e: Event<K, S>) {
    e.Use? && Serves(c, s, e.key) ==> e.got == Some(s.pool[e.key].server) && e.took == 0
  }

  function AfterAll<K, S>(c: Setting<S>, s: State<K, S>, events: seq<Event<K, S>>): State<K, S> {
    if events == [] then s
    else After(c, AfterAll(c, s, events[..|events| - 1]), events[|events| - 1])
  }

  predicate AllLawful<K, S(==)>(c: Setting<S>, s: State<K, S>, events: seq<Event<K, S>>) {
    events == [] ||
    (AllLawful(c, s, events[..|events| - 1]) && Lawful(c, AfterAll(c, s, events[..|events| - 1]), events[|events| - 1]))
  }

  lemma HistoryNext<K, S>(c: Setting<S>, s: State<K, S>, events: seq<Event<K, S>>, e: Event<K, S>)
    ensures AfterAll(c, s, events + [e]) == After(c, AfterAll(c, s, events), e)
    ensures AllLawful(c, s, events + [e]) <==> AllLawful(c, s, events) && Lawful(c, AfterAll(c, s, events), e)
  {
    assert (events + [e])[..|events|] == events;
  }

  lemma HistoryAt<K, S>(c: Setting<S>, s: State<K, S>, events: seq<Event<K, S>>, n: nat)
    requires n < |events|
    ensures AfterAll(c, s, events[..n + 1]) == After(c, AfterAll(c, s, events[..n]), events[n])
  {
    assert events[..n + 1][..n] == events[..n];
  }

  lemma {:induction false} LawfulAt<K, S>(c: Setting<S>, s: State<K, S>, events: seq<Event<K, S>>, n: nat)
    requires AllLawful(c, s, events) && n < |events|
    ensures Lawful(c, AfterAll(c, s, events[..n]), events[n])
  {
    if n < |events| - 1 {
      LawfulAt(c, s, events[..|events| - 1], n);
      assert events[..|events| - 1][..n] == events[..n];
    }
  }

  /** How many evictions there were. */
  function Evictions<K, S>(events: seq<Event<K, S>>): nat {
    if events == [] then 0
    else Evictions(events[..|events| - 1]) + (if events[|events| - 1].Evict? then 1 else 0)
  }

  lemma EvictionsNext<K, S>(events: seq<Event<K, S>>, e: Event<K, S>)
    ensures Evictions(events + [e]) == Evictions(events) + (if e.Evict? then 1 else 0)
  {
    assert (events + [e])[..|events|] == events;
  }

  /** The keys that were used, in order. */
  function UsedKeys<K, S>(events: seq<Event<K, S>>): seq<K> {
    if events == [] then []
    else UsedKeys(events[..|events| - 1]) + (if events[|events| - 1].Use? then [events[|events| - 1].key] else [])
  }

  lemma UsedKeysNext<K, S>(events: seq<Event<K, S>>, e: Event<K, S>)
    ensures UsedKeys(events + [e]) == UsedKeys(events) + (if e.Use? then [e.key] else [])
  {
    assert (events + [e])[..|events|] == events;
  }

  /** An eviction takes exactly the entries last used longer ago than the timeout. */
  lemma EvictedExactly<K, S>(pool: map<K, Pooled<S>>, now: nat, timeout: nat)
    ensures var kept := Evicted(pool, now, timeout);
            (forall k :: k in kept <==> k in pool && now <= pool[k].lastUsed + timeout)
            && forall k :: k in kept ==> kept[k] == pool[k]
  {
  }

  ghost predicate Timely<K, S>(s: State<K, S>) {
    forall k :: k in s.pool ==> s.pool[k].started <= s.pool[k].lastUsed <= s.now
  }

  lemma AfterIsTimely<K, S>(c: Setting<S>, s: State<K, S>, e: Event<K, S>)
    requires Timely(s)
    ensures Timely(After(c, s, e)) && After(c, s, e).now >= s.now
  {
  }

  /** No server is used before it is started or in the future, at any point of any run. */
  lemma {:induction false} AlwaysTimely<K, S>(c: Setting<S>, s: State<K, S>, events: seq<Event<K, S>>)
    requires Timely(s)
    ensures Timely(AfterAll(c, s, events)) && AfterAll(c, s, events).now >= s.now
  {
    if events == [] {
    } else {
      AlwaysTimely(c, s, events[..|events| - 1]);
      AfterIsTimely(c, AfterAll(c, s, events[..|events| - 1]), events[|events| - 1]);
    }
  }

  predicate Concerns<K(==), S>(e: Event<K, S>, key: K) {
    e.Use? && e.key == key
  }

  /** The entry of a key is left alone while other keys are used and evictions find it fresh enough. */
  lemma {:induction false} EntrySurvives<K, S>(c: Setting<S>, s: State<K, S>, events: seq<Event<K, S>>, key: K)
    requires Timely(s) && key in s.pool
    requires forall e :: e in events ==> !Concerns(e, key)
    requires AfterAll(c, s, events).now - s.pool[key].lastUsed <= c.timeout
    ensures key in AfterAll(c, s, events).pool && AfterAll(c, s, events).pool[key] == s.pool[key]
  {
    if events == [] {
    } else {
      var front, last := events[..|events| - 1], events[|events| - 1];
      assert last in events && forall e :: e in front ==> e in events;
      EntrySurvives(c, s, front, key);
    }
  }

  /** The pool has the server for the key, last used at `since` or later. */
  predicate Holds<K, S(==)>(s: State<K, S>, key: K, server: S, since: nat) {
    key in s.pool && s.pool[key].server == server && since <= s.pool[key].lastUsed
  }

  /** The time of the clock when the event at a position happens. */
  function TimeAt<K, S>(c: Setting<S>, s: State<K, S>, events: seq<Event<K, S>>, n: nat): nat
    requires n < |events|
  {
    AfterAll(c, s, events[..n]).now
  }

  /** The process of a server runs at every query for the key after position `i`, up to position `j`. */
  ghost predicate RunsAtUses<K, S>(c: Setting<S>, s: State<K, S>, events: seq<Event<K, S>>, key: K, server: S,
                                   i: nat, j: nat)
    requires j < |events|
  {
    forall n :: i < n <= j && Concerns(events[n], key) ==> c.runs(server, TimeAt(c, s, events, n))
  }

  /** One event leaves a server in place that was used within the timeout and runs if it is asked for. */
  lemma ServerStays<K, S>(c: Setting<S>, s: State<K, S>, e: Event<K, S>, key: K, server: S, since: nat)
    requires Holds(s, key, server, since) && since <= s.now <= since + c.timeout
    requires Concerns(e, key) ==> c.runs(server, s.now)
    ensures Holds(After(c, s, e), key, server, since)
  {
  }

  lemma {:induction false} TimePasses<K, S>(c: Setting<S>, s: State<K, S>, events: seq<Event<K, S>>, m: nat, n: nat)
    requires m <= n <= |events|
    ensures AfterAll(c, s, events[..m]).now <= AfterAll(c, s, events[..n]).now
    decreases n
  {
    if m == n {
    } else {
      TimePasses(c, s, events, m, n - 1);
      HistoryAt(c, s, events, n - 1);
    }
  }

  /** A server got at position `i` is in the pool right after it. */
  lemma GotIsHeld<K, S>(c: Setting<S>, s: State<K, S>, events: seq<Event<K, S>>, i: nat)
    requires AllLawful(c, s, events) && i < |events| && events[i].Use? && events[i].got.Some?
    ensures Holds(AfterAll(c, s, events[..i + 1]), events[i].key, events[i].got.value,
                  AfterAll(c, s, events[..i + 1]).now)
  {
    HistoryAt(c, s, events, i);
    LawfulAt(c, s, events, i);
  }

  /** It stays there while its process runs at the queries for its key and the timeout is not over. */
  lemma {:induction false} StillHeld<K, S>(c: Setting<S>, s: State<K, S>, events: seq<Event<K, S>>, i: nat, j: nat)
    requires AllLawful(c, s, events) && i < j < |events|
    requires events[i].Use? && events[i].got.Some?
    requires RunsAtUses(c, s, events, events[i].key, events[i].got.value, i, j)
    requires TimeAt(c, s, events, j) - AfterAll(c, s, events[..i + 1]).now <= c.timeout
    ensures Holds(AfterAll(c, s, events[..j]), events[i].key, events[i].got.value, AfterAll(c, s, events[..i + 1]).now)
  {
    hide AfterAll;
    hide AllLawful;
    var since := AfterAll(c, s, events[..i + 1]).now;
    if j == i + 1 {
      GotIsHeld(c, s, events, i);
    } else {
      TimePasses(c, s, events, i + 1, j - 1);
      TimePasses(c, s, events, j - 1, j);
      StillHeld(c, s, events, i, j - 1);
      HistoryAt(c, s, events, j - 1);
      ServerStays(c, AfterAll(c, s, events[..j - 1]), events[j - 1], events[i].key, events[i].got.value, since);
    }
  }

  /** Any two queries for one key at most the timeout apart get the same server if its process runs at
      the second and at every query for the key in between, whatever evictions and other queries there are. */
  lemma SameServer<K, S>(c: Setting<S>, s: State<K, S>, events: seq<Event<K, S>>, i: nat, j: nat)
    requires AllLawful(c, s, events) && i < j < |events|
    requires events[i].Use? && events[j].Use? && events[j].key == events[i].key && events[i].got.Some?
    requires RunsAtUses(c, s, events, events[i].key, events[i].got.value, i, j)
    requires TimeAt(c, s, events, j) - AfterAll(c, s, events[..i + 1]).now <= c.timeout
    ensures events[j].got == events[i].got
  {
    StillHeld(c, s, events, i, j);
    LawfulAt(c, s, events, j);
  }
}
