/** The daemon: its server pool, its requests, and its accept loop (crates/codequery-lsp/src/daemon.rs). */
module Daemons {
  import opened Wrappers
  import opened Symbols
  import opened LspServers
  import opened ServerPool

  type Key = (Path, Language)

  /** A request; the language and the operation of a query are none when their names are not known, and
      the file stands for the URI it is canonicalized to. */
  datatype DaemonRequest =
    | Query(project: Path, language: Option<Language>, operation: Option<Operation>, uri: string)
    | Status
    | Shutdown
    | Authenticate(token: string)

  datatype DaemonResponse =
    | Locations(found: Reply) | HoverText(hover: Option<string>)
    | StatusInfo(servers: set<Key>)
    | Acknowledged | AuthOk
    | Error(message: string)

  /** A frame on a connection: a request, or bytes that are not one. */
  datatype Frame = Request(request: DaemonRequest) | Malformed

  datatype Arrival = Connection(frames: seq<Frame>) | NoConnection | AcceptFailed

  /** One turn of the accept loop: whether a signal has come before it, and what `accept` gives. */
  datatype Turn = Turn(signalled: bool, arrival: Arrival)

  datatype Stop = Signalled | AskedToStop | OutOfTurns

  /** The first frame of a connection is the token. */
  predicate Authenticated(token: string, frames: seq<Frame>) {
    frames != [] && frames[0] == Request(Authenticate(token))
  }

  /** The request that is dispatched for a connection. */
  function Dispatched(token: string, frames: seq<Frame>): Option<DaemonRequest> {
    if Authenticated(token, frames) && |frames| >= 2 && frames[1].Request? then Some(frames[1].request) else None
  }

  /** What is written when nothing is dispatched. */
  function Greeting(token: string, frames: seq<Frame>): seq<DaemonResponse> {
    if Authenticated(token, frames) then [AuthOk]
    else if frames != [] && frames[0].Request? then [AUTH_FAILED]
    else []
  }

  const AUTH_FAILED := Error("authentication failed")
  const ACCEPT_PAUSE: nat := 100

  /** The connection makes the daemon stop. */
  predicate StopsDaemon(token: string, frames: seq<Frame>) {
    Dispatched(token, frames) == Some(Shutdown)
  }

  /** The accept loop returns in this turn. */
  predicate Ends(token: string, turn: Turn) {
    turn.signalled || (turn.arrival.Connection? && StopsDaemon(token, turn.arrival.frames))
  }

  predicate Fits(operation: Option<Operation>, response: DaemonResponse) {
    || response.Error?
    || (response.Locations? && (operation == Some(Definition) || operation == Some(References)))
    || (response.HoverText? && operation == Some(Hover))
  }

  predicate Replies(request: DaemonRequest, response: DaemonResponse) {
    match request
    case Query(_, language, operation, _) => Fits(operation, response) && (language.None? ==> response.Error?)
    case Status => response.StatusInfo?
    case Shutdown => response.Acknowledged?
    case Authenticate(_) => response.Error?
  }

  /** The response passes on exactly what the server answered, or an error if it did not answer. */
  predicate Conveys(operation: Operation, reply: Option<Reply>, response: DaemonResponse) {
    if reply.None? then response.Error?
    else if operation.Hover? then
      response == HoverText(if reply.value.Null? then None else Some(reply.value.text))
    else response == Locations(reply.value)
  }

  /** The query went out last, after the didOpen of its document, and the response is the server's answer;
      or the pipe is broken and the response is an error. */
  ghost predicate Consulted(s: LspServer, operation: Operation, uri: string, response: DaemonResponse)
    reads s
  {
    if s.broken then response.Error?
    else
      && s.sent != [] && s.sent[|s.sent| - 1] == Wire.Query(operation, uri) && IsOpened(s.sent, uri)
      && Conveys(operation, s.process.reply(|s.sent| - 1), response)
  }

  /** What is written back on one connection. */
  predicate Exchanged(token: string, frames: seq<Frame>, outbox: seq<DaemonResponse>) {
    match Dispatched(token, frames)
    case None => outbox == Greeting(token, frames)
    case Some(request) => |outbox| == 2 && outbox[0] == AuthOk && Replies(request, outbox[1])
  }

  /** The key that a connection asks a server for, if any. */
  function AskedKey(token: string, frames: seq<Frame>): seq<Key> {
    match Dispatched(token, frames)
    case Some(Query(project, Some(language), _, _)) => [(project, language)]
    case _ => []
  }

  /** The frames that a turn brings. */
  function FramesOf(turn: Turn): seq<Frame> {
    if turn.arrival.Connection? then turn.arrival.frames else []
  }

  function AskedKeys(token: string, turns: seq<Turn>): seq<Key> {
    if turns == [] then []
    else AskedKeys(token, turns[..|turns| - 1]) + AskedKey(token, FramesOf(turns[|turns| - 1]))
  }

  /** The turns in which no connection is pending. */
  function Pauses(turns: seq<Turn>): nat {
    if turns == [] then 0
    else Pauses(turns[..|turns| - 1]) + (if turns[|turns| - 1].arrival.NoConnection? then 1 else 0)
  }

  lemma NoTurns(token: string)
    ensures AskedKeys(token, []) == [] && Pauses([]) == 0
  {
  }

  lemma NothingExchanged(token: string)
    ensures Exchanged(token, [], []) && AskedKey(token, []) == []
  {
  }

  lemma StoppingAsksNothing(token: string, frames: seq<Frame>)
    requires StopsDaemon(token, frames)
    ensures AskedKey(token, frames) == []
  {
  }

  lemma NextTurn(token: string, turns: seq<Turn>, n: nat)
    requires n < |turns|
    ensures AskedKeys(token, turns[..n + 1]) == AskedKeys(token, turns[..n]) + AskedKey(token, FramesOf(turns[n]))
    ensures Pauses(turns[..n + 1]) == Pauses(turns[..n]) + (if turns[n].arrival.NoConnection? then 1 else 0)
  {
    assert turns[..n + 1][..n] == turns[..n];
  }

  lemma RemovedNext<K, V>(m: map<K, V>, keys: set<K>, left: set<K>, key: K)
    requires left <= keys && key in left
    ensures m - (keys - left) - {key} == m - (keys - (left - {key}))
  {
    assert keys - (left - {key}) == (keys - left) + {key};
  }

  lemma EvictedIsRemoved<K, S>(pool: map<K, Pooled<S>>, now: nat, timeout: nat)
    ensures Evicted(pool, now, timeout) == pool - (set k | k in pool && Idle(pool[k], now, timeout))
  {
  }

  lemma RemovingNothing<K, V>(m: map<K, V>, key: K)
    requires key !in m
    ensures m - {key} == m
  {
  }

  /** A history of the pool that starts empty at time `born`. */
  ghost predicate History<K, S>(c: Setting<S>, born: nat, past: seq<Event<K, S>>, pool: map<K, Pooled<S>>, now: nat) {
    AfterAll(c, State(map[], born), past) == State(pool, now) && AllLawful(c, State(map[], born), past)
  }

  lemma UseThen<K, S>(c: Setting<S>, born: nat, past: seq<Event<K, S>>, pool: map<K, Pooled<S>>, now: nat,
                      key: K, got: Option<S>, pool': map<K, Pooled<S>>, now': nat)
    requires History(c, born, past, pool, now) && now' >= now
    requires if Serves(c, State(pool, now), key) then
               now' == now && got == Some(pool[key].server) && pool' == pool[key := pool[key].(lastUsed := now)]
             else pool' == Replaced(pool - {key}, key, got, now')
    ensures History(c, born, past + [Use(key, got, now' - now)], pool', now')
  {
    HistoryNext(c, State(map[], born), past, Use(key, got, now' - now));
    ReplacedOfRemoved(pool, key, got, now');
  }

  lemma ReplacedOfRemoved<K, S>(pool: map<K, Pooled<S>>, key: K, got: Option<S>, ready: nat)
    ensures Replaced(pool - {key}, key, got, ready) == Replaced(pool, key, got, ready)
  {
  }

  lemma EvictThenPass<K, S>(c: Setting<S>, born: nat, past: seq<Event<K, S>>, pool: map<K, Pooled<S>>, now: nat,
                            time: nat)
    requires History(c, born, past, pool, now)
    ensures History(c, born, past + [Evict] + [Pass(time)], Evicted(pool, now, c.timeout), now + time)
    ensures Evictions(past + [Evict] + [Pass(time)]) == Evictions(past) + 1
    ensures UsedKeys(past + [Evict] + [Pass(time)]) == UsedKeys(past)
  {
    UsedKeysNext(past, Evict);
    UsedKeysNext(past + [Evict], Pass(time));
    EvictionsNext(past, Evict);
    EvictionsNext(past + [Evict], Pass(time));
    HistoryNext(c, State(map[], born), past, Evict);
    HistoryNext(c, State(map[], born), past + [Evict], Pass(time));
  }

  lemma TimeThen<K, S>(c: Setting<S>, born: nat, past: seq<Event<K, S>>, pool: map<K, Pooled<S>>, now: nat, time: nat)
    requires History(c, born, past, pool, now)
    ensures History(c, born, past + [Pass(time)], pool, now + time)
    ensures Evictions(past + [Pass(time)]) == Evictions(past) && UsedKeys(past + [Pass(time)]) == UsedKeys(past)
  {
    UsedKeysNext(past, Pass(time));
    EvictionsNext(past, Pass(time));
    HistoryNext(c, State(map[], born), past, Pass(time));
  }

  /** One query for the key has been made of the pool, and time has passed. */
  ghost predicate Queried<K, S>(before: seq<Event<K, S>>, past: seq<Event<K, S>>, key: K) {
    |past| == |before| + 2 && past == before + past[|before|..]
    && Concerns(past[|before|], key) && past[|before| + 1].Pass?
  }

  lemma QueryIsOneUse<K, S>(before: seq<Event<K, S>>, past: seq<Event<K, S>>, key: K)
    requires Queried(before, past, key)
    ensures Evictions(past) == Evictions(before) && UsedKeys(past) == UsedKeys(before) + [key]
  {
    UsedKeysNext(before, past[|before|]);
    UsedKeysNext(before + [past[|before|]], past[|before| + 1]);
    EvictionsNext(before, past[|before|]);
    EvictionsNext(before + [past[|before|]], past[|before| + 1]);
    assert past == before + [past[|before|]] + [past[|before| + 1]];
  }

  function KeyOf(s: LspServer): Key { (s.project, s.language) }

  /** The process of a server runs at a time if nobody has killed it: the environment's word, which
      nothing that the daemon does can change. */
  predicate Runs(s: LspServer, t: nat) { s.process.report(t).Running? }

  class Daemon {
    const idleTimeout: nat
    const token: string
    const configured: set<Language>
    const launch: (Key, nat) -> Option<Process>   // what spawning a server for a key at a time gives
    var servers: map<Key, Pooled<LspServer>>
    var now: nat
    ghost var begun: set<LspServer>   // every server whose start succeeded
    ghost const born: nat
    ghost var past: seq<Event<Key, LspServer>>   // what has happened to the pool

    ghost predicate Pools(s: LspServer)
      reads `servers
    {
      KeyOf(s) in servers && servers[KeyOf(s)].server == s
    }

    ghost predicate KeptUnder(k: Key, p: Pooled<LspServer>)
      reads `begun, `now
    {
      p.server in begun && KeyOf(p.server) == k && p.started <= p.lastUsed <= now
    }

    /** Every server begun is in the pool, under the key it was started for, with its session in use, or
        it has been dropped exactly once; and the pool has no other servers. */
    ghost predicate Valid()
      reads `servers, `begun, `now, begun
    {
      && (forall k :: k in servers ==> KeptUnder(k, servers[k]))
      && (forall s :: s in begun && Pools(s) ==> s.InUse())
      && (forall s :: s in begun && !Pools(s) ==> s.Gone())
    }

    lemma PoolKeys()
      requires Valid()
      ensures forall k :: k in servers ==>
                            servers[k].server in begun && KeyOf(servers[k].server) == k && Pools(servers[k].server)
      ensures forall s :: s in begun && Pools(s) ==> KeyOf(s) in servers
    {
    }

    lemma PooledIsInUse(s: LspServer)
      requires Valid() && s in begun && Pools(s)
      ensures s.InUse() && s.Active()
    {
    }

    /** One pooled server has been talked to. */
    twostate lemma ServerChanged(server: LspServer)
      requires old(Valid()) && server in begun && Pools(server) && server.InUse()
      requires unchanged(this) && forall s :: s in begun && s != server ==> unchanged(s)
      ensures Valid()
    {
    }

    /** One pooled server has been taken out and consumed. */
    twostate lemma ServerGone(server: LspServer)
      requires old(Valid()) && server in begun && old(Pools(server)) && server.Gone()
      requires begun == old(begun) && servers == old(servers) - {KeyOf(server)} && now >= old(now)
      requires forall s :: s in begun && s != server ==> unchanged(s)
      ensures Valid()
    {
    }

    ghost function Environment(): Setting<LspServer> { Setting(idleTimeout, Runs) }

    /** The pool is what the recorded events make of an empty one. */
    ghost predicate Traced()
      reads `servers, `now, `past
    {
      History(Environment(), born, past, servers, now)
    }

    /** A server for the key can be started at a time. */
    predicate Startable(key: Key, t: nat) {
      key.1 in configured && launch(key, t).Some? && Handshakes(launch(key, t).value)
    }

    constructor (idleTimeout: nat, token: string, configured: set<Language>,
                 launch: (Key, nat) -> Option<Process>, now: nat)
      ensures Valid() && Traced() && servers == map[] && begun == {} && past == []
    {
      this.idleTimeout, this.token, this.configured, this.launch, this.now := idleTimeout, token, configured,
                                                                              launch, now;
      servers, begun, born, past := map[], {}, now, [];
    }

    /** Lets some time pass. */
    method Wait(time: nat)
      requires Valid() && Traced()
      modifies `now, `past
      ensures Valid() && Traced() && now == old(now) + time
      ensures past == old(past) + [Pass(time)]
      ensures Evictions(past) == Evictions(old(past)) && UsedKeys(past) == UsedKeys(old(past))
    {
      hide LspServer.Gone;
      hide LspServer.InUse;
      hide History;
      TimeThen(Environment(), born, past, servers, now, time);
      now, past := now + time, past + [Pass(time)];
    }

    /** Takes one server out of the pool and shuts it down. */
    method Retire(key: Key)
      requires Valid() && key in servers
      modifies this, begun
      ensures Valid() && begun == old(begun) && now >= old(now)
      ensures servers == old(servers) - {key} && past == old(past)
      ensures old(servers)[key].server.shutdowns == 1
      ensures forall s :: s in begun && s != old(servers)[key].server ==> unchanged(s)
    {
      hide Daemon.Valid;
      PoolKeys();
      var server := servers[key].server;
      PooledIsInUse(server);
      servers := servers - {key};
      var _, finish := server.Shutdown(now);
      now := finish;
      ServerGone(server);
    }

    /** Takes one server out of the pool and drops it, which kills a process that still runs. */
    method Discard(key: Key)
      requires Valid() && key in servers
      modifies this, begun
      ensures Valid() && begun == old(begun) && now == old(now)
      ensures servers == old(servers) - {key} && past == old(past)
      ensures var s := old(servers)[key].server; s.shutdowns == 0 && (s.killed ==> Runs(s, now))
      ensures forall s :: s in begun && s != old(servers)[key].server ==> unchanged(s)
    {
      hide Daemon.Valid;
      PoolKeys();
      var server := servers[key].server;
      PooledIsInUse(server);
      servers := servers - {key};
      server.Drop(now);
      ServerGone(server);
    }

    /** The loop of `evict_idle_servers` and of `shutdown_all_servers`. */
    method ShutdownServers(keys: set<Key>)
      requires Valid() && keys <= servers.Keys
      modifies this, begun
      ensures Valid() && begun == old(begun) && now >= old(now) && past == old(past)
      ensures servers == old(servers) - keys
      ensures forall k :: k in keys ==> old(servers)[k].server.shutdowns == 1
      ensures forall s :: s in begun && Pools(s) ==> unchanged(s)
    {
      hide Daemon.Valid;
      hide Daemon.Pools;
      var left := keys;
      PoolKeys();
      while left != {}
        invariant Valid() && begun == old(begun) && now >= old(now) && past == old(past)
        invariant left <= keys && left <= servers.Keys && servers == old(servers) - (keys - left)
        invariant forall k :: k in keys - left ==> old(servers)[k].server.shutdowns == 1
        invariant forall s :: s in begun && KeyOf(s) !in keys - left ==> unchanged(s)
        decreases |left|
      {
        var key :| key in left;
        RemovedNext(old(servers), keys, left, key);
        Retire(key);
        left := left - {key};
      }
      PoolKeys();
    }

    /** `evict_idle_servers`: exactly the servers idle for longer than the timeout are shut down. */
    method EvictIdleServers()
      requires Valid() && Traced()
      modifies this, begun
      ensures Valid() && Traced() && begun == old(begun) && now >= old(now)
      ensures forall k :: k in servers <==> k in old(servers) && old(now) <= old(servers)[k].lastUsed + idleTimeout
      ensures forall k :: k in servers ==> servers[k] == old(servers)[k]
      ensures forall k :: k in old(servers) - servers.Keys ==> old(servers)[k].server.shutdowns == 1
      ensures past == old(past) + [Evict] + [Pass(now - old(now))]
      ensures Evictions(past) == Evictions(old(past)) + 1 && UsedKeys(past) == UsedKeys(old(past))
      ensures forall s :: s in begun && Pools(s) ==> unchanged(s)
    {
      hide Daemon.Valid;
      hide History;
      var toRemove := set k | k in servers && Idle(servers[k], now, idleTimeout);
      EvictedIsRemoved(servers, now, idleTimeout);
      EvictedExactly(servers, now, idleTimeout);
      ShutdownServers(toRemove);
      EvictThenPass(Environment(), born, past, old(servers), old(now), now - old(now));
      past := past + [Evict] + [Pass(now - old(now))];
    }

    /** `shutdown_all_servers`. */
    method ShutdownAllServers()
      requires Valid()
      modifies this, begun
      ensures Valid() && begun == old(begun) && now >= old(now) && servers == map[]
      ensures forall k :: k in old(servers) ==> old(servers)[k].server.shutdowns == 1
    {
      ShutdownServers(servers.Keys);
    }

    /** The second half of `get_or_start_server`: starts a server for a key that has none. */
    method StartServer(project: Path, language: Language) returns (server: Option<LspServer>)
      requires Valid() && (project, language) !in servers
      modifies this
      ensures Valid() && begun == old(begun) + (if server.Some? then {server.value} else {}) && now >= old(now)
      ensures server.Some? <==> Startable((project, language), old(now))
      ensures servers == (if server.Some? then old(servers)[(project, language) := Pooled(server.value, now, now)]
                          else old(servers)) && past == old(past)
      ensures servers == Replaced(old(servers), (project, language), server, now)
      ensures server.Some? ==> fresh(server.value) && server.value in begun && Pools(server.value)
                               && KeyOf(server.value) == (project, language)
      ensures server.None? ==> (project, language) !in servers
    {
      hide LspServer.Gone;
      hide LspServer.InUse;
      RemovingNothing(servers, (project, language));
      if language !in configured {
        return None;
      }
      var launched := launch((project, language), now);
      var took: nat :| took >= 0;
      now := now + took;
      var started, _ := LspServer.Start(project, language, launched);
      if started == null {
        return None;
      }
      begun := begun + {started};
      servers := servers[(project, language) := Pooled(started, now, now)];
      return Some(started);
    }

    /** The first half of `get_or_start_server`: a server whose process runs is touched, any other is
        dropped, and none is killed. */
    method TouchOrDiscard(key: Key) returns (live: Option<LspServer>)
      requires Valid()
      modifies this, begun
      ensures Valid() && begun == old(begun) && now == old(now) && past == old(past)
      ensures live.Some? <==> key in old(servers) && Runs(old(servers)[key].server, now)
      ensures live.Some? ==> live.value == old(servers)[key].server
                             && servers == old(servers)[key := old(servers)[key].(lastUsed := now)]
      ensures live.Some? ==> live.value in begun && KeyOf(live.value) == key
      ensures live.None? ==> servers == old(servers) - {key}
      ensures live.None? && key in old(servers) ==> var s := old(servers)[key].server; s.shutdowns == 0 && !s.killed
      ensures forall s :: s in begun && (live.Some? || KeyOf(s) != key) ==> unchanged(s)
    {
      hide LspServer.Gone;
      if key !in servers {
        RemovingNothing(servers, key);
        return None;
      }
      assert Pools(servers[key].server) && servers[key].server.InUse();
      var ready := servers[key].server.IsReady(now);
      if ready {
        servers := servers[key := servers[key].(lastUsed := now)];
        return Some(servers[key].server);
      } else {
        Discard(key);
        return None;
      }
    }

    /** `get_or_start_server`: the server whose process runs is reused; any other is dropped, and it or a
        missing one is replaced by a server that started. It always finds the server it promises. */
    method GetOrStartServer(project: Path, language: Language) returns (server: Option<LspServer>)
      requires Valid() && Traced()
      modifies this, begun
      ensures Valid() && Traced() && begun >= old(begun) && fresh(begun - old(begun)) && now >= old(now)
      ensures past == old(past) + [Use((project, language), server, now - old(now))]
      ensures if (project, language) in old(servers) && Runs(old(servers)[(project, language)].server, old(now)) then
                server == Some(old(servers)[(project, language)].server) && begun == old(begun)
              else
                && (server.Some? <==> Startable((project, language), old(now)))
                && (server.Some? ==> fresh(server.value) && begun == old(begun) + {server.value})
      ensures server.None? ==> begun == old(begun) && (project, language) !in servers
      ensures server.Some? ==> server.value in begun && Pools(server.value)
                               && KeyOf(server.value) == (project, language)
      ensures forall s :: s in old(begun) && KeyOf(s) != (project, language) ==> unchanged(s)
    {
      hide Daemon.Valid;
      hide History;
      hide Replaced;
      server := TouchOrDiscard((project, language));
      if server == None {
        server := StartServer(project, language);
      }
      UseThen(Environment(), born, past, old(servers), old(now), (project, language), server, servers, now);
      past := past + [Use((project, language), server, now - old(now))];
    }

    /** In the history of any daemon, any two queries for one key at most the timeout apart got the same
        server, if its process ran at the second and at the queries for the key in between. */
    lemma SameServerWithinTimeout(i: nat, j: nat)
      requires Traced() && i < j < |past|
      requires past[i].Use? && past[j].Use? && past[j].key == past[i].key && past[i].got.Some?
      requires RunsAtUses(Environment(), State(map[], born), past, past[i].key, past[i].got.value, i, j)
      requires TimeAt(Environment(), State(map[], born), past, j) - EndOf(i) <= idleTimeout
      ensures past[j].got == past[i].got
    {
      SameServer(Environment(), State(map[], born), past, i, j);
    }

    /** The time at which the event at a position is over. */
    ghost function EndOf(i: nat): nat
      requires i < |past|
      reads `past
    {
      AfterAll(Environment(), State(map[], born), past[..i + 1]).now
    }

    /** Opens the document and sends the query of an operation to a pooled server. */
    method Consult(server: LspServer, operation: Option<Operation>, uri: string) returns (response: DaemonResponse)
      requires Valid() && server in begun && Pools(server)
      modifies server
      ensures Valid() && Fits(operation, response)
      ensures if operation.None? then response.Error? else Consulted(server, operation.value, uri, response)
    {
      hide Daemon.Valid;
      hide LspServer.InUse;
      hide LspServer.Active;
      PooledIsInUse(server);
      var ok := server.OpenDocument(uri);
      ServerChanged(server);
      if !ok {
        return Error("failed to open document");
      }
      if operation.None? {
        return Error("unknown operation");
      }
      var answer := server.Ask(operation.value, uri);
      ServerChanged(server);
      if answer.None? {
        return Error("query failed");
      }
      match operation.value
      case Hover =>
        match answer.value {
          case Null => response := HoverText(None);
          case Text(text) => response := HoverText(Some(text));
        }
      case _ => response := Locations(answer.value);
    }

    /** A query that asked the pool for a server between two points of the history, and its response: the
        server's answer if a server was got and the operation is known, and an error otherwise. */
    ghost predicate Served(before: seq<Event<Key, LspServer>>, request: DaemonRequest, response: DaemonResponse)
      requires request.Query? && request.language.Some?
      reads `past, `begun, begun
    {
      Queried(before, past, (request.project, request.language.value))
      && var got := past[|before|].got;
      if got.None? || request.operation.None? then response.Error?
      else got.value in begun && Consulted(got.value, request.operation.value, request.uri, response)
    }

    /** `handle_query`. */
    method HandleQuery(project: Path, language: Option<Language>, operation: Option<Operation>, uri: string)
      returns (response: DaemonResponse)
      requires Valid() && Traced()
      modifies this, begun
      ensures Valid() && Traced() && begun >= old(begun) && fresh(begun - old(begun)) && now >= old(now)
      ensures Fits(operation, response)
      ensures language.None? ==> response.Error? && servers == old(servers) && past == old(past)
      ensures language.Some? ==> Served(old(past), DaemonRequest.Query(project, language, operation, uri), response)
      ensures forall s :: s in old(begun) && (s.project, Some(s.language)) != (project, language) ==> unchanged(s)
    {
      hide Daemon.Valid;
      hide History;
      if language == None {
        return Error("unsupported language");
      }
      var server := GetOrStartServer(project, language.value);
      if server == None {
        Wait(0);
        return Error("failed to start server");
      }
      response := Consult(server.value, operation, uri);
      var took: nat :| took >= 0;
      Wait(took);
    }

    /** `handle_request`. */
    method HandleRequest(request: DaemonRequest) returns (response: DaemonResponse, stop: bool)
      requires Valid() && Traced()
      modifies this, begun
      ensures Valid() && Traced() && begun >= old(begun) && fresh(begun - old(begun)) && now >= old(now)
      ensures stop <==> request.Shutdown?
      ensures Replies(request, response)
      ensures request.Status? ==> response == StatusInfo(servers.Keys)
      ensures request.Query? && request.language.Some? ==> Served(old(past), request, response)
      ensures !(request.Query? && request.language.Some?) ==> servers == old(servers) && past == old(past)
    {
      hide Daemon.Valid;
      hide History;
      match request
      case Query(project, language, operation, uri) =>
        response := HandleQuery(project, language, operation, uri);
        stop := false;
      case Status =>
        return StatusInfo(servers.Keys), false;
      case Shutdown =>
        return Acknowledged, true;
      case Authenticate(_) =>
        return Error("unexpected authenticate request"), false;
    }

    /** `handle_connection`: what comes in on one connection, what is written back, and whether to stop.
        Only the second frame of an authenticated connection is dispatched; the rest is never read. */
    method HandleConnection(frames: seq<Frame>) returns (stop: bool, outbox: seq<DaemonResponse>)
      requires Valid() && Traced()
      modifies this, begun
      ensures Valid() && Traced() && begun >= old(begun) && fresh(begun - old(begun)) && now >= old(now)
      ensures stop <==> |frames| >= 2 && frames[..2] == [Request(Authenticate(token)), Request(DaemonRequest.Shutdown)]
      ensures Exchanged(token, frames, outbox)
      ensures Dispatched(token, frames).None? ==>
                servers == old(servers) && now == old(now) && begun == old(begun)
                && past == old(past) && forall s :: s in old(begun) ==> unchanged(s)
      ensures AskedKey(token, frames) != [] ==> Served(old(past), frames[1].request, outbox[1])
      ensures Evictions(past) == Evictions(old(past)) && UsedKeys(past) == UsedKeys(old(past)) + AskedKey(token, frames)
    {
      hide Daemon.Valid;
      hide History;
      hide Evictions;
      hide UsedKeys;
      if frames == [] || frames[0].Malformed? {
        return false, [];
      }
      if frames[0].request != Authenticate(token) {
        return false, [AUTH_FAILED];
      }
      outbox := [AuthOk];
      if |frames| < 2 || frames[1].Malformed? {
        return false, outbox;
      }
      var response, stopping := HandleRequest(frames[1].request);
      if frames[1].request.Query? && frames[1].request.language.Some? {
        QueryIsOneUse(old(past), past, (frames[1].request.project, frames[1].request.language.value));
      }
      return stopping, outbox + [response];
    }

    /** `accept_loop` over as many turns as are given: each turn without a signal evicts once and serves
        its connection, if it has one; what is written back is collected turn by turn. */
    method AcceptLoop(turns: seq<Turn>) returns (stop: Stop, done: nat, outboxes: seq<seq<DaemonResponse>>)
      requires Valid() && Traced()
      modifies this, begun
      ensures Valid() && Traced() && begun >= old(begun) && fresh(begun - old(begun))
      ensures done <= |turns| && forall i :: 0 <= i < done ==> !Ends(token, turns[i])
      ensures stop.OutOfTurns? <==> done == |turns|
      ensures stop.Signalled? <==> done < |turns| && turns[done].signalled
      ensures stop.AskedToStop? <==> done < |turns| && !turns[done].signalled && Ends(token, turns[done])
      ensures Evictions(past) == Evictions(old(past)) + done + (if stop.AskedToStop? then 1 else 0)
      ensures UsedKeys(past) == UsedKeys(old(past)) + AskedKeys(token, turns[..done])
      ensures |outboxes| == done + (if stop.AskedToStop? then 1 else 0)
      ensures forall i :: 0 <= i < |outboxes| ==> Exchanged(token, FramesOf(turns[i]), outboxes[i])
      ensures now >= old(now) + 100 * Pauses(turns[..done])
    {
      hide Daemon.Valid;
      hide History;
      hide Evictions;
      hide UsedKeys;
      hide Exchanged;
      hide AskedKeys;
      hide Pauses;
      done, outboxes := 0, [];
      NoTurns(token);
      while done < |turns|
        invariant Valid() && Traced() && begun >= old(begun) && fresh(begun - old(begun))
        invariant done <= |turns| && forall i :: 0 <= i < done ==> !Ends(token, turns[i])
        invariant Evictions(past) == Evictions(old(past)) + done
        invariant UsedKeys(past) == UsedKeys(old(past)) + AskedKeys(token, turns[..done])
        invariant |outboxes| == done
        invariant forall i :: 0 <= i < done ==> Exchanged(token, FramesOf(turns[i]), outboxes[i])
        invariant now >= old(now) + ACCEPT_PAUSE * Pauses(turns[..done])
      {
        if turns[done].signalled {
          return Signalled, done, outboxes;
        }
        NextTurn(token, turns, done);
        EvictIdleServers();
        var outbox := [];
        if turns[done].arrival.Connection? {
          var shouldStop;
          shouldStop, outbox := HandleConnection(turns[done].arrival.frames);
          if shouldStop {
            StoppingAsksNothing(token, turns[done].arrival.frames);
            return AskedToStop, done, outboxes + [outbox];
          }
        } else {
          NothingExchanged(token);
          if turns[done].arrival.NoConnection? {
            Wait(ACCEPT_PAUSE);
          }
        }
        outboxes := outboxes + [outbox];
        done := done + 1;
      }
      return OutOfTurns, done, outboxes;
    }

    /** `run` from the accept loop on: when it returns, every server ever begun has been dropped once. */
    method Run(turns: seq<Turn>) returns (returned: bool)
      requires Valid() && Traced()
      modifies this, begun
      ensures Valid() && begun >= old(begun)
      ensures returned <==> exists i :: 0 <= i < |turns| && Ends(token, turns[i])
      ensures returned ==> servers == map[] && forall s :: s in begun ==> s.Gone()
    {
      hide LspServer.Gone;
      hide LspServer.InUse;
      var stop, done, _ := AcceptLoop(turns);
      if stop.OutOfTurns? {
        return false;
      }
      ShutdownAllServers();
      return true;
    }
  }
}
