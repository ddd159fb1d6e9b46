# Verification of the codequery model

A Dafny model of the stateful parts of codequery, with proofs about every input, run and reachable state.
`dafny verify dfyconfig.toml` checks the project.

## What is modelled

Methods follow the program: fields, loops, early returns and error paths. Each is proved against a function
or predicate over values, and the main results are about those.

The language server session:

- `LspFraming`: `Content-Length` framing over bytes, with UTF-8 checks, Unicode trimming, decimal lengths and
  the 64-bit limit of `usize`.
- `RequestMatching`: calls, answers, late answers and server requests on one transport as a step machine;
  `StdioTransport` runs it. The server answers only ids it has received, each at most once.
- `LspServers`: one server process, the messages sent to it, its answers, and how it is consumed. Whether it
  runs, can be killed, takes a message and what it answers is given by the environment.
- `Readiness`: `wait_for_ready` as two nested timed loops over a phase machine. Reads honour their timeouts.

The daemon:

- `DaemonFraming`: length-prefixed frames with the 16 MiB bound and the 32-bit length cast.
- `ServerPool`: the keyed pool as a value, over runs of queries, evictions and passing time. The daemon's pool
  is the value of the run it records.
- `Daemons`: the pool of `LspServer` objects, with a ghost registry of every server begun, up to the accept
  loop and the final shutdown.
- `DaemonDialogue`: a client and the daemon as two step machines over two byte streams.

The index:

- `WordSearch`, `Scan`: the word filter and the parallel project scans.
- `ScanCache`: the stamped disk cache over a changing file system.
- `Symbols`, `SymbolIndex`: the symbol tree, its flattening, and the three lookup maps.

Tree walks and printing:

- `SyntaxTree`: parse trees with paths of child indices for nodes.
- `Diagnostics`: the pruned error walk.
- `References`: the Rust reference walk.
- `Outline`: the indented printer and a decoder for its text.

`Bytes`, `Sequences` and `Wrappers` hold what these share.

## What the proofs found

- A request of the server decodes as a response, since unknown fields are ignored and a missing result reads
  as none. That the server avoids the ids outstanding when it asks does not help: its request can wait
  unread until the client comes to that id, whichever it is (`RequestMatching.EveryClientIdCollides`).
  Answers are right exactly when the server's own ids are none that a client can come to
  (`RequestMatching.OwnAnswerIff`).
- The frame of an empty body decodes without its last newline; no other strict prefix of a frame decodes.
- A cache hit differs from a fresh scan exactly as `ScanCache.HitIsFreshIff` says. An empty cache never goes
  stale, a scoped scan on a miss stores its scope only, and a hit does not report a missing scope, although
  the documentation (`crates/codequery-index/src/scanner.rs:112-116`) promises the error. What a scan does
  return is never stale (`ScanCache.EveryRunIsCurrent`).
- The comment at `crates/codequery-lsp/src/client.rs:19-21` promises several queries on one connection; the
  daemon answers one and closes (`DaemonDialogue.OneRequestPerConnection`). A response above 16 MiB is written
  by the daemon and refused by the client.
- The documentation of `wait_for_ready` (`crates/codequery-lsp/src/server.rs:235-237`) promises an error when
  the transport fails; it returns success on every path (`Readiness.WaitForReady`).
- A failed handshake leaves its process without shutdown, drop or kill
  (`LspServers.LspServer.Start`, `crates/codequery-lsp/src/server.rs:104-144`), so servers are conserved from
  the point where `start` has succeeded.

## Model

| member | source | states |
|---|---|---|
| LspFraming.WriteMessage | crates/codequery-lsp/src/transport.rs:262-268 | the stream grows by exactly one frame: length line, blank line, body |
| LspFraming.FrameText | crates/codequery-lsp/src/transport.rs:262-268 | a frame is the label, the length of the body in decimal digits of that value, a blank line, and the body |
| LspFraming.ReadHeaderLines | crates/codequery-lsp/src/transport.rs:290-320 | the header loop reads what the header grammar says and leaves the bytes after the blank line; end of stream, bad UTF-8, a bad and a missing length are told apart; the last length wins |
| LspFraming.ReadMessage | crates/codequery-lsp/src/transport.rs:276-284 | one read takes exactly the headers and the body, or fails as the grammar says |
| LspFraming.HeadersExactly | crates/codequery-lsp/src/transport.rs:290-320 | after any header lines: a blank line ends the block with the length named last, or a missing length; the end of the stream, a length that is no number, and a line that is not UTF-8 are the errors |
| LspFraming.ValidUtf8Exactly | crates/codequery-lsp/src/transport.rs:276-284 | the byte sequences accepted as text are exactly the encodings of sequences of Unicode scalar values |
| LspFraming.TrimExactly | crates/codequery-lsp/src/transport.rs:303-309 | trimming takes off Unicode whitespace at both ends, and all of it |
| LspFraming.WhiteLengthExactly | crates/codequery-lsp/src/transport.rs:303-309 | what counts as whitespace at the front is the encoding of a code point with the White_Space property |
| LspFraming.ParseUsizeExactly | crates/codequery-lsp/src/transport.rs:309-314 | a length is read exactly from decimal digits, with or without a plus sign, whose value is below 2^64 |
| LspFraming.DecimalParses | crates/codequery-lsp/src/transport.rs:309-314 | parsing inverts printing for every length below 2^64 |
| LspFraming.HarmlessLinesSkipped | crates/codequery-lsp/src/transport.rs:290-320 | any number of nonblank header lines that are not a length leave the outcome unchanged |
| LspFraming.ExtraHeadersIgnored | crates/codequery-lsp/src/transport.rs:276-320 | such lines before and after the length line change neither the decoded body nor the bytes left in the stream |
| LspFraming.FramesRoundTrip | crates/codequery-lsp/src/transport.rs:262-320 | for every list of bodies and every trailing bytes, as many reads give back those bodies and leave the trailing bytes |
| LspFraming.StrictPrefixDecodesIff | crates/codequery-lsp/src/transport.rs:276-320 | a strict prefix of a frame decodes exactly when the body is empty and only the last newline is missing; so never for a nonempty body |
| DaemonFraming.WriteMessage | crates/codequery-lsp/src/socket.rs:87-99 | the stream grows by the big-endian length, cast to 32 bits, and the payload |
| DaemonFraming.ReadMessage | crates/codequery-lsp/src/socket.rs:108-134 | one read consumes one frame, or fails as closed, truncated, too large or not decodable |
| DaemonFraming.BigEndianInverse | crates/codequery-lsp/src/socket.rs:87-134 | decoding inverts encoding on all 32-bit lengths |
| DaemonFraming.BigEndianOrder | crates/codequery-lsp/src/socket.rs:87-134 | the most significant byte comes first: numbers are ordered as their encodings |
| DaemonFraming.LengthCastLossless | crates/codequery-lsp/src/socket.rs:87-99 | the header carries the true length if and only if it is below 2^32 |
| DaemonFraming.OversizedRefused | crates/codequery-lsp/src/socket.rs:108-134 | payloads above 16 MiB and below 2^32 bytes are always refused with their length |
| DaemonFraming.CutFrameRefused | crates/codequery-lsp/src/socket.rs:108-134 | no strict prefix of a frame is read: the connection counts as closed or the payload as cut short |
| DaemonFraming.BadPayloadRefused | crates/codequery-lsp/src/socket.rs:108-134 | a payload that is not a message is refused as such and the following bytes are untouched |
| DaemonFraming.FrameRoundTripIff | crates/codequery-lsp/src/socket.rs:87-134 | a message comes back with the following bytes untouched if and only if its payload is at most 16 MiB, wrapped lengths included |
| DaemonFraming.FramesRoundTrip | crates/codequery-lsp/src/socket.rs:87-134 | reading inverts writing for any sequence of messages within the limit |
| RequestMatching.OwnAnswerOrCollision | crates/codequery-lsp/src/transport.rs:68-110 | in every run below the wrap, late answers included, each call has an id of its own; an error it returns is the error the server answered to that id, and a value is the result it answered, or null in its place, without an error; unless the server used the id for a request of its own |
| RequestMatching.OwnAnswerIff | crates/codequery-lsp/src/transport.rs:68-110 | answers are right in all runs below the wrap in which the server keeps its own requests to a set of ids, if and only if the set holds no id that a client can come to |
| RequestMatching.RunKeepsInv | crates/codequery-lsp/src/transport.rs:68-110 | every response still unread answers an id issued before the next one, with what the server answered to it; calls have distinct ids; the next id counts the ids taken |
| RequestMatching.EveryClientIdCollides | crates/codequery-lsp/src/protocol.rs:51-65 | for every id a client can come to: a run in which the server asks with it before any request is outstanding, and the client takes that request for its answer |
| RequestMatching.IdsUniqueUntilWrap | crates/codequery-lsp/src/protocol.rs:16-18 | two of the first 2^64 + 1 ids are equal exactly when they are the first and the last |
| RequestMatching.ReadSettlesExactly | crates/codequery-lsp/src/transport.rs:85-104 | a read settles the call that waits exactly when the message has its id, with the error or the result of the reply; every other message leaves it waiting |
| RequestMatching.StdioTransport.SendRequest | crates/codequery-lsp/src/transport.rs:68-110 | the call and its outcome join the run under the next id, and the outcome says what the reply to that id says; it fails only when the pipe does, and times out no earlier than the timeout |
| RequestMatching.StdioTransport.TryReadMessage | crates/codequery-lsp/src/transport.rs:125-137 | what is buffered is read at once; otherwise nothing is the answer only when no message has come for the whole timeout; failure is told apart; a message consumed outside of a call settles no call |
| Readiness.WaitForReady | crates/codequery-lsp/src/server.rs:242-382 | the wait succeeds on every path, read errors included; it reads on up to the first point at which it is over, as the reads themselves say, and no further; the consumed create requests that carry an id are answered through the session, with that id and in order, as long as the pipe works; it ends by the deadline plus 100 ms |
| Readiness.Drain | crates/codequery-lsp/src/server.rs:321-373 | the drain loop takes the machine from the start of a window to a new phase or to the exit |
| Readiness.ActiveIsOpen | crates/codequery-lsp/src/server.rs:251-369 | the active tokens are exactly those begun and not ended in everything consumed, although the drain loop ignores ends |
| Readiness.CreateIdsExactly | crates/codequery-lsp/src/server.rs:291-307 | the ids to answer are those of the create requests read, each at its place in order and none left out |
| Readiness.SeenIsTraffic | crates/codequery-lsp/src/server.rs:251-369 | progress counts as seen exactly when a progress or create message has been consumed |
| Readiness.ExitJustified | crates/codequery-lsp/src/server.rs:251-379 | every exit is the deadline, a read error, silence past the grace period with no traffic ever, or no open token and a window with neither a begin nor a create message |
| Readiness.PhaseExactly | crates/codequery-lsp/src/server.rs:251-379 | the converse: the wait is over exactly at the deadline, at a read error outside a renewed window, at an empty read after 2 s without any progress or create message, or when a window of 500 ms has passed with neither a begin nor a create message; and it drains exactly from an empty read with messages seen and no token open |
| Readiness.StopsExactly | crates/codequery-lsp/src/server.rs:251-379 | every accepted run of reads that is left stops at the first point at which the wait is over |
| Readiness.ReturnsInTime | crates/codequery-lsp/src/server.rs:247-382 | no accepted run of reads is later than the deadline plus 100 ms |
| LspServers.LspServer.Start | crates/codequery-lsp/src/server.rs:85-163 | a server is given exactly when a process is spawned and the handshake with it succeeds; it has been sent initialize and initialized and nothing else; a process whose handshake fails is left with no shutdown, no drop and no kill |
| LspServers.LspServer.IsReady | crates/codequery-lsp/src/server.rs:197-199 | ready if and only if the process is reported running; an exit and a failing check both mean no |
| LspServers.LspServer.OpenDocument | crates/codequery-lsp/src/queries.rs:73-96 | exactly one didOpen is sent for a document not yet open and none otherwise; it fails exactly when the didOpen cannot be written, and then records nothing |
| LspServers.LspServer.Ask | crates/codequery-lsp/src/queries.rs:111-196 | the query is sent exactly when the pipe takes it, and what comes back is the process's answer to it; queries keep following the didOpen of their document when it is open |
| LspServers.LspServer.ReplyCreate | crates/codequery-lsp/src/server.rs:293-306 | one reply with the id, unless the pipe is broken; the session stays in order |
| LspServers.LspServer.WaitForExit | crates/codequery-lsp/src/server.rs:417-430 | success if and only if the process is gone; it is killed if and only if every poll up to the timeout found it running and the kill succeeds |
| LspServers.LspServer.Shutdown | crates/codequery-lsp/src/server.rs:176-193 | consumes the server: one drop, one shutdown; shutdown and exit are sent unless the pipe is broken; the process has the whole timeout to exit before it is killed, and runs on only if it cannot be killed; the session is a prefix of initialize, initialized, body, shutdown, exit |
| LspServers.LspServer.Drop | crates/codequery-lsp/src/server.rs:385-393 | one drop, which kills the process exactly if it is reported running and the kill succeeds; a server in use leaves a well-ordered session behind |
| LspServers.SentNext | crates/codequery-lsp/src/server.rs:85-193 | any body message, opened at most once, keeps the session in order, its opens unique and its queries after their opens |
| LspServers.SessionConforms | crates/codequery-lsp/src/server.rs:176-193 | closing a session with any prefix of shutdown, exit gives a conforming session |
| ServerPool.AlwaysTimely | crates/codequery-lsp/src/daemon.rs:345-423 | in every run of the pool started <= last used <= now |
| ServerPool.EvictedExactly | crates/codequery-lsp/src/daemon.rs:345-360 | an eviction takes exactly the entries last used longer ago than the timeout and leaves the others as they are |
| ServerPool.EntrySurvives | crates/codequery-lsp/src/daemon.rs:345-423 | an entry is unchanged by any run without uses of its key that ends within the idle timeout of its last use |
| ServerPool.StillHeld | crates/codequery-lsp/src/daemon.rs:345-423 | the server a query got stays in the pool while its process runs at the queries for its key and the timeout is not over |
| ServerPool.SameServer | crates/codequery-lsp/src/daemon.rs:345-423 | in every run, any two queries for one key at most the timeout apart get the same server if its process runs at the second and at the queries for the key in between, whatever evictions and other queries there are |
| Daemons.Daemon.Retire | crates/codequery-lsp/src/daemon.rs:345-360 | taking a server out and shutting it down consumes it once and touches no other server |
| Daemons.Daemon.Discard | crates/codequery-lsp/src/daemon.rs:385-388 | taking a server out and dropping it consumes it once without a shutdown, kills it only if its process runs, and touches no other server |
| Daemons.Daemon.EvictIdleServers | crates/codequery-lsp/src/daemon.rs:345-360 | exactly the entries idle longer than the timeout at the call are gone, the rest and their servers are unchanged, and each evicted server was shut down and consumed exactly once; the eviction is recorded |
| Daemons.Daemon.TouchOrDiscard | crates/codequery-lsp/src/daemon.rs:372-391 | the server of the key is kept, with its last use set to now, if and only if its process runs; any other is dropped without a shutdown or a kill; servers of other keys are untouched |
| Daemons.Daemon.StartServer | crates/codequery-lsp/src/daemon.rs:392-416 | a server enters the pool under its key, as started and last used now, exactly when the language is configured, the process is spawned and the handshake succeeds; otherwise neither the pool nor the registry of servers changes |
| Daemons.Daemon.GetOrStartServer | crates/codequery-lsp/src/daemon.rs:363-423 | the pool's server is given back if and only if its process runs, by the environment's word; otherwise the server is a new one or none; the step is recorded; the server promised is always in the pool |
| Daemons.Daemon.SameServerWithinTimeout | crates/codequery-lsp/src/daemon.rs:345-423 | in the recorded history of any daemon, any two queries for one key at most the timeout apart got the same server, if its process ran at the second and at the queries for the key in between |
| Daemons.Daemon.Consult | crates/codequery-lsp/src/daemon.rs:302-323 | the response is exactly the server's answer to the query, sent last and after the didOpen of its document; it is an error exactly when the operation is unknown, the pipe is broken or the server does not answer |
| Daemons.Daemon.HandleQuery | crates/codequery-lsp/src/daemon.rs:285-324 | one use of the pool; with a server got and a known operation the response is the server's answer as above, and otherwise an error; servers of other keys are untouched |
| Daemons.Daemon.HandleRequest | crates/codequery-lsp/src/daemon.rs:254-282 | the response has the shape of its request, only Shutdown stops the daemon, and only queries change the pool |
| Daemons.Daemon.HandleConnection | crates/codequery-lsp/src/daemon.rs:208-250 | only the second frame of a connection whose first frame is the token is dispatched; without it nothing changes; what is written back, for a query as above; stops exactly on an authenticated Shutdown |
| Daemons.Daemon.AcceptLoop | crates/codequery-lsp/src/daemon.rs:172-204 | returns in the first turn with a signal or an authenticated Shutdown, and in no other; every turn without a signal evicts exactly once and serves its connection: what is written back, turn by turn, and the keys asked for, in order; an idle turn takes 100 ms |
| Daemons.Daemon.ShutdownAllServers | crates/codequery-lsp/src/daemon.rs:426-433 | the pool is empty, the servers in it were shut down, and every server begun has been consumed exactly once |
| Daemons.Daemon.Run | crates/codequery-lsp/src/daemon.rs:159-169 | returns exactly when some turn ends the loop; then the pool is empty and every server ever begun has been dropped exactly once with a well-ordered session |
| DaemonDialogue.ReadWire | crates/codequery-lsp/src/socket.rs:87-134 | a written message is read back whole if it is at most 16 MiB; any other is refused, and some of its bytes stay in the stream |
| DaemonDialogue.RunKeepsInv | crates/codequery-lsp/src/client.rs:41-183 | what both ends and both byte streams hold at every point of every interleaving |
| DaemonDialogue.OneRequestPerConnection | crates/codequery-lsp/src/daemon.rs:208-250 | nothing is dispatched without the token, and only the first request with it, exactly if it is at most 16 MiB; the client gets the outcome of the written response exactly if that is at most 16 MiB; every later request on the connection fails |
| DaemonDialogue.OutcomeSays | crates/codequery-lsp/src/client.rs:148-183 | what a client method returns for a response, by kind of request |
| DaemonDialogue.NoDeadlock | crates/codequery-lsp/src/client.rs:41-183 | some step can be taken until both ends are closed, and none after |
| DaemonDialogue.RunsEnd | crates/codequery-lsp/src/client.rs:41-183 | a run of n requests has at most 2n + 5 steps |
| DaemonDialogue.AtTheEnd | crates/codequery-lsp/src/client.rs:41-183 | with the token every request has its outcome; with another one the client is refused |
| DaemonDialogue.EverythingConsumedIff | crates/codequery-lsp/src/client.rs:41-183 | after connecting and at most one request every byte written has been read if and only if every frame was at most 16 MiB |
| DaemonDialogue.AgreesWithHandleConnection | crates/codequery-lsp/src/daemon.rs:208-250 | the daemon of the dialogue does with the frames sent to it what `Daemons.Daemon.HandleConnection` promises |
| WordSearch.DataContainsWord | crates/codequery-index/src/grep.rs:43-61 | true if and only if the word is nonempty and the data is the word between two texts that do not touch it with a word byte; overlapping occurrences included |
| WordSearch.FileContainsWord | crates/codequery-index/src/grep.rs:71-90 | the same for a file, none for one that cannot be read |
| WordSearch.WordCharsExactly | crates/codequery-index/src/grep.rs:20-22 | the word bytes are the ASCII letters, the digits and the underscore |
| Scan.PathLessTotal | crates/codequery-index/src/scanner.rs:71-77 | the order that results are sorted by is a strict total order on paths |
| Scan.PathLessExactly | crates/codequery-index/src/scanner.rs:71-77 | a path comes first when it lies above the other or has the smaller component, by characters, where they part |
| Scan.SortByFileSorts | crates/codequery-index/src/scanner.rs:71-77 | the sort gives a sorted permutation |
| Scan.SortedUnique | crates/codequery-index/src/scanner.rs:71-77 | results for distinct files have only one sorted order |
| Scan.ParallelFilterMap | crates/codequery-index/src/scanner.rs:71-74 | workers that finish in any order give the same results as a sequential pass, as a multiset |
| Scan.ScanProject | crates/codequery-index/src/scanner.rs:68-78 | the result is that of scanning the discovered files one after the other, whatever the order of the workers |
| Scan.FreshScanExactly | crates/codequery-index/src/scanner.rs:38-78 | a scan fails exactly when its path does not exist; otherwise it has one result, in path order, for each listed file in the scope that can be read and parsed, with its bytes, tree and symbols, and no other |
| Scan.FilterFiles | crates/codequery-index/src/grep.rs:97-110 | exactly the readable files with a standalone occurrence, in order |
| Scan.FilterThenScan | crates/codequery-index/src/scanner.rs:89-104 | scanning the filtered files is filtering the scan |
| Scan.ScanWithFilter | crates/codequery-index/src/scanner.rs:89-104 | the full scan restricted to the files that hold the word |
| ScanCache.SymbolsSurviveStorage | crates/codequery-index/src/cache.rs:38-72 | converting a forest of symbols to its stored form and back is the identity |
| ScanCache.LoadAfterStore | crates/codequery-index/src/cache.rs:214-258 | loading inverts a completed store; a refused write changes nothing, and a torn one leaves no cache that loads |
| ScanCache.LoadExactly | crates/codequery-index/src/cache.rs:214-232 | a cache is loaded exactly when it is a manifest of version 1; a missing and an unreadable file are told apart |
| ScanCache.IsValid | crates/codequery-index/src/cache.rs:283-296 | true if and only if every cached file has its stamp on disk |
| ScanCache.HitExactly | crates/codequery-index/src/scanner.rs:127-141 | the cache is used exactly when there is one of the current version and every file in it has its stamp |
| ScanCache.Project.ScanProjectCached | crates/codequery-index/src/scanner.rs:117-152 | without the cache, or when it cannot be used, the result is a fresh scan; the cache file changes only then, if caching is on, to the entries of that scan, and a failing or torn write is silent; a hit rebuilds, up to the order of entries of the same path |
| ScanCache.Project.RebuildFromCache | crates/codequery-index/src/scanner.rs:158-185 | the cached files in scope, re-read and re-parsed, with their stored symbols, in path order, up to the order of entries for the same path |
| ScanCache.RebuiltExactly | crates/codequery-index/src/scanner.rs:158-185 | a rebuilt result has the stored symbols of an entry in the scope with the bytes and the tree of its file now |
| ScanCache.EntriesExactly | crates/codequery-index/src/scanner.rs:188-202 | an entry is stored for each result whose file has metadata, with that metadata |
| ScanCache.HitAgreesPerFile | crates/codequery-index/src/scanner.rs:117-185 | when the cached symbols are those of the content their stamp stands for, each file a hit returns is what scanning that file now gives |
| ScanCache.StoredEntriesTrue | crates/codequery-index/src/scanner.rs:188-202 | a scan of any scope stores such entries, in path order, for listed files in the scope |
| ScanCache.EveryRunIsCurrent | crates/codequery-index/src/scanner.rs:117-202 | in every run of arbitrary changes with honest stamps and scans of any scope, every file of every scan is what scanning that file at that point gives, and a scan that does not or cannot use the cache is a fresh one |
| ScanCache.HitIsFreshIff | crates/codequery-index/src/scanner.rs:117-185 | a hit equals a fresh scan if and only if the scope exists and the cached files in it are the listed files that can be scanned |
| ScanCache.StoredEntriesCover | crates/codequery-index/src/scanner.rs:188-202 | an unscoped scan stores true entries for every listed file that can be scanned |
| ScanCache.CachedRunIsFresh | crates/codequery-index/src/scanner.rs:117-202 | in every run of changes that let no file appear, change ignore status or become scannable, and of scans that fill the cache unscoped, every scan returns what a fresh scan would |
| ScanCache.EmptyCacheHidesNewFiles | crates/codequery-index/src/cache.rs:283-296 | counterexample: an empty cache is valid for ever and hides files that appear |
| ScanCache.ScopedStoreHidesTheRest | crates/codequery-index/src/scanner.rs:143-149 | counterexample: after a scoped scan has filled the cache an unscoped one misses the rest |
| ScanCache.MissingScopeUnreported | crates/codequery-index/src/scanner.rs:127-141 | counterexample: a hit succeeds on a scope that does not exist |
| SymbolIndex.SymbolIndex.FromScan | crates/codequery-index/src/index.rs:31-53 | the vector is the pre-order flattening of the scan, as long as the recursive count, and the three maps hold its positions |
| SymbolIndex.SymbolIndex.CollectSymbols | crates/codequery-index/src/index.rs:56-76 | appends the pre-order flattening of a forest and keeps the three maps in step |
| SymbolIndex.SymbolIndex.FindByName | crates/codequery-index/src/index.rs:81-86 | the in-order filter of the vector by name, with multiplicity |
| SymbolIndex.SymbolIndex.FindByKind | crates/codequery-index/src/index.rs:91-96 | the same by kind |
| SymbolIndex.SymbolIndex.SymbolsInFile | crates/codequery-index/src/index.rs:101-105 | the same by file |
| SymbolIndex.BucketsPartition | crates/codequery-index/src/index.rs:18-24 | buckets are nonempty and strictly increasing and partition the positions by key |
| SymbolIndex.PushKeepsBuckets | crates/codequery-index/src/index.rs:56-76 | pushing the next position under its key keeps a map in step with the vector |
| SymbolIndex.LookupIsFilter | crates/codequery-index/src/index.rs:81-105 | following a bucket is filtering the vector |
| Symbols.FlattenLength | crates/codequery-cli/src/output.rs:946-950 | the recursive count is the number of symbols of the flattening |
| Symbols.FlattenIsPreorder | crates/codequery-index/src/index.rs:56-76 | the flattening has the symbols at all places of the forest, each once, parents before children and earlier siblings before later ones |
| Outline.FormatOutlineSymbol | crates/codequery-cli/src/output.rs:719-734 | appends the text of the symbol tree and nothing else |
| Outline.EntryText | crates/codequery-cli/src/output.rs:719-725 | the line of a symbol: two spaces for each level, name, kind, visibility word and the decimal number of its line |
| Outline.FormatTreeSymbol | crates/codequery-cli/src/output.rs:931-943 | appends the same text |
| Outline.FormatUnderHeading | crates/codequery-cli/src/output.rs:421-425 | a heading with the texts of the symbols below it |
| Outline.FormatOutline | crates/codequery-cli/src/output.rs:414-427 | the metadata line, a blank line, the heading of the file, and the symbols from depth 1 |
| Outline.NestInvertsLines | crates/codequery-cli/src/output.rs:728-734 | indented lines determine the forest they come from |
| Outline.DecodeInvertsPrinting | crates/codequery-cli/src/output.rs:719-734 | the printed text decodes to the forest of labels whatever stands above it, for names of one line that do not start with a space |
| Outline.PrintedLines | crates/codequery-cli/src/output.rs:946-950 | there are as many symbol lines as the recursive count says, with the depths of the symbols |
| Outline.PrintingIsInjective | crates/codequery-cli/src/output.rs:719-734 | forests with the same text agree on names, kinds, visibilities, lines and nesting |
| Diagnostics.CollectErrors | crates/codequery-parse/src/diagnostics.rs:34-73 | appends the diagnostics of the nodes of the pruned walk, in order |
| Diagnostics.ExtractSyntaxErrors | crates/codequery-parse/src/diagnostics.rs:18-31 | one diagnostic for each extracted node, in order, with its span in 1-based lines, telling errors from missing nodes |
| Diagnostics.TopmostExactly | crates/codequery-parse/src/diagnostics.rs:34-73 | the full walk lists exactly the ERROR and MISSING nodes with no other above them |
| Diagnostics.ReportedExactly | crates/codequery-parse/src/diagnostics.rs:34-73 | the pruned walk reports those of them below flagged nodes only |
| Diagnostics.ExtractionCompleteIff | crates/codequery-parse/src/diagnostics.rs:18-73 | pruning loses nothing if and only if the root and every node above a topmost fault are flagged |
| Diagnostics.HonestExtraction | crates/codequery-parse/src/diagnostics.rs:18-73 | with flags that mean what tree-sitter says, the extracted list is the list of the full walk |
| Diagnostics.FaultsCoveredOnce | crates/codequery-parse/src/diagnostics.rs:18-73 | every fault has exactly one reported node among itself and the nodes above; reported nodes are in document order, none below another |
| References.WalkRustNode | crates/codequery-index/src/refs.rs:55-140 | the walk with its loops and early returns appends the references of the tree below the node |
| References.WalkUseTree | crates/codequery-index/src/refs.rs:155-191 | appends one import for each name of a use declaration |
| References.TargetExactly | crates/codequery-index/src/refs.rs:194-260 | what a call or an assignment refers to: the function or left child if an identifier, the name of a scoped identifier (calls only), or the field of a field expression, if readable |
| References.ExtractCallRef | crates/codequery-index/src/refs.rs:194-228 | appends one call at the node called, by that rule, and nothing if there is none |
| References.ExtractAssignmentRef | crates/codequery-index/src/refs.rs:231-260 | appends one assignment at the node assigned, by that rule, and nothing if there is none |
| References.ExtractTokenTreeCalls | crates/codequery-index/src/refs.rs:268-321 | appends the calls of a macro body, nested token trees included |
| References.NearestIsLast | crates/codequery-index/src/refs.rs:55-75 | the caller is the last named function item on the way from the root |
| References.NearestIsCaller | crates/codequery-index/src/refs.rs:65-73 | the caller is the name of the last node above that names a function, or none |
| References.WalkDescribes | crates/codequery-index/src/refs.rs:55-321 | every reference has the position and line of its node and the nearest named function item above it as caller |
| References.WalkExactly | crates/codequery-index/src/refs.rs:55-321 | a node is reported with a kind if and only if a node that the walk looks at makes it a reference of that kind |
| References.TargetNotBelow | crates/codequery-index/src/refs.rs:194-260 | what a call or an assignment reports is not reported again by the walk below it |
| References.WalkDistinct | crates/codequery-index/src/refs.rs:55-321 | no node is reported twice across the call, type, assignment, import and token-tree cases |
| References.ReferencesOfTree | crates/codequery-index/src/refs.rs:35-321 | on a grammatical tree: exactly the referenced nodes, by kinds, fields and word lists, each once, each with the 1-based line, column and text of its node and its caller |

## Left out

- tree-sitter, the WASM grammars and the per-language extractors: trees are data, and `parse` and `extract` are functions of path and content.
- Processes, pipes, sockets, polling and signals: environment choices in the methods, steps in the machines.
- JSON and bincode encoding: a codec that is lossless; a stored manifest is a value or not decodable.
- File discovery: a sorted list of distinct paths, of which a scope keeps those below it; the root and scope are taken as normalized.
- `walk_generic_node`: the same walk with one case and no context.
- The word lists of the reference walk (primitives, path keywords, keywords, macro names): parameters of `References.Source`.
- References.ReferencesOfTree: asks that use declarations hold no named functions and that no call or assignment target is a type identifier, as in the Rust grammar; a type identifier as target would be reported twice.
- Readiness.WaitForReady: time passes in reads only, at least as long as an empty read asks; a read that blocks past its timeout on half a message is not modelled. The drain loop is a method of its own.
- RequestMatching.OwnAnswerIff: speaks of runs that take fewer than 2^64 - 1 ids; `RequestMatching.IdsUniqueUntilWrap` says what comes after.
- RequestMatching.StdioTransport.SendRequest: a read that never returns is not modelled; each read takes at least one tick; its loop is a method of its own.
- LspFraming.ReadMessage: the buffer for a huge declared length is not allocated.
- LspServers.LspServer.Ask: what a process answers to each message, and when it runs, can be killed and takes bytes, is the environment's; a late answer, an error and one that cannot be parsed count as none.
- LspServers.LspServer.Shutdown: once a write to a server has failed all later ones fail; otherwise exit could follow a lost shutdown request.
- LspServers.LspServer.Start: the capabilities, the lookup of the binary and the kind of the error; any failure gives no server.
- LspServers.LspServer.IsReady: the check before a dead entry is dropped and the check in its drop see the process at the same instant.
- Daemons.Daemon.HandleQuery: the text of errors, positions, and the source text sent with didOpen; the document stands for the URI its path is canonicalized to, the same throughout a query.
- Daemons.Daemon.EvictIdleServers: the ages of all entries are taken at one instant.
- Daemons.Daemon.GetOrStartServer: its two halves, and the loop shared by eviction and the final shutdown, are methods of their own.
- Daemons.Daemon.Run: binding the port, the daemon file and the timestamp; the accept loop is cut after as many turns as are given.
- DaemonDialogue.NoDeadlock: the connection does not fail before the daemon closes it, a dispatched request is answered in the end, and a frame arrives whole.
- DaemonDialogue.OneRequestPerConnection: asks of the encodings that they are JSON text: lossless, without control characters, no value cut short into another, and the two fixed replies short. A connection that the daemon closes with unread bytes may also be reset.
- ScanCache.CachedRunIsFresh: equal modification time and size mean equal content, a file that can be scanned has metadata, and parsing and extraction are deterministic; a file whose metadata appears or that becomes scannable later is missed like a new one.
- ScanCache.EveryRunIsCurrent: a scan is one step, although the code takes the stamp of a file after it has parsed the content (`crates/codequery-index/src/scanner.rs:188-202`): an edit in between stores old symbols under the new stamp.
- Scan.ScanProject: sorting is a specification-level insertion sort in place of the standard library's.
- WordSearch.FileContainsWord: memory mapping is reading; a file that changes while it is searched is not modelled.
- Outline.FormatOutline: the metadata line is any text, and the JSON and raw outputs are left out; the tree printer puts several headings with their symbols one after the other.
- `CacheStore::clear`, the cache path and its hash, environment variables, and the tier order of the cascade: single branches and tables.
- URI conversion, line and column conversion and response parsing in `queries.rs`: pure functions without state.
