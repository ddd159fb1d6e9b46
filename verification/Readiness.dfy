/** Waiting for a language server to finish indexing (crates/codequery-lsp/src/server.rs,
    `wait_for_ready`), with `$/progress` as in "Work Done Progress" of LSP 3.17. */
module Readiness {
  import opened Wrappers
  import opened LspServers

  // Time is counted in milliseconds; it passes only while reading.

  const GRACE: nat := 2000
  const POLL: nat := 200
  const DRAIN_POLL: nat := 100
  const DRAIN_WINDOW: nat := 500

  datatype Kind = Begin | End | OtherKind

  /** A message as the loop looks at it. The token is its JSON text, empty when absent. */
  datatype Message =
    | NotJson
    | Progress(params: Option<(string, Kind)>)
    | Create(id: Option<string>)
    | Other

  datatype Outcome = Got(message: Message) | Nothing | Failed

  /** One read: what it gave, and the clock after it. */
  datatype Poll = Poll(limit: nat, outcome: Outcome, at: nat)

  datatype Config = Config(start: nat, timeout: nat) {
    function Deadline(): nat { start + timeout }
    function GraceDeadline(): nat { start + GRACE }
  }

  datatype Exit = TimedOut | NoProgress | Ready | ReadFailed

  /** Where the two loops stand between reads. */
  datatype Phase =
    | Polling(active: set<string>, seen: bool)
    | Draining(active: set<string>, until: nat, renewed: bool)
    | Done(active: set<string>, why: Exit)

  predicate IsProgressTraffic(m: Message) { m.Progress? || m.Create? }

  predicate IsBegin(m: Message) { m.Progress? && m.params.Some? && m.params.value.1.Begin? }

  /** Begin and end of tokens in the main loop. */
  function Track(active: set<string>, m: Message): set<string> {
    match m
    case Progress(Some((token, Begin))) => active + {token}
    case Progress(Some((token, End))) => active - {token}
    case _ => active
  }

  /** The tests made before the next read. */
  function Settle(p: Phase, now: nat, c: Config): Phase {
    match p
    case Polling(active, _) => if now >= c.Deadline() then Done(active, TimedOut) else p
    case Draining(active, until, renewed) =>
      if now < until && now < c.Deadline() then p else LeaveDrain(active, renewed, now, c)
    case Done(_, _) => p
  }

  function LeaveDrain(active: set<string>, renewed: bool, now: nat, c: Config): Phase {
    if !renewed then Done(active, Ready)
    else if now >= c.Deadline() then Done(active, TimedOut)
    else Polling(active, true)
  }

  /** The effect of one read. */
  function Step(p: Phase, poll: Poll, c: Config): Phase {
    match p
    case Done(_, _) => p
    case Polling(active, seen) =>
      (match poll.outcome
       case Failed => Done(active, ReadFailed)
       case Got(m) => Polling(Track(active, m), seen || IsProgressTraffic(m))
       case Nothing =>
         if !seen && poll.at >= c.GraceDeadline() then Done(active, NoProgress)
         else if seen && active == {} then Draining(active, poll.at + DRAIN_WINDOW, false)
         else p)
    case Draining(active, until, renewed) =>
      (match poll.outcome
       case Failed => LeaveDrain(active, renewed, poll.at, c)
       case Got(m) =>
         if IsBegin(m) then Polling(active + {m.params.value.0}, true)
         else if m.Create? then p.(renewed := true)
         else p
       case Nothing => p)
  }

  function Run(c: Config, polls: seq<Poll>): Phase {
    if polls == [] then Settle(Polling({}, false), c.start, c)
    else
      var last := polls[|polls| - 1];
      Settle(Step(Run(c, polls[..|polls| - 1]), last, c), last.at, c)
  }

  /** The clock after some reads. */
  function Clock(c: Config, polls: seq<Poll>): nat {
    if polls == [] then c.start else polls[|polls| - 1].at
  }

  /** Reads take no longer than asked, an empty one takes all of it, and none is made once the loops are left. */
  predicate Honoured(c: Config, polls: seq<Poll>) {
    polls == [] ||
    (var front, last := polls[..|polls| - 1], polls[|polls| - 1];
     Honoured(c, front)
     && !Run(c, front).Done?
     && last.limit == (if Run(c, front).Polling? then Min(c.Deadline() - Clock(c, front), 200) else 100)
     && Clock(c, front) <= last.at <= Clock(c, front) + last.limit
     && (last.outcome.Nothing? ==> last.at == Clock(c, front) + last.limit))
  }

  function Min(a: int, b: int): int { if a <= b then a else b }

  /** The messages consumed. */
  function Messages(polls: seq<Poll>): seq<Message> {
    if polls == [] then []
    else
      var last := polls[|polls| - 1];
      Messages(polls[..|polls| - 1]) + (if last.outcome.Got? then [last.outcome.message] else [])
  }

  /** The id that a read calls to answer. */
  function CreateId(o: Outcome): seq<string> {
    if o.Got? && o.message.Create? && o.message.id.Some? then [o.message.id.value] else []
  }

  /** The ids of consumed create requests, in order. */
  function CreateIds(polls: seq<Poll>): seq<string> {
    if polls == [] then [] else CreateIds(polls[..|polls| - 1]) + CreateId(polls[|polls| - 1].outcome)
  }

  /** The read gave a create request with this id. */
  predicate AsksFor(p: Poll, id: string) { p.outcome == Got(Create(Some(id))) }

  /** The ids are those of the create requests read, each at its place and none left out. */
  ghost predicate AreAskedFor(polls: seq<Poll>, ids: seq<string>, places: seq<nat>) {
    && |places| == |ids|
    && (forall i, j :: 0 <= i < j < |places| ==> places[i] < places[j])
    && (forall i :: 0 <= i < |places| ==> places[i] < |polls| && AsksFor(polls[places[i]], ids[i]))
    && (forall k, id :: 0 <= k < |polls| && AsksFor(polls[k], id) ==> k in places)
  }

  lemma AskedForNext(front: seq<Poll>, last: Poll, ids: seq<string>, places: seq<nat>)
    requires AreAskedFor(front, ids, places)
    ensures (forall id :: !AsksFor(last, id)) ==> AreAskedFor(front + [last], ids, places)
    ensures forall id :: AsksFor(last, id) ==> AreAskedFor(front + [last], ids + [id], places + [|front|])
  {
    forall id | AsksFor(last, id)
      ensures AreAskedFor(front + [last], ids + [id], places + [|front|])
    {
      assert |front| == (places + [|front|])[|places|];
      assert forall k :: k in places ==> k in places + [|front|];
    }
  }

  lemma {:induction false} CreateIdsExactly(polls: seq<Poll>) returns (places: seq<nat>)
    ensures AreAskedFor(polls, CreateIds(polls), places)
  {
    if polls == [] {
      places := [];
    } else {
      hide AreAskedFor;
      var front, last := polls[..|polls| - 1], polls[|polls| - 1];
      places := CreateIdsExactly(front);
      assert polls == front + [last];
      AskedForNext(front, last, CreateIds(front), places);
      if CreateId(last.outcome) != [] {
        assert AsksFor(last, last.outcome.message.id.value);
        places := places + [|front|];
      } else {
        assert CreateIds(polls) == CreateIds(front);
      }
    }
  }

  /** A token begun and not ended since. */
  ghost predicate Open(ms: seq<Message>, token: string) {
    exists i :: 0 <= i < |ms| && ms[i] == Progress(Some((token, Begin)))
                && forall j :: i < j < |ms| ==> ms[j] != Progress(Some((token, End)))
  }

  // The server's side of the pipe.

  class Channel {
    var now: nat
    var queue: seq<Message>
    ghost var log: seq<Poll>

    constructor (now: nat, queue: seq<Message>)
      ensures this.now == now && this.queue == queue && log == []
    {
      this.now, this.queue, log := now, queue, [];
    }

    /** `try_read_message`: messages may arrive while it waits, never in zero time. */
    method TryRead(limit: nat) returns (o: Outcome)
      modifies `now, `queue, `log
      ensures old(now) <= now <= old(now) + limit
      ensures o.Nothing? ==> now == old(now) + limit
      ensures now == old(now) ==> |queue| <= |old(queue)| && (o.Got? ==> |queue| < |old(queue)|)
      ensures log == old(log) + [Poll(limit, o, now)]
    {
      var d: nat :| d <= limit;
      if * {
        now, o := now + d, Failed;
      } else {
        if d > 0 {
          var arrived: seq<Message> := *;
          queue := queue + arrived;
        }
        if queue != [] {
          now, o := now + d, Got(queue[0]);
          queue := queue[1..];
        } else {
          now, o := now + limit, Nothing;
        }
      }
      log := log + [Poll(limit, o, now)];
    }
  }

  /** The reads made by the loops, where they have led, and the ids they call to answer. */
  datatype Trace = Trace(polls: seq<Poll>, phase: Phase, ids: seq<string>)

  ghost predicate At(c: Config, t: Trace, now: nat) {
    Run(c, t.polls) == t.phase && Clock(c, t.polls) == now && Honoured(c, t.polls) && CreateIds(t.polls) == t.ids
  }

  function Next(c: Config, t: Trace, p: Poll): Trace {
    Trace(t.polls + [p], Settle(Step(t.phase, p, c), p.at, c), t.ids + CreateId(p.outcome))
  }

  lemma AtNext(c: Config, t: Trace, now: nat, p: Poll)
    requires At(c, t, now) && !t.phase.Done?
    requires p.limit == if t.phase.Polling? then Min(c.Deadline() - now, POLL) else DRAIN_POLL
    requires now <= p.at <= now + p.limit && (p.outcome.Nothing? ==> p.at == now + p.limit)
    ensures At(c, Next(c, t, p), p.at)
  {
    assert (t.polls + [p])[..|t.polls|] == t.polls;
  }

  /** What has been read since some earlier point is the trace, and what has been written to the
      server since then are its replies, up to a break of the pipe. */
  ghost predicate Recorded(log: seq<Poll>, sent: seq<Wire>, broken: bool, log0: seq<Poll>, sent0: seq<Wire>, t: Trace) {
    log == log0 + t.polls && RepliesWritten(sent0, sent, t.ids, broken)
  }

  lemma RecordedQuiet(c: Config, log: seq<Poll>, sent: seq<Wire>, broken: bool, log0: seq<Poll>,
                      sent0: seq<Wire>, t: Trace,
                      p: Poll)
    requires Recorded(log, sent, broken, log0, sent0, t) && CreateId(p.outcome) == []
    ensures Recorded(log + [p], sent, broken, log0, sent0, Next(c, t, p))
  {
    assert t.ids + [] == t.ids;
  }

  lemma RecordedReply(c: Config, log: seq<Poll>, sent: seq<Wire>, broken: bool, log0: seq<Poll>,
                      sent0: seq<Wire>, t: Trace,
                      p: Poll, id: string, sent': seq<Wire>, broken': bool)
    requires Recorded(log, sent, broken, log0, sent0, t) && CreateId(p.outcome) == [id]
    requires (!broken && sent' == sent + [CreateReply(id)]) || (broken' && sent' == sent)
    ensures Recorded(log + [p], sent', broken', log0, sent0, Next(c, t, p))
  {
    NextReply(sent0, sent, t.ids, broken, id, sent', broken');
  }

  lemma NothingYet(c: Config, log0: seq<Poll>, sent0: seq<Wire>, broken: bool)
    ensures At(c, Trace([], Settle(Polling({}, false), c.start, c), []), c.start)
    ensures Recorded(log0, sent0, broken, log0, sent0, Trace([], Settle(Polling({}, false), c.start, c), []))
  {
    assert CreateReplies([]) == [];
  }

  lemma AtInTime(c: Config, t: Trace, now: nat)
    requires At(c, t, now)
    ensures now <= c.Deadline() + 100
    ensures t.phase.Done? ==> StopsWhenOver(c, t.polls)
  {
    ReturnsInTime(c, t.polls);
    if t.phase.Done? {
      StopsExactly(c, t.polls);
    }
  }

  /** The wait succeeds, whatever it reads; the reads made lead the two loops to an exit, and every create
      request read is answered through the session, in order, as long as the pipe works. */
  method WaitForReady(ch: Channel, server: LspServer, timeout: nat) returns (ok: bool, ghost t: Trace)
    requires server.InUse()
    modifies ch, server`sent, server`broken
    ensures ok && server.InUse()
    ensures At(Config(old(ch.now), timeout), t, ch.now) && t.phase.Done?
    ensures Recorded(ch.log, server.sent, server.broken, old(ch.log), old(server.sent), t)
    ensures StopsWhenOver(Config(old(ch.now), timeout), t.polls)
    ensures ch.now <= old(ch.now) + timeout + 100
  {
    hide LspServer.InUse;
    hide At;
    hide Recorded;
    hide StopsWhenOver;
    var deadline := ch.now + timeout;
    var graceDeadline := ch.now + GRACE;
    var progressActive: set<string> := {};
    var seenProgress := false;
    ghost var c := Config(ch.now, timeout);
    t := Trace([], Settle(Polling({}, false), ch.now, c), []);
    NothingYet(c, ch.log, server.sent, server.broken);

    while true
      invariant server.InUse()
      invariant Recorded(ch.log, server.sent, server.broken, old(ch.log), old(server.sent), t)
      invariant At(c, t, ch.now) && t.phase == Settle(Polling(progressActive, seenProgress), ch.now, c)
      decreases deadline - ch.now, |ch.queue|
    {
      if ch.now >= deadline {
        break;
      }
      ghost var asked, log, before := ch.now, ch.log, t;
      var limit := Min(deadline - ch.now, POLL);
      var o := ch.TryRead(limit);
      ghost var p := Poll(limit, o, ch.now);
      AtNext(c, t, asked, p);
      t := Next(c, t, p);
      if CreateId(o) == [] {
        RecordedQuiet(c, log, server.sent, server.broken, old(ch.log), old(server.sent), before, p);
      }
      match o {
        case Got(msg) =>
          match msg {
            case Progress(params) =>
              seenProgress := true;
              match params {
                case Some((token, Begin)) => progressActive := progressActive + {token};
                case Some((token, End)) => progressActive := progressActive - {token};
                case _ =>
              }
            case Create(id) =>
              seenProgress := true;
              if id.Some? {
                ghost var sent, broken := server.sent, server.broken;
                server.ReplyCreate(id.value);
                RecordedReply(c, log, sent, broken, old(ch.log), old(server.sent), before, p, id.value,
                              server.sent, server.broken);
              }
            case _ =>
          }
        case Nothing =>
          if !seenProgress && ch.now >= graceDeadline {
            break;
          }
          if seenProgress && progressActive == {} {
            var newProgress;
            newProgress, progressActive, t := Drain(ch, server, deadline, progressActive, c, t, old(ch.log),
                                                    old(server.sent));
            if !newProgress {
              break;
            }
          }
        case Failed =>
          break;
      }
    }
    AtInTime(c, t, ch.now);
    ok := true;
  }

  /** The drain loop: reads on for a short window, until a new phase begins. */
  method Drain(ch: Channel, server: LspServer, deadline: nat, active: set<string>, ghost c: Config, ghost t: Trace,
               ghost log0: seq<Poll>, ghost sent0: seq<Wire>)
    returns (newProgress: bool, progressActive: set<string>, ghost t': Trace)
    requires server.InUse()
    requires deadline == c.Deadline() && At(c, t, ch.now)
    requires Recorded(ch.log, server.sent, server.broken, log0, sent0, t)
    requires t.phase == Settle(Draining(active, ch.now + DRAIN_WINDOW, false), ch.now, c)
    modifies ch, server`sent, server`broken
    ensures server.InUse()
    ensures old(ch.now) <= ch.now && At(c, t', ch.now)
    ensures ch.now == old(ch.now) ==> |ch.queue| <= |old(ch.queue)|
    ensures Recorded(ch.log, server.sent, server.broken, log0, sent0, t')
    ensures t'.phase == if newProgress then Settle(Polling(progressActive, true), ch.now, c)
                        else Done(progressActive, Ready)
  {
    hide LspServer.InUse;
    hide At;
    hide Recorded;
    progressActive, t' := active, t;
    var drainDeadline := ch.now + DRAIN_WINDOW;
    newProgress := false;
    while ch.now < drainDeadline && ch.now < deadline
      invariant server.InUse()
      invariant old(ch.now) <= ch.now && (ch.now == old(ch.now) ==> |ch.queue| <= |old(ch.queue)|)
      invariant Recorded(ch.log, server.sent, server.broken, log0, sent0, t')
      invariant At(c, t', ch.now) && t'.phase == Settle(Draining(progressActive, drainDeadline, newProgress), ch.now, c)
      decreases deadline - ch.now, |ch.queue|
    {
      ghost var asked, log, before := ch.now, ch.log, t';
      var d := ch.TryRead(DRAIN_POLL);
      ghost var p := Poll(DRAIN_POLL, d, ch.now);
      AtNext(c, t', asked, p);
      t' := Next(c, t', p);
      if CreateId(d) == [] {
        RecordedQuiet(c, log, server.sent, server.broken, log0, sent0, before, p);
      }
      match d {
        case Got(msg) =>
          if msg.Progress? {
            if IsBegin(msg) {
              progressActive := progressActive + {msg.params.value.0};
              newProgress := true;
              break;
            }
          } else if msg.Create? {
            if msg.id.Some? {
              ghost var sent, broken := server.sent, server.broken;
              server.ReplyCreate(msg.id.value);
              RecordedReply(c, log, sent, broken, log0, sent0, before, p, msg.id.value, server.sent, server.broken);
            }
            newProgress := true;
          }
        case Nothing =>
        case Failed =>
          break;
      }
    }
  }

  // What every run of the two loops satisfies.

  lemma OpenNext(ms: seq<Message>, m: Message, token: string)
    ensures Open(ms + [m], token)
       <==> m == Progress(Some((token, Begin))) || (Open(ms, token) && m != Progress(Some((token, End))))
  {
    var all := ms + [m];
    if m == Progress(Some((token, Begin))) {
      assert all[|ms|] == m;
    } else if Open(ms, token) && m != Progress(Some((token, End))) {
      var i :| 0 <= i < |ms| && ms[i] == Progress(Some((token, Begin)))
               && forall j :: i < j < |ms| ==> ms[j] != Progress(Some((token, End)));
      assert all[i] == ms[i];
      assert forall j :: i < j < |all| ==> all[j] != Progress(Some((token, End)));
    }
    if Open(all, token) && m != Progress(Some((token, Begin))) {
      var i :| 0 <= i < |all| && all[i] == Progress(Some((token, Begin)))
               && forall j :: i < j < |all| ==> all[j] != Progress(Some((token, End)));
      assert i < |ms| && ms[i] == all[i];
      assert all[|ms|] == m;
      assert forall j :: i < j < |ms| ==> ms[j] == all[j];
    }
  }

  /** The drain loop is entered, and stays, with no token active. */
  lemma {:induction false} DrainingIsIdle(c: Config, polls: seq<Poll>)
    ensures Run(c, polls).Draining? ==> Run(c, polls).active == {}
  {
    if polls == [] {
    } else {
      DrainingIsIdle(c, polls[..|polls| - 1]);
    }
  }

  /** The active tokens are exactly those begun and not ended in everything consumed, although the
      drain loop ignores the ends it reads. */
  lemma {:induction false} ActiveIsOpen(c: Config, polls: seq<Poll>, token: string)
    requires Honoured(c, polls)
    ensures token in Run(c, polls).active <==> Open(Messages(polls), token)
  {
    if polls == [] {
    } else {
      var front, last := polls[..|polls| - 1], polls[|polls| - 1];
      ActiveIsOpen(c, front, token);
      DrainingIsIdle(c, front);
      if last.outcome.Got? {
        OpenNext(Messages(front), last.outcome.message, token);
      } else {
        assert Messages(polls) == Messages(front);
      }
      assert Run(c, polls).active == Step(Run(c, front), last, c).active;
    }
  }

  predicate GotTraffic(p: Poll) {
    p.outcome.Got? && (p.outcome.message.Progress? || p.outcome.message.Create?)
  }

  ghost predicate AnyTraffic(polls: seq<Poll>) {
    exists i :: 0 <= i < |polls| && GotTraffic(polls[i])
  }

  lemma AnyTrafficNext(polls: seq<Poll>)
    requires polls != []
    ensures AnyTraffic(polls) <==> AnyTraffic(polls[..|polls| - 1]) || GotTraffic(polls[|polls| - 1])
  {
    var front := polls[..|polls| - 1];
    if AnyTraffic(front) {
      var i :| 0 <= i < |front| && GotTraffic(front[i]);
      assert GotTraffic(polls[i]);
    }
    if AnyTraffic(polls) {
      var i :| 0 <= i < |polls| && GotTraffic(polls[i]);
      assert i < |front| ==> GotTraffic(front[i]);
    }
  }

  /** `seen_progress` remembers whether any progress or create message was consumed. */
  lemma {:induction false} SeenIsTraffic(c: Config, polls: seq<Poll>)
    requires Honoured(c, polls)
    ensures match Run(c, polls)
            case Polling(_, seen) => seen <==> AnyTraffic(polls)
            case Draining(_, _, _) => AnyTraffic(polls)
            case Done(_, why) => (why.NoProgress? ==> !AnyTraffic(polls)) && (why.Ready? ==> AnyTraffic(polls))
  {
    if polls == [] {
    } else {
      SeenIsTraffic(c, polls[..|polls| - 1]);
      AnyTrafficNext(polls);
    }
  }

  predicate GotBegin(p: Poll) {
    p.outcome.Got? && match p.outcome.message case Progress(Some((_, Begin))) => true case _ => false
  }

  predicate GotCreate(p: Poll) { p.outcome.Got? && p.outcome.message.Create? }

  /** A drain window opened by the empty read `k`; `renewed` tells whether a create request came in it. */
  ghost predicate Window(polls: seq<Poll>, k: nat, renewed: bool) {
    k < |polls| && polls[k].outcome.Nothing?
    && (forall i :: k < i < |polls| ==> !GotBegin(polls[i]))
    && (renewed <==> exists i :: k < i < |polls| && GotCreate(polls[i]))
  }

  lemma {:induction false} DrainingInWindow(c: Config, polls: seq<Poll>) returns (k: nat)
    requires Run(c, polls).Draining?
    ensures Window(polls, k, Run(c, polls).renewed) && Run(c, polls).until == polls[k].at + DRAIN_WINDOW
  {
    assert polls != [];
    var front, last := polls[..|polls| - 1], polls[|polls| - 1];
    if Run(c, front).Draining? {
      k := DrainingInWindow(c, front);
      WindowNext(polls, k, Run(c, front).renewed);
    } else {
      k := |polls| - 1;
    }
  }

  lemma WindowNext(polls: seq<Poll>, k: nat, renewed: bool)
    requires polls != [] && Window(polls[..|polls| - 1], k, renewed) && !GotBegin(polls[|polls| - 1])
    ensures Window(polls, k, renewed || GotCreate(polls[|polls| - 1]))
  {
    var front := polls[..|polls| - 1];
    if renewed {
      var i :| k < i < |front| && GotCreate(front[i]);
      assert GotCreate(polls[i]);
    }
    if exists i :: k < i < |polls| && GotCreate(polls[i]) {
      var i :| k < i < |polls| && GotCreate(polls[i]);
      assert i < |front| ==> GotCreate(front[i]);
    }
  }

  /** After the empty read `k` neither a begin nor a create message came before the window, the
      overall time or the stream was over. */
  ghost predicate QuietWindow(c: Config, polls: seq<Poll>, k: nat) {
    Window(polls, k, false)
    && (Clock(c, polls) >= polls[k].at + DRAIN_WINDOW || Clock(c, polls) >= c.Deadline()
        || polls[|polls| - 1].outcome.Failed?)
  }

  /** Every exit has one of four reasons. */
  lemma ExitJustified(c: Config, polls: seq<Poll>)
    requires Honoured(c, polls) && Run(c, polls).Done?
    ensures match Run(c, polls).why
            case TimedOut => Clock(c, polls) >= c.Deadline()
            case ReadFailed => polls != [] && polls[|polls| - 1].outcome.Failed?
            case NoProgress => !AnyTraffic(polls) && Clock(c, polls) >= c.GraceDeadline()
                               && polls != [] && polls[|polls| - 1].outcome.Nothing?
            case Ready => AnyTraffic(polls) && (forall token :: !Open(Messages(polls), token))
                          && exists k :: QuietWindow(c, polls, k)
  {
    SeenIsTraffic(c, polls);
    if Run(c, polls).why.Ready? {
      var front, last := polls[..|polls| - 1], polls[|polls| - 1];
      DrainingIsIdle(c, front);
      forall token
        ensures !Open(Messages(polls), token)
      {
        ActiveIsOpen(c, polls, token);
      }
      if Run(c, front).Draining? {
        var k := DrainingInWindow(c, front);
        WindowNext(polls, k, Run(c, front).renewed);
        assert QuietWindow(c, polls, k);
      } else {
        assert QuietWindow(c, polls, |polls| - 1);
      }
    }
  }

  // When the wait goes on and when it is over, in terms of the reads alone.

  /** Messages have come, but no token is open. */
  ghost predicate Quiet(polls: seq<Poll>) {
    AnyTraffic(polls) && forall token :: !Open(Messages(polls), token)
  }

  /** The empty read `k` has opened a drain window, and it is still open: less than 500 ms have passed,
      without a begin and without an error. */
  ghost predicate DrainsFrom(c: Config, polls: seq<Poll>, k: nat)
    decreases |polls|, 0
  {
    && k < |polls| && polls[k].outcome.Nothing? && Quiet(polls[..k + 1]) && !Drains(c, polls[..k])
    && (forall i :: k < i < |polls| ==> !GotBegin(polls[i]) && !polls[i].outcome.Failed?)
    && Clock(c, polls) < polls[k].at + 500 && Clock(c, polls) < c.start + c.timeout
  }

  ghost predicate Drains(c: Config, polls: seq<Poll>)
    decreases |polls|, 1
  {
    exists k: nat :: k < |polls| && DrainsFrom(c, polls, k)
  }

  ghost predicate CreatedSince(polls: seq<Poll>, k: nat) {
    exists i :: k < i < |polls| && GotCreate(polls[i])
  }

  /** An error was read, but not in a window in which a create request has come. */
  ghost predicate Broken(c: Config, polls: seq<Poll>) {
    polls != [] && polls[|polls| - 1].outcome.Failed?
    && forall k: nat :: DrainsFrom(c, polls[..|polls| - 1], k) ==> !CreatedSince(polls, k)
  }

  /** An empty read, no progress or create message ever, and 2 s have passed. */
  ghost predicate Silent(c: Config, polls: seq<Poll>) {
    polls != [] && polls[|polls| - 1].outcome.Nothing? && !AnyTraffic(polls) && Clock(c, polls) >= c.start + 2000
  }

  /** The last read has ended a window of 500 ms with neither a begin nor a create message. */
  ghost predicate Settled(c: Config, polls: seq<Poll>) {
    polls != [] && !GotBegin(polls[|polls| - 1])
    && exists k: nat :: DrainsFrom(c, polls[..|polls| - 1], k) && !CreatedSince(polls, k)
                        && Clock(c, polls) >= polls[k].at + 500
  }

  ghost predicate Over(c: Config, polls: seq<Poll>) {
    Clock(c, polls) >= c.start + c.timeout || Broken(c, polls) || Silent(c, polls) || Settled(c, polls)
  }

  /** The phase after some reads, as their history says. */
  ghost predicate PhaseMatches(c: Config, polls: seq<Poll>, p: Phase) {
    match p
    case Draining(_, until, renewed) =>
      exists k: nat :: DrainsFrom(c, polls, k) && until == polls[k].at + 500 && (renewed <==> CreatedSince(polls, k))
    case _ => !Drains(c, polls)
  }

  lemma DrainGoesOn(c: Config, polls: seq<Poll>, k: nat)
    requires polls != [] && DrainsFrom(c, polls[..|polls| - 1], k)
    requires !GotBegin(polls[|polls| - 1]) && !polls[|polls| - 1].outcome.Failed?
    requires Clock(c, polls) < polls[k].at + 500 && Clock(c, polls) < c.start + c.timeout
    ensures DrainsFrom(c, polls, k)
  {
    var front := polls[..|polls| - 1];
    assert front[..k + 1] == polls[..k + 1] && front[..k] == polls[..k];
  }

  lemma DrainWentOn(c: Config, polls: seq<Poll>, k: nat)
    requires Honoured(c, polls) && DrainsFrom(c, polls, k) && k < |polls| - 1
    ensures DrainsFrom(c, polls[..|polls| - 1], k)
  {
    var front := polls[..|polls| - 1];
    assert front[..k + 1] == polls[..k + 1] && front[..k] == polls[..k];
  }

  lemma {:induction false} DrainBefore(c: Config, polls: seq<Poll>, k: nat, n: nat)
    requires Honoured(c, polls) && DrainsFrom(c, polls, k) && k < n <= |polls|
    ensures DrainsFrom(c, polls[..n], k)
    decreases |polls|
  {
    if n == |polls| {
      assert polls[..n] == polls;
    } else {
      DrainWentOn(c, polls, k);
      DrainBefore(c, polls[..|polls| - 1], k, n);
      assert polls[..|polls| - 1][..n] == polls[..n];
    }
  }

  lemma OneWindow(c: Config, polls: seq<Poll>, j: nat, k: nat)
    requires Honoured(c, polls) && DrainsFrom(c, polls, j) && DrainsFrom(c, polls, k)
    ensures j == k
  {
    if j < k {
      DrainBefore(c, polls, j, k);
    } else if k < j {
      DrainBefore(c, polls, k, j);
    }
  }

  lemma CreatedNext(polls: seq<Poll>, k: nat)
    requires polls != [] && k < |polls| - 1
    ensures CreatedSince(polls, k) <==> CreatedSince(polls[..|polls| - 1], k) || GotCreate(polls[|polls| - 1])
  {
    var front := polls[..|polls| - 1];
    if CreatedSince(front, k) {
      var i :| k < i < |front| && GotCreate(front[i]);
      assert GotCreate(polls[i]);
    }
    if CreatedSince(polls, k) {
      var i :| k < i < |polls| && GotCreate(polls[i]);
      assert i < |front| ==> GotCreate(front[i]);
    }
  }

  /** Whether messages have come and no token is open is what the loop has kept of them. */
  lemma PollingIsQuiet(c: Config, polls: seq<Poll>)
    requires Honoured(c, polls) && !Run(c, polls).Done?
    ensures Quiet(polls) <==> (Run(c, polls).Polling? ==> Run(c, polls).seen && Run(c, polls).active == {})
  {
    SeenIsTraffic(c, polls);
    DrainingIsIdle(c, polls);
    forall token
      ensures token in Run(c, polls).active <==> Open(Messages(polls), token)
    {
      ActiveIsOpen(c, polls, token);
    }
  }

  lemma QuietAfterNothing(polls: seq<Poll>)
    requires polls != [] && polls[|polls| - 1].outcome.Nothing?
    ensures Quiet(polls) <==> Quiet(polls[..|polls| - 1])
  {
    AnyTrafficNext(polls);
    assert Messages(polls) == Messages(polls[..|polls| - 1]);
  }

  /** The phase is as the history says, and it is the last one exactly when the wait is over. */
  ghost predicate Exact(c: Config, polls: seq<Poll>) {
    && (Run(c, polls).Done? <==> Over(c, polls))
    && (!Run(c, polls).Done? ==> PhaseMatches(c, polls, Run(c, polls)))
  }

  lemma PollingStep(c: Config, polls: seq<Poll>)
    requires Honoured(c, polls) && polls != []
    requires Run(c, polls[..|polls| - 1]).Polling? && !Drains(c, polls[..|polls| - 1])
    ensures Exact(c, polls)
  {
    var front, n := polls[..|polls| - 1], |polls| - 1;
    AnyTrafficNext(polls);
    SeenIsTraffic(c, front);
    PollingIsQuiet(c, front);
    assert polls[..n + 1] == polls;
    if polls[n].outcome.Nothing? {
      QuietAfterNothing(polls);
    }
    forall k: nat | DrainsFrom(c, polls, k)
      ensures k == n
    {
      if k < n {
        DrainWentOn(c, polls, k);
      }
    }
    if polls[n].outcome.Nothing? && Quiet(polls) && polls[n].at < c.Deadline() {
      assert DrainsFrom(c, polls, n) && !CreatedSince(polls, n);
    }
  }

  lemma DrainStep(c: Config, polls: seq<Poll>, k: nat)
    requires Honoured(c, polls) && polls != [] && Run(c, polls[..|polls| - 1]).Draining?
    requires var front := polls[..|polls| - 1];
             DrainsFrom(c, front, k) && Run(c, front).until == front[k].at + 500
             && (Run(c, front).renewed <==> CreatedSince(front, k))
    ensures Exact(c, polls)
  {
    var front, n := polls[..|polls| - 1], |polls| - 1;
    AnyTrafficNext(polls);
    SeenIsTraffic(c, front);
    CreatedNext(polls, k);
    forall j: nat | DrainsFrom(c, front, j)
      ensures j == k
    {
      OneWindow(c, front, j, k);
    }
    assert polls[..n] == front && Drains(c, front);
    assert !DrainsFrom(c, polls, n);
    forall j: nat | DrainsFrom(c, polls, j)
      ensures j == k && DrainsFrom(c, front, j)
    {
      DrainWentOn(c, polls, j);
    }
    if !GotBegin(polls[n]) && !polls[n].outcome.Failed? && polls[n].at < front[k].at + 500
       && polls[n].at < c.Deadline() {
      DrainGoesOn(c, polls, k);
    }
  }

  /** The converse of `ExitJustified`: the machine drains, goes on polling and stops exactly where the
      reads themselves say so. */
  lemma {:induction false} PhaseExactly(c: Config, polls: seq<Poll>)
    requires Honoured(c, polls)
    ensures Exact(c, polls)
  {
    if polls == [] {
    } else {
      var front := polls[..|polls| - 1];
      PhaseExactly(c, front);
      if Run(c, front).Polling? {
        PollingStep(c, polls);
      } else {
        var k: nat :| DrainsFrom(c, front, k) && Run(c, front).until == front[k].at + 500
                      && (Run(c, front).renewed <==> CreatedSince(front, k));
        DrainStep(c, polls, k);
      }
    }
  }

  /** The reads stop at the first point at which the wait is over. */
  ghost predicate StopsWhenOver(c: Config, polls: seq<Poll>) {
    Over(c, polls) && forall n :: 0 <= n < |polls| ==> !Over(c, polls[..n])
  }

  lemma {:induction false} StopsExactly(c: Config, polls: seq<Poll>)
    requires Honoured(c, polls) && Run(c, polls).Done?
    ensures StopsWhenOver(c, polls)
  {
    PhaseExactly(c, polls);
    forall n | 0 <= n < |polls|
      ensures !Over(c, polls[..n])
    {
      HonouredBefore(c, polls, n);
      PhaseExactly(c, polls[..n]);
    }
  }

  lemma {:induction false} HonouredBefore(c: Config, polls: seq<Poll>, n: nat)
    requires Honoured(c, polls) && n < |polls|
    ensures Honoured(c, polls[..n]) && !Run(c, polls[..n]).Done?
    decreases |polls|
  {
    if n < |polls| - 1 {
      HonouredBefore(c, polls[..|polls| - 1], n);
      assert polls[..|polls| - 1][..n] == polls[..n];
    }
  }

  /** The wait is over at most one drain poll after the deadline. */
  lemma ReturnsInTime(c: Config, polls: seq<Poll>)
    requires Honoured(c, polls)
    ensures Clock(c, polls) <= c.Deadline() + 100
  {
    if polls == [] {
    } else {
      NotDoneIsEarly(c, polls[..|polls| - 1]);
    }
  }

  lemma NotDoneIsEarly(c: Config, polls: seq<Poll>)
    ensures !Run(c, polls).Done? ==> Clock(c, polls) < c.Deadline()
  {
  }
}
