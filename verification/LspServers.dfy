/** One language server process and its session (crates/codequery-lsp/src/server.rs and
    crates/codequery-lsp/src/queries.rs). */
module LspServers {
  import opened Wrappers
  import opened Symbols

  type Language = string

  datatype Operation = Definition | References | Hover

  /** A message written to the server. */
  datatype Wire =
    | Initialize | Initialized
    | DidOpen(uri: string) | Query(operation: Operation, uri: string) | CreateReply(id: string)
    | ShutdownRequest | ExitNotice

  predicate IsBody(w: Wire) { w.DidOpen? || w.Query? || w.CreateReply? }

  /** A session in the order of "Lifecycle Messages" of LSP 3.17, possibly cut short. */
  ghost predicate Conforms(sent: seq<Wire>) {
    exists body :: AllBody(body) && sent <= [Initialize, Initialized] + body + [ShutdownRequest, ExitNotice]
  }

  predicate AllBody(ws: seq<Wire>) { forall w :: w in ws ==> IsBody(w) }

  /** Between the handshake and the shutdown. */
  predicate InSession(sent: seq<Wire>) {
    |sent| >= 2 && sent[..2] == [Initialize, Initialized] && AllBody(sent[2..])
  }

  predicate IsOpened(sent: seq<Wire>, uri: string) { DidOpen(uri) in sent }

  predicate OpensOnce(sent: seq<Wire>) {
    forall i, j :: 0 <= i < j < |sent| && sent[i].DidOpen? ==> sent[i] != sent[j]
  }

  predicate QueriesFollowOpens(sent: seq<Wire>) {
    forall j :: 0 <= j < |sent| && sent[j].Query? ==> IsOpened(sent[..j], sent[j].uri)
  }

  lemma SessionConforms(sent: seq<Wire>, closing: seq<Wire>)
    requires InSession(sent) && closing <= [ShutdownRequest, ExitNotice]
    ensures Conforms(sent + closing)
  {
    var body, all := sent[2..], [ShutdownRequest, ExitNotice];
    assert all == closing + all[|closing|..];
    assert [Initialize, Initialized] + body + all == (sent + closing) + all[|closing|..];
  }

  lemma SentNext(sent: seq<Wire>, w: Wire)
    requires InSession(sent) && OpensOnce(sent) && IsBody(w) && (w.DidOpen? ==> w !in sent)
    ensures InSession(sent + [w]) && OpensOnce(sent + [w])
    ensures QueriesFollowOpens(sent) && (w.Query? ==> IsOpened(sent, w.uri)) ==> QueriesFollowOpens(sent + [w])
  {
    var all := sent + [w];
    assert all[..2] == sent[..2] && all[2..] == sent[2..] + [w];
    assert forall j :: 0 <= j <= |sent| ==> all[..j] == sent[..j];
    assert sent[..|sent|] == sent;
  }

  lemma ClosingKeepsOrder(sent: seq<Wire>, closing: seq<Wire>)
    requires OpensOnce(sent) && closing <= [ShutdownRequest, ExitNotice]
    ensures OpensOnce(sent + closing) && (QueriesFollowOpens(sent) ==> QueriesFollowOpens(sent + closing))
  {
    var all := sent + closing;
    assert forall j :: |sent| <= j < |all| ==> all[j] == closing[j - |sent|];
    assert forall j :: |sent| <= j < |all| ==> all[j].ShutdownRequest? || all[j].ExitNotice?;
    assert forall j :: 0 <= j <= |sent| ==> all[..j] == sent[..j];
  }

  /** What holds of the messages of a server at every point of its life. */
  ghost predicate Orderly(sent: seq<Wire>) {
    Conforms(sent) && OpensOnce(sent) && QueriesFollowOpens(sent)
  }

  const SHUTDOWN_TIMEOUT: nat := 5000
  const EXIT_POLL: nat := 50

  /** What `try_wait` says of a process: it runs, it has exited, or the call fails. */
  datatype Report = Running | Exited | Unknown

  /** A result of the server: null, or anything else. */
  datatype Reply = Null | Text(text: string)

  /** A process as the environment makes it: what `try_wait` says of it at a time, unless it has been
      killed; whether a kill at a time succeeds; whether the message after the first `n` can be written;
      and what it answers to that message, none when it answers too late, with an error, or with
      something that cannot be parsed. */
  datatype Process = Process(
    report: nat -> Report,
    killable: nat -> bool,
    writable: nat -> bool,
    reply: nat -> Option<Reply>)

  /** The handshake with the process succeeds. */
  predicate Handshakes(p: Process) {
    p.writable(0) && p.reply(0).Some? && p.writable(1)
  }

  /** Replies with the given ids, in order. */
  function CreateReplies(ids: seq<string>): seq<Wire> {
    seq(|ids|, i requires 0 <= i < |ids| => CreateReply(ids[i]))
  }

  /** Of the replies called for since `before`, those written are the first ones, and all of them
      while the pipe works. */
  predicate RepliesWritten(before: seq<Wire>, sent: seq<Wire>, ids: seq<string>, broken: bool) {
    |before| <= |sent| <= |before| + |ids|
    && sent == before + CreateReplies(ids[..|sent| - |before|])
    && (!broken ==> |sent| == |before| + |ids|)
  }

  lemma NextReply(before: seq<Wire>, sent: seq<Wire>, ids: seq<string>, broken: bool, id: string,
                  sent': seq<Wire>, broken': bool)
    requires RepliesWritten(before, sent, ids, broken)
    requires (!broken && sent' == sent + [CreateReply(id)]) || (broken' && sent' == sent)
    ensures RepliesWritten(before, sent', ids + [id], broken')
  {
    var n := |sent| - |before|;
    assert (ids + [id])[..n] == ids[..n];
    if sent' != sent {
      assert ids[..n] == ids && CreateReplies(ids + [id]) == CreateReplies(ids) + [CreateReply(id)];
      assert (ids + [id])[..n + 1] == ids + [id];
    }
  }

  class LspServer {
    const project: Path
    const language: Language
    const process: Process
    var killed: bool
    var openedDocs: set<string>
    var broken: bool               // a write has failed; the pipe stays broken
    var sent: seq<Wire>            // messages written completely, in order
    ghost var shutdowns: nat
    ghost var drops: nat

    function Status(t: nat): Report
      reads `killed
    {
      if killed then Exited else process.report(t)
    }

    /** A session in use. */
    ghost predicate Active()
      reads this
    {
      && shutdowns == 0 && drops == 0
      && InSession(sent) && OpensOnce(sent)
      && (broken ==> !process.writable(|sent|))
      && forall uri :: uri in openedDocs <==> IsOpened(sent, uri)
    }

    /** In the pool of a daemon: nobody has killed the process. */
    ghost predicate InUse()
      reads this
    {
      Active() && QueriesFollowOpens(sent) && !killed
    }

    /** Out of the pool: consumed by one drop, after at most one shutdown, its session well ordered. */
    ghost predicate Gone()
      reads this
    {
      drops == 1 && shutdowns <= 1 && Orderly(sent)
    }

    /** Spawned and left to itself: nothing has shut it down, dropped it or killed it. */
    ghost predicate Abandoned()
      reads this
    {
      shutdowns == 0 && drops == 0 && !killed
    }

    constructor Spawn(project: Path, language: Language, process: Process)
      ensures this.project == project && this.language == language && this.process == process
      ensures sent == [] && openedDocs == {} && !broken && Abandoned()
    {
      this.project, this.language, this.process := project, language, process;
      openedDocs, killed, broken, sent, shutdowns, drops := {}, false, false, [], 0, 0;
    }

    method Write(w: Wire) returns (ok: bool)
      modifies `sent, `broken
      ensures ok <==> !old(broken) && process.writable(|old(sent)|)
      ensures broken <==> !ok
      ensures sent == if ok then old(sent) + [w] else old(sent)
    {
      ok := !broken && process.writable(|sent|);
      if ok {
        sent := sent + [w];
      } else {
        broken := true;
      }
    }

    /** `send_request`: the answer to the request, if it was written and answered. */
    method SendRequest(w: Wire) returns (answer: Option<Reply>)
      modifies `sent, `broken
      ensures broken <==> old(broken) || !process.writable(|old(sent)|)
      ensures sent == if broken then old(sent) else old(sent) + [w]
      ensures answer == if broken then None else process.reply(|old(sent)|)
    {
      var ok := Write(w);
      if !ok {
        return None;
      }
      answer := process.reply(|sent| - 1);
    }

    /** `start`: the handshake, after which the session is ready for documents and queries. A process
        whose handshake fails is left behind. */
    static method Start(project: Path, language: Language, launched: Option<Process>)
      returns (server: LspServer?, ghost spawned: LspServer?)
      ensures server != null <==> launched.Some? && Handshakes(launched.value)
      ensures spawned != null <==> launched.Some?
      ensures spawned != null ==> fresh(spawned) && spawned.process == launched.value && spawned.Abandoned()
      ensures server != null ==> server == spawned && server.InUse() && server.sent == [Initialize, Initialized]
                                 && server.project == project && server.language == language
      ensures server == null && spawned != null ==> spawned.sent < [Initialize, Initialized]
    {
      if launched.None? {
        return null, null;
      }
      var s := new LspServer.Spawn(project, language, launched.value);
      var answer := s.SendRequest(Initialize);
      if answer.None? {
        return null, s;
      }
      var ok := s.Write(Initialized);
      if !ok {
        return null, s;
      }
      return s, s;
    }

    method IsReady(now: nat) returns (ready: bool)
      ensures ready <==> Status(now).Running?
    {
      var status := Status(now);
      ready := status.Running?;
    }

    method OpenDocument(uri: string) returns (ok: bool)
      requires Active()
      modifies `sent, `broken, `openedDocs
      ensures Active() && (old(InUse()) ==> InUse())
      ensures ok <==> IsOpened(sent, uri)
      ensures broken <==> old(broken) || !ok
      ensures !ok ==> old(broken) || !process.writable(|old(sent)|)
      ensures sent == old(sent) + (if ok && uri !in old(openedDocs) then [DidOpen(uri)] else [])
    {
      if uri in openedDocs {
        return true;
      }
      ok := Write(DidOpen(uri));
      if ok {
        SentNext(old(sent), DidOpen(uri));
        openedDocs := openedDocs + {uri};
        assert forall u :: IsOpened(sent, u) <==> IsOpened(old(sent), u) || u == uri;
      }
    }

    /** A definition, references or hover request, and what the server answers to it. */
    method Ask(operation: Operation, uri: string) returns (answer: Option<Reply>)
      requires Active()
      modifies `sent, `broken
      ensures Active() && (old(InUse()) && IsOpened(old(sent), uri) ==> InUse())
      ensures broken <==> old(broken) || !process.writable(|old(sent)|)
      ensures sent == if broken then old(sent) else old(sent) + [Query(operation, uri)]
      ensures answer == if broken then None else process.reply(|old(sent)|)
      ensures IsOpened(old(sent), uri) ==> IsOpened(sent, uri)
    {
      answer := SendRequest(Query(operation, uri));
      SentNext(old(sent), Query(operation, uri));
      assert forall u :: IsOpened(sent, u) <==> IsOpened(old(sent), u);
    }

    /** The reply to a create request read while waiting for readiness; failure is ignored. */
    method ReplyCreate(id: string)
      requires InUse()
      modifies `sent, `broken
      ensures InUse()
      ensures broken <==> old(broken) || !process.writable(|old(sent)|)
      ensures sent == if broken then old(sent) else old(sent) + [CreateReply(id)]
    {
      var ok := Write(CreateReply(id));
      SentNext(old(sent), CreateReply(id));
      assert forall u :: IsOpened(sent, u) <==> IsOpened(old(sent), u);
    }

    /** `wait_for_exit`: polls the process, and kills it exactly when it ran at every poll until the timeout. */
    method WaitForExit(now: nat) returns (ok: bool, waited: nat)
      modifies `killed
      ensures waited <= 5000
      ensures ok <==> Status(now + waited).Exited?
      ensures !old(killed) ==> (killed
                                <==> RunsUntil(now, 5000) && process.killable(now + 5000))
      ensures old(killed) ==> killed
      ensures !ok ==> Status(now + waited).Unknown?
                      || (waited == 5000 && !process.killable(now + 5000))
    {
      waited := 0;
      while true
        invariant waited <= SHUTDOWN_TIMEOUT && killed == old(killed) && waited % EXIT_POLL == 0
        invariant forall k :: 0 <= k < waited && k % EXIT_POLL == 0 ==> Status(now + k).Running?
        decreases SHUTDOWN_TIMEOUT - waited
      {
        var status := Status(now + waited);
        if status.Unknown? {
          return false, waited;
        }
        if status.Exited? {
          return true, waited;
        }
        if waited >= SHUTDOWN_TIMEOUT {
          killed := process.killable(now + waited);
          return killed, waited;
        }
        waited := waited + EXIT_POLL;
      }
    }

    /** Every poll of the process from `start` on finds it running. */
    ghost predicate RunsUntil(start: nat, waited: nat) {
      forall k :: 0 <= k <= waited && k % 50 == 0 ==> process.report(start + k).Running?
    }

    /** `drop`: kills the process if it still runs. */
    method Drop(now: nat)
      modifies `killed, `drops
      ensures drops == old(drops) + 1
      ensures killed <==> old(killed) || (process.report(now).Running? && process.killable(now))
      ensures old(InUse()) ==> Gone()
    {
      if InSession(sent) {
        SessionConforms(sent, []);
        assert sent + [] == sent;
      }
      drops := drops + 1;
      var status := Status(now);
      if status.Running? {
        killed := process.killable(now);
      }
    }

    /** `shutdown`, which takes the server and so drops it at its end: the process is given the whole
        timeout to exit before it is killed, and does not run on unless it cannot be killed. */
    method Shutdown(now: nat) returns (ok: bool, finish: nat)
      requires Active()
      modifies this
      ensures shutdowns == 1 && drops == 1 && finish >= now
      ensures ok <==> Status(finish).Exited? && !old(broken) && process.writable(|old(sent)|)
                      && process.reply(|old(sent)|).Some?
      ensures killed && !old(killed) ==> exists start :: now <= start && RunsUntil(start, 5000)
      ensures Status(finish).Running? ==> !process.killable(finish)
      ensures old(InUse()) ==> Gone()
      ensures sent == old(sent) + [ShutdownRequest, ExitNotice]
              || (broken && sent == old(sent) + [ShutdownRequest]) || (broken && sent == old(sent))
      ensures !old(broken) && process.writable(|old(sent)|) && process.writable(|old(sent)| + 1) ==> !broken
      ensures Conforms(sent) && OpensOnce(sent) && (QueriesFollowOpens(old(sent)) ==> QueriesFollowOpens(sent))
    {
      hide Conforms;
      hide OpensOnce;
      hide QueriesFollowOpens;
      shutdowns := shutdowns + 1;
      var answer := SendRequest(ShutdownRequest);
      var _ := Write(ExitNotice);
      var took: nat :| took >= 0;
      var exited, waited := WaitForExit(now + took);
      finish := now + took + waited;
      Drop(finish);
      ok := exited && answer.Some?;
      ghost var closing := sent[|old(sent)|..];
      assert sent == old(sent) + closing;
      SessionConforms(old(sent), closing);
      ClosingKeepsOrder(old(sent), closing);
    }
  }
}
