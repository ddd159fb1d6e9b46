/** A client and the daemon on one connection, as two step machines sharing two streams of bytes
    (crates/codequery-lsp/src/client.rs, and `handle_connection` of crates/codequery-lsp/src/daemon.rs,
    over the frames of crates/codequery-lsp/src/socket.rs). The connection itself does not fail before
    the daemon closes it. */
module DaemonDialogue {
  import opened Wrappers
  import opened Bytes
  import opened Daemons
  import opened LspServers
  import Framing = DaemonFraming

  /** The token the client has read, the daemon's token, the requests the client makes in order, and
      the two encodings. */
  datatype Setup = Setup(
    token: string,
    stored: string,
    script: seq<DaemonRequest>,
    req: Framing.Codec<DaemonRequest>,
    resp: Framing.Codec<DaemonResponse>)

  datatype ClientPc = Connecting | AwaitingAuth | Refused | Ready | Awaiting(asked: DaemonRequest)
  datatype DaemonPc = ReadingAuth | ReadingRequest | Handling(request: DaemonRequest) | Closed

  /** What a method of the client returns; the last two are failures of the connection. */
  datatype Outcome =
    | Found(locations: Reply) | Info(response: DaemonResponse) | Done | Failed(message: string)
    | Unreadable(error: Framing.ReadError) | Unsent

  datatype System = System(
    client: ClientPc,
    todo: seq<DaemonRequest>,
    outcomes: seq<Outcome>,
    daemon: DaemonPc,
    dispatched: seq<DaemonRequest>,
    written: seq<DaemonResponse>,    // by the daemon, in order
    up: seq<Byte>,                   // bytes not yet read by the daemon
    down: seq<Byte>)                 // bytes not yet read by the client

  datatype Step =
    | ClientSendsAuth | ClientReadsAuth
    | ClientSends(fails: bool) | ClientReads
    | DaemonReadsAuth | DaemonReadsRequest | DaemonHandles(response: DaemonResponse) | DaemonSeesEnd

  // Encoded messages.

  /** JSON text: no control characters, and no value is cut short into another. */
  ghost predicate JsonText<T(!new)>(c: Framing.Codec<T>) {
    Framing.Lossless(c)
    && (forall m: T {:trigger c.encode(m)} :: Printable(c.encode(m)))
    && (forall m: T, k: nat {:trigger c.encode(m)[..k]} ::
          k < |c.encode(m)| ==> c.decode(c.encode(m)[..k]) == None)
  }

  predicate Printable(s: seq<Byte>) { forall i :: 0 <= i < |s| ==> s[i] >= 32 }

  /** The daemon's fixed replies to the token are short. */
  ghost predicate Encodings(c: Setup) {
    JsonText(c.req) && JsonText(c.resp) && Small(c.resp, AuthOk) && Small(c.resp, AUTH_FAILED)
  }

  /** The encoded message is within the limit of the reader. */
  predicate Small<T>(c: Framing.Codec<T>, m: T) { |c.encode(m)| <= Framing.MAX_MESSAGE_SIZE }

  function Wire<T>(c: Framing.Codec<T>, m: T): (w: seq<Byte>)
    ensures w != []
  {
    Framing.Frame(c.encode(m))
  }

  /** A written message is read back when it is small; a large one is refused, and what is left of it
      stays in the stream. */
  lemma ReadWire<T(!new)>(c: Framing.Codec<T>, m: T)
    requires JsonText(c)
    ensures var (r, rest) := Framing.ReadFrame(c, Wire(c, m));
            if Small(c, m) then r == Ok(m) && rest == [] else r.Err? && rest != [] && Printable(rest)
  {
    hide Framing.ReadFrame;
    hide Framing.ToBigEndian;
    var p := c.encode(m);
    var len := |p| % Framing.TWO_32;
    Framing.ReadOfFrame(c, p, []);
    assert Wire(c, m) + [] == Wire(c, m);
    if Small(c, m) {
      assert p[..len] == p && p[len..] + [] == [];
    } else if len <= Framing.MAX_MESSAGE_SIZE {
      assert c.decode(c.encode(m)[..len]) == None;
    }
  }

  /** Text is never read as a frame: its first four bytes are too large a length. */
  lemma ReadText<T>(c: Framing.Codec<T>, s: seq<Byte>)
    requires Printable(s)
    ensures var (r, rest) := Framing.ReadFrame(c, s); r.Err? && Printable(rest)
    ensures s == [] ==> Framing.ReadFrame(c, s) == (Err(Framing.ConnectionClosed), [])
  {
    if |s| >= 4 {
      assert Framing.FromBigEndian(s[..4]) >= 32 * 0x100_0000;
    }
  }

  // The two machines.

  /** `send_and_receive_locations`, `status` and `shutdown` once a response is there. */
  function OutcomeOf(request: DaemonRequest, response: DaemonResponse): (o: Outcome)
    ensures !o.Unreadable? && !o.Unsent?
  {
    match request
    case Query(_, _, _, _) =>
      if response.Locations? then Found(response.found)
      else if response.Error? then Failed(response.message)
      else Failed("unexpected daemon response")
    case Status => Info(response)
    case _ => if response.Error? then Failed(response.message) else Done
  }

  /** What the client makes of a response: a query gives the locations that were found, and an error
      otherwise, the daemon's own if it sent one; a status request gives the response as it is; a
      shutdown is done unless an error came back. */
  predicate Says(request: DaemonRequest, response: DaemonResponse, o: Outcome) {
    match request
    case Query(_, _, _, _) =>
      && (response.Locations? ==> o == Found(response.found))
      && (response.Error? ==> o == Failed(response.message))
      && (!response.Locations? ==> o.Failed?)
    case Status => o == Info(response)
    case Shutdown => if response.Error? then o == Failed(response.message) else o == Done
    case Authenticate(_) => true
  }

  lemma OutcomeSays(request: DaemonRequest, response: DaemonResponse)
    ensures Says(request, response, OutcomeOf(request, response))
  {
  }

  function Start(c: Setup): System {
    System(Connecting, c.script, [], ReadingAuth, [], [], [], [])
  }

  /** The client has nothing more to do and its end of the connection is closed. */
  predicate ClientGone(s: System) {
    s.client.Refused? || (s.client.Ready? && s.todo == [])
  }

  /** A read waits for a frame, or fails once the other end is closed; a write to a closed connection
      may fail, and may also go unnoticed. */
  predicate Enabled(s: System, e: Step) {
    match e
    case ClientSendsAuth => s.client.Connecting?
    case ClientReadsAuth => s.client.AwaitingAuth? && (s.down != [] || s.daemon.Closed?)
    case ClientSends(fails) => s.client.Ready? && s.todo != [] && (fails ==> s.daemon.Closed?)
    case ClientReads => s.client.Awaiting? && (s.down != [] || s.daemon.Closed?)
    case DaemonReadsAuth => s.daemon.ReadingAuth? && s.up != []
    case DaemonReadsRequest => s.daemon.ReadingRequest? && s.up != []
    case DaemonHandles(response) => s.daemon.Handling? && Replies(s.daemon.request, response)
    case DaemonSeesEnd => (s.daemon.ReadingAuth? || s.daemon.ReadingRequest?) && s.up == [] && ClientGone(s)
  }

  function Write(c: Setup, s: System, response: DaemonResponse): System {
    s.(down := s.down + Wire(c.resp, response), written := s.written + [response])
  }

  function After(c: Setup, s: System, e: Step): System
    requires Enabled(s, e)
  {
    match e
    case ClientSendsAuth => s.(client := AwaitingAuth, up := s.up + Wire(c.req, Authenticate(c.token)))
    case ClientReadsAuth =>
      var (r, rest) := Framing.ReadFrame(c.resp, s.down);
      s.(client := if r == Ok(AuthOk) then Ready else Refused, down := rest)
    case ClientSends(fails) =>
      if fails then s.(todo := s.todo[1..], outcomes := s.outcomes + [Unsent])
      else s.(client := Awaiting(s.todo[0]), todo := s.todo[1..], up := s.up + Wire(c.req, s.todo[0]))
    case ClientReads =>
      var (r, rest) := Framing.ReadFrame(c.resp, s.down);
      var o := match r case Ok(m) => OutcomeOf(s.client.asked, m) case Err(e) => Unreadable(e);
      s.(client := Ready, outcomes := s.outcomes + [o], down := rest)
    case DaemonReadsAuth =>
      var (r, rest) := Framing.ReadFrame(c.req, s.up);
      if r.Err? then s.(daemon := Closed, up := rest)
      else if r.value == Authenticate(c.stored) then Write(c, s.(daemon := ReadingRequest, up := rest), AuthOk)
      else Write(c, s.(daemon := Closed, up := rest), AUTH_FAILED)
    case DaemonReadsRequest =>
      var (r, rest) := Framing.ReadFrame(c.req, s.up);
      if r.Err? then s.(daemon := Closed, up := rest)
      else s.(daemon := Handling(r.value), up := rest, dispatched := s.dispatched + [r.value])
    case DaemonHandles(response) => Write(c, s.(daemon := Closed), response)
    case DaemonSeesEnd => s.(daemon := Closed)
  }

  /** The state the steps lead to, if each of them can be taken. */
  function Run(c: Setup, steps: seq<Step>): Option<System> {
    if steps == [] then Some(Start(c))
    else
      match Run(c, steps[..|steps| - 1])
      case Some(s) =>
        var e := steps[|steps| - 1];
        if Enabled(s, e) then Some(After(c, s, e)) else None
      case None => None
  }

  // What holds in every state of a run.

  predicate TokenFits(c: Setup) { Small(c.req, Authenticate(c.token)) }

  /** The client has the daemon's token, and it can be sent. */
  predicate Admitted(c: Setup) { c.token == c.stored && TokenFits(c) }

  /** What the daemon writes to a client it does not admit. */
  function Rejection(c: Setup): seq<DaemonResponse> { if TokenFits(c) then [AUTH_FAILED] else [] }

  /** Nothing has been exchanged beyond the token. */
  predicate Untried(c: Setup, s: System) {
    s.outcomes == [] && s.dispatched == [] && s.todo == c.script
  }

  /** The first request has been dispatched and the daemon has written its answer. */
  predicate FirstAnswered(c: Setup, s: System) {
    && c.script != [] && s.dispatched == [c.script[0]]
    && |s.written| == 2 && s.written[0] == AuthOk && Replies(c.script[0], s.written[1])
  }

  /** The first request was too large, and the daemon has closed the connection on it. */
  predicate FirstRefused(s: System) {
    s.dispatched == [] && s.written == [AuthOk] && s.down == []
  }

  /** The outcome of the first request, and what is left in the streams. */
  predicate FirstSettled(c: Setup, s: System)
    requires c.script != [] && s.outcomes != []
  {
    if !Small(c.req, c.script[0]) then
      FirstRefused(s) && s.outcomes[0] == Unreadable(Framing.ConnectionClosed)
    else
      FirstAnswered(c, s)
      && if Small(c.resp, s.written[1]) then s.outcomes[0] == OutcomeOf(c.script[0], s.written[1]) && s.down == []
      else s.outcomes[0].Unreadable? && Printable(s.down)
  }

  /** The first request has its outcome, and every later one has failed. */
  predicate Settled(c: Setup, s: System) {
    && c.script != [] && s.outcomes != [] && s.daemon.Closed?
    && FirstSettled(c, s)
    && forall i :: 1 <= i < |s.outcomes| ==> s.outcomes[i].Unreadable? || s.outcomes[i].Unsent?
  }

  /** Right after the first outcome the streams are empty exactly where the frames were small. */
  predicate Leftovers(c: Setup, s: System)
    requires Settled(c, s)
  {
    (s.up == [] <==> Small(c.req, c.script[0]))
    && (s.dispatched != [] ==> (s.down == [] <==> Small(c.resp, s.written[1])))
  }

  predicate InvAuth(c: Setup, s: System) {
    match s.daemon
    case ReadingAuth => s.up == Wire(c.req, Authenticate(c.token)) && s.down == [] && s.written == []
    case ReadingRequest => Admitted(c) && s.up == [] && s.down == Wire(c.resp, AuthOk) && s.written == [AuthOk]
    case Closed =>
      && !Admitted(c) && (s.up == [] <==> TokenFits(c)) && s.written == Rejection(c)
      && s.down == (if TokenFits(c) then Wire(c.resp, AUTH_FAILED) else [])
    case Handling(_) => false
  }

  predicate InvFirst(c: Setup, s: System, asked: DaemonRequest) {
    match s.daemon
    case ReadingRequest => s.up == Wire(c.req, asked) && s.down == [] && s.dispatched == [] && s.written == [AuthOk]
    case Handling(request) =>
      && request == asked && Small(c.req, asked)
      && s.up == [] && s.down == [] && s.dispatched == [asked] && s.written == [AuthOk]
    case Closed =>
      && (s.up == [] <==> Small(c.req, asked))
      && if Small(c.req, asked) then FirstAnswered(c, s) && s.down == Wire(c.resp, s.written[1]) else FirstRefused(s)
    case ReadingAuth => false
  }

  predicate InvReady(c: Setup, s: System) {
    && Admitted(c) && |s.outcomes| <= |c.script| && s.todo == c.script[|s.outcomes|..]
    && if s.outcomes == [] then
         && s.up == [] && s.down == [] && Untried(c, s) && s.written == [AuthOk]
         && (s.daemon.ReadingRequest? || (s.daemon.Closed? && c.script == []))
       else Settled(c, s) && (|s.outcomes| == 1 ==> Leftovers(c, s))
  }

  predicate InvAwaiting(c: Setup, s: System, asked: DaemonRequest) {
    && Admitted(c)
    && |s.outcomes| < |c.script| && s.todo == c.script[|s.outcomes| + 1..] && asked == c.script[|s.outcomes|]
    && if s.outcomes == [] then InvFirst(c, s, asked) else Settled(c, s)
  }

  predicate Inv(c: Setup, s: System) {
    match s.client
    case Connecting => s == Start(c)
    case AwaitingAuth => Untried(c, s) && InvAuth(c, s)
    case Refused =>
      && Untried(c, s) && !Admitted(c) && s.daemon.Closed? && (s.up == [] <==> TokenFits(c))
      && s.down == [] && s.written == Rejection(c)
    case Ready => InvReady(c, s)
    case Awaiting(asked) => InvAwaiting(c, s, asked)
  }

  lemma ClientReadsAuthKeepsInv(c: Setup, s: System)
    requires Encodings(c) && Inv(c, s) && Enabled(s, ClientReadsAuth)
    ensures Inv(c, After(c, s, ClientReadsAuth))
  {
    ReadWire(c.resp, AuthOk);
    ReadWire(c.resp, AUTH_FAILED);
    ReadText(c.resp, []);
    hide Wire;
    hide Framing.ReadFrame;
  }

  lemma ClientSendsKeepsInv(c: Setup, s: System, e: Step)
    requires Encodings(c) && Inv(c, s) && Enabled(s, e) && (e.ClientSendsAuth? || e.ClientSends?)
    ensures Inv(c, After(c, s, e))
  {
    hide Wire;
    hide Small;
  }

  lemma ClientReadsKeepsInv(c: Setup, s: System)
    requires Encodings(c) && Inv(c, s) && Enabled(s, ClientReads)
    ensures Inv(c, After(c, s, ClientReads))
  {
    ReadText(c.resp, []);
    if s.outcomes == [] {
      if s.dispatched != [] {
        ReadWire(c.resp, s.written[1]);
      }
    } else if Printable(s.down) {
      ReadText(c.resp, s.down);
    }
    hide Wire;
    hide Small;
    hide Framing.ReadFrame;
  }

  lemma DaemonReadsAuthKeepsInv(c: Setup, s: System)
    requires Encodings(c) && Inv(c, s) && Enabled(s, DaemonReadsAuth)
    ensures Inv(c, After(c, s, DaemonReadsAuth))
  {
    ReadWire(c.req, Authenticate(c.token));
    hide Wire;
    hide Small;
    hide Framing.ReadFrame;
  }

  lemma DaemonReadsRequestKeepsInv(c: Setup, s: System)
    requires Encodings(c) && Inv(c, s) && Enabled(s, DaemonReadsRequest)
    ensures Inv(c, After(c, s, DaemonReadsRequest))
  {
    if s.client.Awaiting? {
      ReadWire(c.req, s.client.asked);
    }
    hide Wire;
    hide Small;
    hide Framing.ReadFrame;
  }

  lemma DaemonClosesKeepsInv(c: Setup, s: System, e: Step)
    requires Encodings(c) && Inv(c, s) && Enabled(s, e) && (e.DaemonHandles? || e.DaemonSeesEnd?)
    ensures Inv(c, After(c, s, e))
  {
    hide Wire;
    hide Small;
  }

  lemma {:induction false} RunKeepsInv(c: Setup, steps: seq<Step>)
    requires Encodings(c) && Run(c, steps).Some?
    ensures Inv(c, Run(c, steps).value)
  {
    if steps == [] {
    } else {
      RunKeepsInv(c, steps[..|steps| - 1]);
      StepKeepsInv(c, Run(c, steps[..|steps| - 1]).value, steps[|steps| - 1]);
    }
  }

  lemma StepKeepsInv(c: Setup, s: System, e: Step)
    requires Encodings(c) && Inv(c, s) && Enabled(s, e)
    ensures Inv(c, After(c, s, e))
  {
    hide Inv;
    hide Enabled;
    hide After;
    match e
    case ClientSendsAuth => ClientSendsKeepsInv(c, s, e);
    case ClientSends(_) => ClientSendsKeepsInv(c, s, e);
    case ClientReadsAuth => ClientReadsAuthKeepsInv(c, s);
    case ClientReads => ClientReadsKeepsInv(c, s);
    case DaemonReadsAuth => DaemonReadsAuthKeepsInv(c, s);
    case DaemonReadsRequest => DaemonReadsRequestKeepsInv(c, s);
    case DaemonHandles(_) => DaemonClosesKeepsInv(c, s, e);
    case DaemonSeesEnd => DaemonClosesKeepsInv(c, s, e);
  }

  // Main results.

  /** Nothing is dispatched without the token, and then only the first request, if it is at most 16 MiB.
      The client gets the outcome of the answer exactly when that is at most 16 MiB, too; and every later
      request on the connection fails. */
  lemma OneRequestPerConnection(c: Setup, steps: seq<Step>)
    requires Encodings(c) && Run(c, steps).Some?
    ensures var s := Run(c, steps).value;
            && (s.dispatched != [] ==> Admitted(c) && c.script != [] && s.dispatched == [c.script[0]])
            && (s.outcomes != [] ==> c.script != [] && (s.dispatched != [] <==> Small(c.req, c.script[0])))
            && (s.outcomes != [] && s.dispatched != [] ==> FirstAnswered(c, s))
            && (s.outcomes != [] ==>
                  (!s.outcomes[0].Unreadable? <==> s.dispatched != [] && Small(c.resp, s.written[1])))
            && (s.outcomes != [] && !s.outcomes[0].Unreadable? ==>
                  Says(c.script[0], s.written[1], s.outcomes[0]))
            && forall i :: 1 <= i < |s.outcomes| ==> s.outcomes[i].Unreadable? || s.outcomes[i].Unsent?
  {
    RunKeepsInv(c, steps);
  }

  predicate Finished(s: System) {
    ClientGone(s) && s.daemon.Closed?
  }

  /** No run gets stuck: some step can be taken until both ends are closed. */
  lemma NoDeadlock(c: Setup, steps: seq<Step>)
    requires Encodings(c) && Run(c, steps).Some?
    ensures Finished(Run(c, steps).value) <==> forall e :: !Enabled(Run(c, steps).value, e)
  {
    RunKeepsInv(c, steps);
    var s := Run(c, steps).value;
    if !Finished(s) {
      var e := NextStep(s);
      assert Enabled(s, e);
    }
  }

  /** A step that can be taken before the end. */
  function NextStep(s: System): Step {
    if s.client.Connecting? then ClientSendsAuth
    else if s.daemon.Handling? then
      DaemonHandles(match s.daemon.request
                    case Status => StatusInfo({})
                    case Shutdown => Acknowledged
                    case _ => DaemonResponse.Error(""))
    else if s.daemon.ReadingAuth? && s.up != [] then DaemonReadsAuth
    else if s.daemon.ReadingRequest? && s.up != [] then DaemonReadsRequest
    else if s.client.AwaitingAuth? then ClientReadsAuth
    else if s.client.Awaiting? then ClientReads
    else if s.client.Ready? && s.todo != [] then ClientSends(false)
    else DaemonSeesEnd
  }

  function StepsLeft(s: System): nat {
    (match s.client
     case Connecting => 2 * |s.todo| + 2
     case AwaitingAuth => 2 * |s.todo| + 1
     case Refused => 0
     case Ready => 2 * |s.todo|
     case Awaiting(_) => 2 * |s.todo| + 1)
    + match s.daemon
      case ReadingAuth => 3
      case ReadingRequest => 2
      case Handling(_) => 1
      case Closed => 0
  }

  lemma StepCounts(c: Setup, s: System, e: Step)
    requires Enabled(s, e)
    ensures StepsLeft(After(c, s, e)) < StepsLeft(s)
  {
  }

  /** Every run ends. */
  lemma {:induction false} RunsEnd(c: Setup, steps: seq<Step>)
    requires Run(c, steps).Some?
    ensures |steps| + StepsLeft(Run(c, steps).value) <= 2 * |c.script| + 5
  {
    if steps == [] {
    } else {
      RunsEnd(c, steps[..|steps| - 1]);
      StepCounts(c, Run(c, steps[..|steps| - 1]).value, steps[|steps| - 1]);
    }
  }

  /** At the end of a run with the daemon's token every request has its outcome; with another token the
      client is refused. */
  lemma AtTheEnd(c: Setup, steps: seq<Step>)
    requires Encodings(c) && Run(c, steps).Some? && Finished(Run(c, steps).value)
    ensures var s := Run(c, steps).value;
            && (Admitted(c) ==> s.client.Ready? && |s.outcomes| == |c.script|)
            && (!Admitted(c) ==> s.client.Refused? && s.outcomes == [] && s.dispatched == [])
  {
    RunKeepsInv(c, steps);
  }

  /** The frames written on both sides of a finished connection are at most 16 MiB. */
  predicate AllSmall(c: Setup, s: System) {
    && TokenFits(c)
    && (Admitted(c) ==> forall r :: r in c.script ==> Small(c.req, r))
    && (forall r :: r in s.written ==> Small(c.resp, r))
  }

  /** After connecting and at most one request, every byte written has been read exactly when every
      frame was at most 16 MiB. */
  lemma EverythingConsumedIff(c: Setup, steps: seq<Step>)
    requires Encodings(c) && Run(c, steps).Some? && Finished(Run(c, steps).value) && |c.script| <= 1
    ensures var s := Run(c, steps).value; s.up == [] && s.down == [] <==> AllSmall(c, s)
  {
    RunKeepsInv(c, steps);
    var s := Run(c, steps).value;
    if |s.written| == 2 {
      assert s.written == [s.written[0], s.written[1]];
    }
    if |c.script| == 1 {
      assert c.script == [c.script[0]];
    }
  }

  /** A request as the daemon sees it. */
  function Seen(c: Setup, r: DaemonRequest): Frame {
    if Small(c.req, r) then Request(r) else Malformed
  }

  /** The frames the client has sent so far. */
  function Sent(c: Setup, s: System): seq<Frame>
    requires |s.todo| <= |c.script|
  {
    var n := |c.script| - |s.todo|;
    [Seen(c, Authenticate(c.token))] + seq(n, i requires 0 <= i < n => Seen(c, c.script[i]))
  }

  /** What the daemon has done once it closes the connection is what `HandleConnection` does with the
      frames the client has sent. */
  lemma AgreesWithHandleConnection(c: Setup, steps: seq<Step>)
    requires Encodings(c) && Run(c, steps).Some? && Finished(Run(c, steps).value)
    ensures |Run(c, steps).value.todo| <= |c.script|
    ensures var s := Run(c, steps).value;
            var frames := Sent(c, s);
            && (Dispatched(c.stored, frames).None? ==> s.dispatched == [] && s.written == Greeting(c.stored, frames))
            && (Dispatched(c.stored, frames).Some? ==>
                  && s.dispatched == [Dispatched(c.stored, frames).value]
                  && |s.written| == 2 && s.written[0] == AuthOk && Replies(s.dispatched[0], s.written[1]))
  {
    RunKeepsInv(c, steps);
  }
}
