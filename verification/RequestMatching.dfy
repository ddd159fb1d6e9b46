/** Matching responses to requests by id (crates/codequery-lsp/src/transport.rs, `send_request`, and
    crates/codequery-lsp/src/protocol.rs), over JSON-RPC 2.0, sections 4 and 5. */
module RequestMatching {
  import opened Wrappers

  const U64: nat := 0x1_0000_0000_0000_0000

  /** JSON text. */
  type Value = string

  datatype Reply = Reply(result: Option<Value>, error: Option<string>)

  /** A message of the server: an answer, a request of its own with a numeric id, or anything else
      (notifications, requests with other ids, text that is not JSON). */
  datatype ServerMessage = Answer(id: nat, reply: Reply) | Ask(id: nat) | Notice

  /** Decoding as `JsonRpcResponse`: unknown fields are ignored and a missing result or error reads as
      none, so a request of the server decodes as well. */
  function AsResponse(m: ServerMessage): Option<(nat, Reply)> {
    match m
    case Answer(id, reply) => Some((id, reply))
    case Ask(id) => Some((id, Reply(None, None)))
    case Notice => None
  }

  datatype Outcome = Answered(value: Value) | RequestFailed(message: string) | Timeout | IoFailed

  function OutcomeOf(r: Reply): Outcome {
    match r.error
    case Some(message) => RequestFailed(message)
    case None => Answered(match r.result case Some(v) => v case None => "null")
  }

  /** What an outcome says of the reply it comes from: an error is passed on as an error, and otherwise
      the result as it is, or null in its place. */
  predicate Means(o: Outcome, r: Reply) {
    match o
    case RequestFailed(message) => r.error == Some(message)
    case Answered(value) => r.error == None && (r.result == Some(value) || (r.result == None && value == "null"))
    case _ => false
  }

  /** Exactly one outcome says what a reply says. */
  lemma OutcomeMeansReply(o: Outcome, r: Reply)
    ensures o == OutcomeOf(r) <==> Means(o, r)
  {
  }

  // Runs of one transport.

  /** `sent`: ids of the calls made; `received`: those the server got; `replies`: what it answered;
      `asked`: ids of its own requests; `returned`: what the calls gave, oldest first. */
  datatype Session = Session(
    next: nat,
    sent: set<nat>,
    received: set<nat>,
    replies: map<nat, Reply>,
    asked: set<nat>,
    pipe: seq<ServerMessage>,
    waiting: Option<nat>,
    returned: seq<(nat, Outcome)>)

  const INITIAL := Session(1, {}, {}, map[], {}, [], None, [])

  datatype Step =
    | OtherTransport                              // another transport takes an id
    | Send(delivered: bool)                       // a call takes an id and writes its request
    | ServerAnswers(id: nat, reply: Reply)
    | ServerAsks(id: nat)
    | ServerNotes
    | Read                                        // one message is read and matched
    | GiveUp(timeout: bool)                       // a call returns without a response

  /** The server answers only ids it has received, each at most once. */
  predicate Enabled(s: Session, step: Step) {
    match step
    case Send(_) => s.waiting.None?
    case ServerAnswers(id, _) => id in s.received && id !in s.replies
    case Read => s.pipe != []
    case GiveUp(_) => s.waiting.Some?
    case _ => true
  }

  /** `fetch_add(1)`, which wraps. */
  function Increment(next: nat): nat { if next + 1 >= U64 then 0 else next + 1 }

  function Return(s: Session, id: nat, o: Outcome): Session {
    s.(waiting := None, returned := s.returned + [(id, o)])
  }

  /** The outcome a message gives to the call that waits. */
  function Settles(waiting: Option<nat>, m: ServerMessage): (o: Option<Outcome>)
    ensures o.Some? ==> waiting.Some?
  {
    match AsResponse(m)
    case Some((id, reply)) => if waiting == Some(id) then Some(OutcomeOf(reply)) else None
    case None => None
  }

  function Take(s: Session, step: Step): Session
    requires Enabled(s, step)
  {
    match step
    case OtherTransport => s.(next := Increment(s.next))
    case Send(delivered) =>
      var s' := s.(next := Increment(s.next), sent := s.sent + {s.next}, waiting := Some(s.next));
      if delivered then s'.(received := s.received + {s.next}) else Return(s', s.next, IoFailed)
    case ServerAnswers(id, reply) => s.(replies := s.replies[id := reply], pipe := s.pipe + [Answer(id, reply)])
    case ServerAsks(id) => s.(asked := s.asked + {id}, pipe := s.pipe + [Ask(id)])
    case ServerNotes => s.(pipe := s.pipe + [Notice])
    case Read =>
      var s' := s.(pipe := s.pipe[1..]);
      (match Settles(s.waiting, s.pipe[0])
       case Some(o) => Return(s', s.waiting.value, o)
       case None => s')
    case GiveUp(timeout) => Return(s, s.waiting.value, if timeout then Timeout else IoFailed)
  }

  function Run(steps: seq<Step>): Option<Session> {
    if steps == [] then Some(INITIAL)
    else
      match Run(steps[..|steps| - 1])
      case None => None
      case Some(s) => if Enabled(s, steps[|steps| - 1]) then Some(Take(s, steps[|steps| - 1])) else None
  }

  /** The unread part of the stream: every response in it answers an id issued before the next one. */
  ghost predicate PipeOk(s: Session) {
    forall k :: 0 <= k < |s.pipe| ==>
                  match s.pipe[k]
                  case Answer(id, reply) => id in s.replies && s.replies[id] == reply && id < s.next
                  case Ask(id) => id in s.asked
                  case Notice => true
  }

  /** The outcome of a call is what the server answered to it, unless the server used its id. */
  ghost predicate Faithful(s: Session, id: nat, o: Outcome) {
    o.Timeout? || o.IoFailed? || id in s.asked || (id in s.replies && Means(o, s.replies[id]))
  }

  ghost predicate Inv(s: Session) {
    && 1 <= s.next < U64
    && (forall id :: id in s.sent ==> 1 <= id < s.next)
    && s.replies.Keys <= s.received <= s.sent
    && PipeOk(s)
    && (s.waiting.Some? ==> s.waiting.value in s.sent && forall k :: 0 <= k < |s.returned| ==>
                                                                       s.returned[k].0 != s.waiting.value)
    && (forall k :: 0 <= k < |s.returned| ==>
                      s.returned[k].0 in s.sent && Faithful(s, s.returned[k].0, s.returned[k].1))
    && (forall j, k :: 0 <= j < k < |s.returned| ==> s.returned[j].0 != s.returned[k].0)
  }

  predicate TakesId(step: Step) { step.OtherTransport? || step.Send? }

  /** How many ids a run takes from the counter, by this transport and the others. */
  function Issued(steps: seq<Step>): nat {
    if steps == [] then 0 else Issued(steps[..|steps| - 1]) + (if TakesId(steps[|steps| - 1]) then 1 else 0)
  }

  /** The run stays below the wrap of the counter. */
  predicate BeforeWrap(steps: seq<Step>) { Issued(steps) + 1 < U64 }

  lemma StepKeepsInv(s: Session, step: Step)
    requires Inv(s) && Enabled(s, step) && (TakesId(step) ==> s.next + 1 < U64)
    ensures Inv(Take(s, step)) && Take(s, step).next == s.next + (if TakesId(step) then 1 else 0)
  {
    var s' := Take(s, step);
    match step {
      case Read =>
        forall k | 0 <= k < |s'.pipe|
          ensures s'.pipe[k] == s.pipe[k + 1]
        {
        }
        assert s.pipe[0].Answer? || s.pipe[0].Ask? || s.pipe[0].Notice?;
      case _ =>
    }
  }

  lemma {:induction false} RunKeepsInv(steps: seq<Step>)
    requires BeforeWrap(steps) && Run(steps).Some?
    ensures Inv(Run(steps).value) && Run(steps).value.next == Issued(steps) + 1
  {
    if steps == [] {
    } else {
      RunKeepsInv(steps[..|steps| - 1]);
      StepKeepsInv(Run(steps[..|steps| - 1]).value, steps[|steps| - 1]);
    }
  }

  /** A call that got an answer got the server's answer to that very call. */
  ghost predicate Right(s: Session, k: nat)
    requires k < |s.returned|
  {
    var (id, o) := s.returned[k];
    o.Answered? || o.RequestFailed? ==> id in s.replies && Means(o, s.replies[id])
  }

  /** A read gives the call that waits its outcome exactly when the message answers its id, or asks with
      it; any other message leaves it waiting, and an asking one reads as an answer without a result. */
  lemma ReadSettlesExactly(s: Session, id: nat)
    requires s.pipe != [] && s.waiting == Some(id)
    ensures var s', m := Take(s, Read), s.pipe[0];
            match m
            case Answer(i, reply) => if i == id then Settled(s, s', id, reply) else StillWaits(s, s')
            case Ask(i) => if i == id then Settled(s, s', id, Reply(None, None)) else StillWaits(s, s')
            case Notice => StillWaits(s, s')
  {
  }

  predicate Settled(s: Session, s': Session, id: nat, reply: Reply) {
    && s'.waiting == None && |s'.returned| == |s.returned| + 1 && s'.returned[..|s.returned|] == s.returned
    && s'.returned[|s.returned|].0 == id && Means(s'.returned[|s.returned|].1, reply)
  }

  predicate StillWaits(s: Session, s': Session) {
    s'.waiting == s.waiting && s'.returned == s.returned
  }

  /** In every run below the wrap, late answers to earlier calls included, each call has its own id and
      gets what the server answered to that very call, unless the server used the same id for a request
      of its own. */
  lemma OwnAnswerOrCollision(steps: seq<Step>, k: nat)
    requires BeforeWrap(steps) && Run(steps).Some? && k < |Run(steps).value.returned|
    ensures var s := Run(steps).value;
            (Right(s, k) || s.returned[k].0 in s.asked)
            && forall j :: 0 <= j < |s.returned| && s.returned[j].0 == s.returned[k].0 ==> j == k
  {
    RunKeepsInv(steps);
  }

  /** When the server's own numeric ids are none of the client's, every answer is the right one. */
  lemma OwnAnswer(steps: seq<Step>, k: nat)
    requires BeforeWrap(steps) && Run(steps).Some? && k < |Run(steps).value.returned|
    requires Run(steps).value.asked !! Run(steps).value.sent
    ensures Right(Run(steps).value, k)
  {
    RunKeepsInv(steps);
  }

  // Which ids the server may use for requests of its own.

  /** The ids that a client can come to below the wrap. */
  predicate ClientId(id: nat) { 1 <= id && id + 1 < U64 }

  /** The server's own requests use ids of the policy only. */
  ghost predicate Obeys(steps: seq<Step>, policy: iset<nat>) {
    forall i :: 0 <= i < |steps| && steps[i].ServerAsks? ==> steps[i].id in policy
  }

  /** Every answer is right in every run in which the server obeys the policy. */
  ghost predicate Safe(policy: iset<nat>) {
    forall steps: seq<Step> :: BeforeWrap(steps) && Obeys(steps, policy) && Run(steps).Some? ==>
                                 AllRight(Run(steps).value)
  }

  ghost predicate AllRight(s: Session) {
    forall k :: 0 <= k < |s.returned| ==> Right(s, k)
  }

  lemma {:induction false} AskedObeys(steps: seq<Step>, policy: iset<nat>)
    requires Run(steps).Some? && Obeys(steps, policy)
    ensures forall id :: id in Run(steps).value.asked ==> id in policy
  {
    if steps == [] {
    } else {
      var front, last := steps[..|steps| - 1], steps[|steps| - 1];
      assert forall i :: 0 <= i < |front| ==> front[i] == steps[i];
      AskedObeys(front, policy);
      AskedNext(Run(front).value, last);
    }
  }

  lemma AskedNext(s: Session, step: Step)
    requires Enabled(s, step)
    ensures Take(s, step).asked == s.asked + (if step.ServerAsks? then {step.id} else {})
  {
  }

  /** Ids taken by other transports. */
  function Others(n: nat): seq<Step> { seq(n, i => OtherTransport) }

  lemma {:induction false} OthersRun(n: nat)
    requires n + 1 < U64
    ensures Run(Others(n)) == Some(INITIAL.(next := n + 1)) && Issued(Others(n)) == n
  {
    if n == 0 {
    } else {
      assert Others(n)[..n - 1] == Others(n - 1);
      OthersRun(n - 1);
    }
  }

  lemma RunNext(steps: seq<Step>, step: Step)
    requires Run(steps).Some? && Enabled(Run(steps).value, step)
    ensures Run(steps + [step]) == Some(Take(Run(steps).value, step))
    ensures Issued(steps + [step]) == Issued(steps) + (if TakesId(step) then 1 else 0)
  {
    assert (steps + [step])[..|steps|] == steps;
  }

  /** The server asks with an id before the client uses it; its request is still unread when the client
      comes to that id, and is then taken for the answer. */
  function Collision(id: nat): seq<Step>
    requires id >= 1
  {
    Others(id - 1) + [ServerAsks(id)] + [Send(true)] + [Read]
  }

  lemma CollisionTakes(id: nat)
    requires ClientId(id)
    ensures var s1 := Take(INITIAL.(next := id), ServerAsks(id));
            var s2 := Take(s1, Send(true));
            Enabled(s2, Read) &&
            var s := Take(s2, Read);
            s.returned == [(id, Answered("null"))] && s.replies == map[] && s.asked == {id}
  {
  }

  /** Every id that the client can come to can collide, although it is not outstanding, and has never
      been used, when the server asks with it. */
  lemma EveryClientIdCollides(id: nat)
    requires ClientId(id)
    ensures BeforeWrap(Collision(id)) && Obeys(Collision(id), iset{id})
    ensures Run(Others(id - 1)).Some? && Run(Others(id - 1)).value.sent == {}
    ensures Run(Collision(id)).Some?
    ensures var s := Run(Collision(id)).value;
            s.returned == [(id, Answered("null"))] && s.replies == map[] && s.asked == {id}
  {
    hide Run;
    hide Issued;
    var others := Others(id - 1);
    OthersRun(id - 1);
    CollisionTakes(id);
    RunNext(others, ServerAsks(id));
    RunNext(others + [ServerAsks(id)], Send(true));
    RunNext(others + [ServerAsks(id)] + [Send(true)], Read);
  }

  lemma ClientIdsAreUnsafe(policy: iset<nat>, id: nat)
    requires id in policy && ClientId(id)
    ensures !Safe(policy)
  {
    EveryClientIdCollides(id);
    var s := Run(Collision(id)).value;
    assert s.returned[0] == (id, Answered("null"));
    assert !Right(s, 0);
    assert Obeys(Collision(id), policy);
  }

  /** Answers are right in all runs exactly when the server never asks with an id that the client can
      come to; that it avoids the ids outstanding when it asks is not enough. */
  lemma OwnAnswerIff(policy: iset<nat>)
    ensures Safe(policy) <==> forall id :: id in policy ==> !ClientId(id)
  {
    if Safe(policy) {
      forall id | id in policy && ClientId(id)
        ensures false
      {
        ClientIdsAreUnsafe(policy, id);
      }
    }
    if forall id :: id in policy ==> !ClientId(id) {
      forall steps: seq<Step> | BeforeWrap(steps) && Obeys(steps, policy) && Run(steps).Some?
        ensures AllRight(Run(steps).value)
      {
        RunKeepsInv(steps);
        AskedObeys(steps, policy);
      }
    }
  }

  /** The id of the k-th request of the process, counting from 0. */
  function IdOf(k: nat): nat { if k == 0 then 1 else Increment(IdOf(k - 1)) }

  lemma {:induction false} IdValue(k: nat)
    requires k < U64
    ensures IdOf(k) == if k == U64 - 1 then 0 else k + 1
  {
    if k == 0 {
    } else {
      IdValue(k - 1);
    }
  }

  /** The first 2^64 ids are all different, and the next one is the first again. */
  lemma IdsUniqueUntilWrap(i: nat, j: nat)
    requires i < j <= 0x1_0000_0000_0000_0000
    ensures IdOf(i) == IdOf(j) <==> i == 0 && j == 0x1_0000_0000_0000_0000
  {
    IdValue(i);
    IdValue(if j == U64 then j - 1 else j);
  }

  lemma ReturnsAreFaithful(steps: seq<Step>, k: nat)
    requires Run(steps).Some? && k < |Run(steps).value.returned|
    ensures BeforeWrap(steps) ==> Faithful(Run(steps).value, Run(steps).value.returned[k].0,
                                           Run(steps).value.returned[k].1)
  {
    if BeforeWrap(steps) {
      RunKeepsInv(steps);
    }
  }

  // The transport itself.

  /** What `try_read_message` gives. */
  datatype Polled = Got(message: ServerMessage) | Nothing | Failed

  class StdioTransport {
    const timeout: nat
    var clock: nat
    var session: Session
    var buffered: nat         // unread messages of which the reader already holds some bytes
    ghost var trace: seq<Step>
    ghost var faults: nat     // failures of the pipe so far

    ghost predicate Valid()
      reads this
    {
      Run(trace) == Some(session) && buffered <= |session.pipe|
    }

    constructor (timeout: nat, clock: nat)
      ensures Valid() && trace == [] && session == INITIAL
    {
      this.timeout, this.clock, session, buffered, trace, faults := timeout, clock, INITIAL, 0, [], 0;
    }

    /** One step of the run; a read may take more bytes from the pipe than its message has. */
    method Happen(step: Step)
      requires Valid() && Enabled(session, step)
      modifies `session, `trace, `buffered
      ensures Valid() && trace == old(trace) + [step] && session == Take(old(session), step)
    {
      assert (trace + [step])[..|trace|] == trace;
      trace := trace + [step];
      session := Take(session, step);
      if step.Read? {
        var held: nat :| buffered - 1 <= held <= |session.pipe|;
        buffered := held;
      }
    }

    /** Whatever the server and the other transports do meanwhile. */
    method Meanwhile()
      requires Valid()
      modifies `session, `trace, `buffered
      ensures Valid() && old(trace) <= trace && old(session).pipe <= session.pipe
      ensures session.waiting == old(session).waiting && session.returned == old(session).returned
    {
      var n: nat := *;
      while n > 0
        invariant Valid() && old(trace) <= trace && old(session).pipe <= session.pipe
        invariant session.waiting == old(session).waiting && session.returned == old(session).returned
      {
        var id: nat, reply: Reply := *, *;
        if * {
          Happen(OtherTransport);
        } else if * {
          Happen(ServerNotes);
        } else if * {
          Happen(ServerAsks(id));
        } else if id in session.received && id !in session.replies {
          Happen(ServerAnswers(id, reply));
        }
        n := n - 1;
      }
    }

    /** Writing a request, which may fail. */
    method WriteRequest() returns (delivered: bool)
      requires Valid() && session.waiting.None?
      modifies `session, `trace, `buffered, `faults
      ensures Valid() && trace == old(trace) + [Send(delivered)] && session == Take(old(session), Send(delivered))
      ensures faults == old(faults) + (if delivered then 0 else 1)
    {
      delivered := *;
      if !delivered {
        faults := faults + 1;
      }
      Happen(Send(delivered));
    }

    /** `read_message`, which blocks until the server has written something or the stream fails;
        it takes at least one tick of the clock. */
    method ReadMessage() returns (m: Option<ServerMessage>)
      requires Valid()
      modifies `session, `trace, `buffered, `clock, `faults
      ensures Valid() && old(trace) <= trace && clock > old(clock)
      ensures faults == old(faults) + (if m.None? then 1 else 0)
      ensures var hit := if m.Some? then Settles(old(session).waiting, m.value) else None;
              if hit.Some? then
                && session.waiting == None
                && session.returned == old(session).returned + [(old(session).waiting.value, hit.value)]
              else
                session.waiting == old(session).waiting && session.returned == old(session).returned
    {
      Meanwhile();
      var d: nat, failed: bool := *, *;
      clock := clock + 1 + d;
      if session.pipe == [] || failed {
        faults := faults + 1;
        m := None;
      } else {
        m := Some(session.pipe[0]);
        Happen(Read);
      }
    }

    /** Sends one request and waits for its answer; the call and its outcome join the run. It gives up
        only when the pipe fails or the time is over. */
    method SendRequest() returns (o: Outcome)
      requires Valid() && session.waiting.None?
      modifies `session, `trace, `buffered, `clock, `faults
      ensures Valid() && old(trace) <= trace && session.waiting.None?
      ensures session.returned == old(session).returned + [(old(session).next, o)]
      ensures o.Timeout? ==> clock >= old(clock) + timeout
      ensures faults == old(faults) + (if o.IoFailed? then 1 else 0)
      ensures BeforeWrap(trace) ==> Faithful(session, old(session).next, o)
    {
      var id := session.next;
      var delivered := WriteRequest();
      if !delivered {
        o := IoFailed;
      } else {
        o := AwaitAnswer(id);
      }
      ReturnsAreFaithful(trace, |session.returned| - 1);
    }

    /** The loop of `send_request`. */
    method AwaitAnswer(id: nat) returns (o: Outcome)
      requires Valid() && session.waiting == Some(id)
      modifies `session, `trace, `buffered, `clock, `faults
      ensures Valid() && old(trace) <= trace && session.waiting.None?
      ensures session.returned == old(session).returned + [(id, o)]
      ensures o.Timeout? ==> clock >= old(clock) + timeout
      ensures faults == old(faults) + (if o.IoFailed? then 1 else 0)
    {
      var deadline := clock + timeout;
      while true
        invariant Valid() && old(trace) <= trace && clock >= old(clock) && faults == old(faults)
        invariant session.waiting == Some(id) && session.returned == old(session).returned
        decreases deadline - clock
      {
        if clock >= deadline {
          Happen(GiveUp(true));
          return Timeout;
        }
        var m := ReadMessage();
        if m.None? {
          Happen(GiveUp(false));
          return IoFailed;
        }
        var response := AsResponse(m.value);
        if response.Some? && response.value.0 == id {
          var reply := response.value.1;
          if reply.error.Some? {
            return RequestFailed(reply.error.value);
          }
          return Answered(if reply.result.Some? then reply.result.value else "null");
        }
      }
    }

    /** `try_read_message`, outside of any call: what is buffered is read at once; otherwise the pipe is
        polled, and nothing is the answer only when no message has come in all that time. */
    method TryReadMessage(limit: nat) returns (p: Polled)
      requires Valid() && session.waiting.None?
      modifies `session, `trace, `buffered, `clock, `faults
      ensures Valid() && old(trace) <= trace && session.waiting.None?
      ensures session.returned == old(session).returned
      ensures old(clock) <= clock <= old(clock) + limit
      ensures faults == old(faults) + (if p.Failed? then 1 else 0)
      ensures old(buffered) > 0 ==> !p.Nothing? && clock == old(clock)
      ensures p.Nothing? ==> clock == old(clock) + limit && session.pipe == []
      ensures p.Got? && old(session).pipe != [] ==> p.message == old(session).pipe[0]
    {
      var pollFails: bool, readFails: bool := *, *;
      if buffered == 0 {
        Meanwhile();
        var d: nat :| d <= limit;
        if pollFails {
          clock, faults := clock + d, faults + 1;
          return Failed;
        }
        if session.pipe == [] {
          clock := clock + limit;
          return Nothing;
        }
        clock := clock + d;
      }
      if readFails {
        faults := faults + 1;
        return Failed;
      }
      p := Got(session.pipe[0]);
      Happen(Read);
    }
  }
}
