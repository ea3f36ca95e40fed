/**
  Store-and-forward delivery, end to end: a capture process and a forwarder that may both crash, a
  network that loses requests and responses, a client that retries while earlier posts are still in
  flight, and a server whose handlers serialise on the event id.
 */
module Delivery {
  import opened Ordering
  import opened Wrappers

  type Event = string
  type CaptureId = nat
  type RequestId = nat

  /**
    `eventId` is the UUIDv5 of an observation's identity fields; nothing is assumed about it.
    `exclusive` says how the sensor is operated: whether a recovery, which every start of a capture
    process or a forwarder begins with, waits until no capture is being written.
   */
  datatype Setup = Setup(eventId: string -> Event, retries: int, exclusive: bool)

  // ---- One post ----

  datatype Reply = Accepted | HttpError(code: nat) | Unreachable

  predicate Retryable(r: Reply) {
    r.Unreachable? || (r.HttpError? && r.code >= 500)
  }

  /** Attempt `k` is the first one accepted, and every attempt before it could be retried. */
  ghost predicate AcceptedAt(replies: nat -> Reply, k: nat) {
    replies(k) == Accepted && forall j: nat | j < k :: Retryable(replies(j))
  }

  /** The post comes back without an exception. */
  ghost predicate PostReturns(retries: int, replies: nat -> Reply) {
    retries < 0 || exists k: nat :: k <= retries && AcceptedAt(replies, k)
  }

  /**
    A post comes back exactly if one of the attempts allowed is accepted and those before it met a
    server error or no answer; a client error ends it at once. Without any attempt it comes back too.
   */
  lemma PostReturnsIff(retries: int, replies: nat -> Reply)
    ensures PostReturns(retries, replies) <==>
            || retries < 0
            || exists k: nat :: k <= retries && replies(k) == Accepted &&
                 forall j: nat | j < k :: replies(j) == Unreachable || exists code: nat | code >= 500 :: replies(j) == HttpError(code)
  {
    if retries >= 0 {
      forall j: nat
        ensures Retryable(replies(j)) <==> replies(j) == Unreachable || exists code: nat | code >= 500 :: replies(j) == HttpError(code)
      {
        if Retryable(replies(j)) && replies(j).HttpError? {
          assert replies(j) == HttpError(replies(j).code);
        }
      }
      if PostReturns(retries, replies) {
        var k: nat :| k <= retries && AcceptedAt(replies, k);
      }
      forall k: nat
        | k <= retries && replies(k) == Accepted &&
          forall j: nat | j < k :: replies(j) == Unreachable || exists code: nat | code >= 500 :: replies(j) == HttpError(code)
        ensures PostReturns(retries, replies)
      {
        assert AcceptedAt(replies, k);
      }
    }
  }

  /** The retry loop of one post, against the replies its attempts would get. */
  method PostEvent(retries: int, replies: nat -> Reply) returns (returned: bool, attempts: nat)
    ensures returned <==> PostReturns(retries, replies)
    ensures attempts == 0 <==> retries < 0
    ensures returned && attempts > 0 ==> attempts <= retries + 1 && AcceptedAt(replies, attempts - 1)
    ensures !returned ==> attempts == retries + 1 || (0 < attempts <= retries && !Retryable(replies(attempts - 1)))
  {
    attempts := 0;
    while attempts < retries + 1
      invariant attempts <= if retries < 0 then 0 else retries
      invariant forall j: nat | j < attempts :: Retryable(replies(j))
      decreases retries + 1 - attempts
    {
      var reply := replies(attempts);
      var attempt := attempts;
      attempts := attempts + 1;
      match reply
      case Accepted =>
        assert AcceptedAt(replies, attempt);
        return true, attempts;
      case HttpError(code) =>
        if code < 500 || attempt == retries {
          return false, attempts;
        }
      case Unreachable =>
        if attempt == retries {
          return false, attempts;
        }
    }
    return true, attempts;
  }

  // ---- The distributed system ----

  datatype Place = Writing | Ready | Archived | Removed

  datatype Forwarder =
    | Down
    | Polling
    | Posting(file: CaptureId, events: seq<Event>, done: nat, attempt: nat)
    | Waiting(file: CaptureId, events: seq<Event>, done: nat, attempt: nat, request: RequestId)

  datatype Handler =
    | Received(event: Event)
    | Locked(event: Event)
    | Checked(event: Event, exists_: bool)

  datatype System = System(
    content: map<CaptureId, seq<string>>,   // identity fields of the observations in each capture
    place: map<CaptureId, Place>,           // captures discarded as empty are in neither map
    open: set<CaptureId>,                   // still being written
    renamedOpen: set<CaptureId>,            // sealed by a recovery while still being written
    forwarder: Forwarder,
    sent: map<RequestId, Event>,            // every request ever sent
    inFlight: set<RequestId>,
    replies: set<(RequestId, Reply)>,
    handlers: map<RequestId, Handler>,
    locks: map<Event, RequestId>,
    rows: seq<Event>)                       // the observation table, by event id

  function EventsOf(u: Setup, content: seq<string>): seq<Event> {
    seq(|content|, i requires 0 <= i < |content| => u.eventId(content[i]))
  }

  datatype Step =
    | OpenCapture(c: CaptureId)
    | WritePacket(c: CaptureId, identity: string)
    | CloseCapture(c: CaptureId)
    | CaptureCrash
    | Recover
    | StartForwarder
    | ForwarderCrash
    | BeginFile(c: CaptureId)
    | SkipPost
    | Send(request: RequestId)
    | GetReply(reply: Reply)
    | GiveUpWaiting
    | OtherError
    | Archive
    | Retention(c: CaptureId)
    | LoseRequest(request: RequestId)
    | LoseReply(request: RequestId, reply: Reply)
    | Receive(request: RequestId)
    | TakeLock(request: RequestId)
    | LookUp(request: RequestId)
    | CommitNew(request: RequestId)
    | AnswerExisting(request: RequestId)
    | Abort(request: RequestId, answer: Option<Reply>)

  ghost predicate Init(s: System) {
    s == System(map[], map[], {}, {}, Down, map[], {}, {}, map[], map[], [])
  }

  /** `recover_abandoned_captures`: every temporary file is sealed, or dropped if it holds no packet. */
  function Recovered(s: System): System {
    s.(place := map c | c in s.place && !(s.place[c] == Writing && c in s.content && s.content[c] == []) ::
                  if s.place[c] == Writing then Ready else s.place[c],
       renamedOpen := s.renamedOpen + set c | c in s.open && c in s.place && s.place[c] == Writing)
  }

  /** The next attempt, or the exception that defers the file. */
  function Retry(u: Setup, f: Forwarder): Forwarder
    requires f.Waiting?
  {
    if f.attempt == u.retries then Polling else Posting(f.file, f.events, f.done, f.attempt + 1)
  }

  function Unlock(s: System, request: RequestId): System
    requires request in s.handlers
  {
    var e := s.handlers[request].event;
    s.(handlers := s.handlers - {request},
       locks := if e in s.locks && s.locks[e] == request then s.locks - {e} else s.locks)
  }

  ghost predicate CaptureStep(u: Setup, s: System, s': System, step: Step) {
    match step
    case OpenCapture(c) =>
      c !in s.place && c !in s.content &&
      s' == s.(place := s.place[c := Writing], content := s.content[c := []], open := s.open + {c})
    case WritePacket(c, identity) =>
      c in s.open && c in s.content && s' == s.(content := s.content[c := s.content[c] + [identity]])
    case CloseCapture(c) =>
      c in s.open && c in s.place && c in s.content &&
      s' == (if s.place[c] != Writing then s.(open := s.open - {c})
             else if s.content[c] == [] then s.(open := s.open - {c}, place := s.place - {c})
             else s.(open := s.open - {c}, place := s.place[c := Ready]))
    case CaptureCrash => s' == s.(open := {})
    case Recover => s' == Recovered(s)
    case Retention(c) => c in s.place && s.place[c] == Archived && s' == s.(place := s.place[c := Removed])
    case _ => false
  }

  ghost predicate ForwarderStep(u: Setup, s: System, s': System, step: Step) {
    match step
    case StartForwarder => s.forwarder == Down && s' == Recovered(s).(forwarder := Polling)
    case ForwarderCrash => s' == s.(forwarder := Down)
    case BeginFile(c) =>
      s.forwarder == Polling && c in s.place && s.place[c] == Ready && c in s.content &&
      s' == s.(forwarder := Posting(c, EventsOf(u, s.content[c]), 0, 0))
    case SkipPost =>   // range(retries + 1) is empty: the post returns without having been made
      s.forwarder.Posting? && s.forwarder.done < |s.forwarder.events| && s.forwarder.attempt > u.retries &&
      var f := s.forwarder;
      s' == s.(forwarder := Posting(f.file, f.events, f.done + 1, 0))
    case Send(r) =>
      s.forwarder.Posting? && s.forwarder.done < |s.forwarder.events| && s.forwarder.attempt <= u.retries &&
      r !in s.sent &&
      var f := s.forwarder;
      s' == s.(sent := s.sent[r := f.events[f.done]], inFlight := s.inFlight + {r},
               forwarder := Waiting(f.file, f.events, f.done, f.attempt, r))
    case GetReply(reply) =>
      s.forwarder.Waiting? && (s.forwarder.request, reply) in s.replies &&
      var f := s.forwarder;
      s' == s.(replies := s.replies - {(f.request, reply)},
               forwarder := if reply == Accepted then Posting(f.file, f.events, f.done + 1, 0)
                            else if Retryable(reply) then Retry(u, f) else Polling)
    case GiveUpWaiting => s.forwarder.Waiting? && s' == s.(forwarder := Retry(u, s.forwarder))
    case OtherError => (s.forwarder.Waiting? || s.forwarder.Posting?) && s' == s.(forwarder := Polling)
    case Archive =>
      s.forwarder.Posting? && s.forwarder.done == |s.forwarder.events| && s.forwarder.file in s.place &&
      s' == s.(place := s.place[s.forwarder.file := Archived], forwarder := Polling)
    case _ => false
  }

  ghost predicate ServerStep(s: System, s': System, step: Step) {
    match step
    case LoseRequest(r) => s' == s.(inFlight := s.inFlight - {r})
    case LoseReply(r, reply) => s' == s.(replies := s.replies - {(r, reply)})
    case Receive(r) =>
      r in s.inFlight && r in s.sent && r !in s.handlers &&
      s' == s.(inFlight := s.inFlight - {r}, handlers := s.handlers[r := Received(s.sent[r])])
    case TakeLock(r) =>
      r in s.handlers && s.handlers[r].Received? && s.handlers[r].event !in s.locks &&
      var e := s.handlers[r].event;
      s' == s.(locks := s.locks[e := r], handlers := s.handlers[r := Locked(e)])
    case LookUp(r) =>
      r in s.handlers && s.handlers[r].Locked? &&
      var e := s.handlers[r].event;
      s' == s.(handlers := s.handlers[r := Checked(e, e in s.rows)])
    case CommitNew(r) =>
      r in s.handlers && s.handlers[r].Checked? && !s.handlers[r].exists_ &&
      s' == Unlock(s, r).(rows := s.rows + [s.handlers[r].event], replies := s.replies + {(r, Accepted)})
    case AnswerExisting(r) =>
      r in s.handlers && s.handlers[r].Checked? && s.handlers[r].exists_ &&
      s' == Unlock(s, r).(replies := s.replies + {(r, Accepted)})
    case Abort(r, answer) =>
      r in s.handlers && answer != Some(Accepted) &&
      s' == Unlock(s, r).(replies := if answer.Some? then s.replies + {(r, answer.value)} else s.replies)
    case _ => false
  }

  /** Some capture process has a file open that is not sealed yet. */
  ghost predicate BeingWritten(s: System) {
    exists c | c in s.open :: c in s.place && s.place[c] == Writing
  }

  ghost predicate Permitted(u: Setup, s: System, step: Step) {
    u.exclusive && (step.Recover? || step.StartForwarder?) ==> !BeingWritten(s)
  }

  ghost predicate Next(u: Setup, s: System, s': System, step: Step) {
    && Permitted(u, s, step)
    && (CaptureStep(u, s, s', step) || ForwarderStep(u, s, s', step) || ServerStep(s, s', step))
  }

  // ---- Invariants ----

  ghost predicate ServerInv(s: System) {
    && NoDuplicates(s.rows)
    && (forall r | r in s.handlers :: r in s.sent && s.handlers[r].event == s.sent[r])
    && (forall r | r in s.handlers && !s.handlers[r].Received? ::
          s.handlers[r].event in s.locks && s.locks[s.handlers[r].event] == r)
    && (forall r | r in s.handlers && s.handlers[r].Checked? :: s.handlers[r].exists_ <==> s.handlers[r].event in s.rows)
    && (forall r | (r, Accepted) in s.replies :: r in s.sent && s.sent[r] in s.rows)
  }

  /** The event id belongs to an observation of some capture, discarded ones included. */
  ghost predicate Captured(u: Setup, s: System, e: Event) {
    exists c, i :: c in s.content && 0 <= i < |s.content[c]| && u.eventId(s.content[c][i]) == e
  }

  ghost predicate OriginInv(u: Setup, s: System) {
    && (forall r | r in s.sent :: Captured(u, s, s.sent[r]))
    && (forall e | e in s.rows :: exists r :: r in s.sent && s.sent[r] == e)
    && (s.forwarder.Posting? || s.forwarder.Waiting? ==> forall e | e in s.forwarder.events :: Captured(u, s, e))
  }

  ghost predicate Recorded(events: seq<Event>, n: nat, rows: seq<Event>) {
    n <= |events| && forall i | 0 <= i < n :: events[i] in rows
  }

  /** A sealed capture that is still being written was sealed by a recovery. */
  ghost predicate SpoolShape(s: System) {
    && s.place.Keys <= s.content.Keys && s.open <= s.content.Keys
    && (forall c | c in s.place && s.place[c] != Writing && c in s.open :: c in s.renamedOpen)
  }

  /** The forwarder is working through a sealed file, and what it calls done is in the table. */
  ghost predicate ForwarderInv(u: Setup, s: System)
    requires SpoolShape(s)
  {
    var f := s.forwarder;
    && (f.Posting? || f.Waiting? ==>
          && f.file in s.place && s.place[f.file] != Writing
          && Recorded(f.events, f.done, s.rows) && f.attempt <= u.retries
          && (f.file !in s.renamedOpen ==> f.events == EventsOf(u, s.content[f.file])))
    && (f.Waiting? ==> f.done < |f.events| && f.request in s.sent && s.sent[f.request] == f.events[f.done])
  }

  ghost predicate SpoolInv(u: Setup, s: System) {
    && SpoolShape(s)
    && ForwarderInv(u, s)
    && (forall c | c in s.place && s.place[c] in {Archived, Removed} && c !in s.renamedOpen :: Delivered(u, s, c))
  }

  /** Every observation of the capture is in the table. */
  ghost predicate Delivered(u: Setup, s: System, c: CaptureId)
    requires c in s.content
  {
    Recorded(EventsOf(u, s.content[c]), |s.content[c]|, s.rows)
  }

  ghost predicate Inv(u: Setup, s: System) {
    ServerInv(s) && OriginInv(u, s) && SpoolInv(u, s)
  }

  // ---- Server steps ----

  /** All that a server step does to the rest of the system: the table may grow. */
  ghost predicate ServerFrame(s: System, s': System) {
    && s'.content == s.content && s'.place == s.place && s'.open == s.open && s'.renamedOpen == s.renamedOpen
    && s'.forwarder == s.forwarder && s'.sent == s.sent
    && (forall e | e in s.rows :: e in s'.rows)
    && (forall e | e in s'.rows && e !in s.rows :: exists r :: r in s.sent && s.sent[r] == e)
  }

  lemma CommitKeepsServerInv(s: System, s': System, r: RequestId)
    requires ServerInv(s) && ServerStep(s, s', CommitNew(r))
    ensures ServerInv(s') && ServerFrame(s, s')
  {
    var e := s.handlers[r].event;
    assert s.sent[r] == e;
    assert s'.rows == s.rows + [e];
    forall q | q in s'.handlers && !s'.handlers[q].Received?
      ensures s'.handlers[q].event != e
    {
      assert s.locks[s.handlers[q].event] == q && s.locks[e] == r;
    }
  }

  lemma ReceiveKeepsServerInv(s: System, s': System, r: RequestId)
    requires ServerInv(s) && ServerStep(s, s', Receive(r))
    ensures ServerInv(s') && ServerFrame(s, s')
  {
    hide NoDuplicates;
  }

  lemma TakeLockKeepsServerInv(s: System, s': System, r: RequestId)
    requires ServerInv(s) && ServerStep(s, s', TakeLock(r))
    ensures ServerInv(s') && ServerFrame(s, s')
  {
    hide NoDuplicates;
  }

  lemma AnswerKeepsServerInv(s: System, s': System, r: RequestId)
    requires ServerInv(s) && ServerStep(s, s', AnswerExisting(r))
    ensures ServerInv(s') && ServerFrame(s, s')
  {
    hide NoDuplicates;
  }

  lemma AbortKeepsServerInv(s: System, s': System, r: RequestId, answer: Option<Reply>)
    requires ServerInv(s) && ServerStep(s, s', Abort(r, answer))
    ensures ServerInv(s') && ServerFrame(s, s')
  {
    hide NoDuplicates;
  }

  lemma OtherKeepsServerInv(s: System, s': System, step: Step)
    requires ServerInv(s) && ServerStep(s, s', step)
    requires step.LoseRequest? || step.LoseReply? || step.LookUp?
    ensures ServerInv(s') && ServerFrame(s, s')
  {
    hide NoDuplicates;
  }

  lemma ServerStepKeepsServerInv(s: System, s': System, step: Step)
    requires ServerInv(s) && ServerStep(s, s', step)
    ensures ServerInv(s') && ServerFrame(s, s')
  {
    match step
    case CommitNew(r) => CommitKeepsServerInv(s, s', r);
    case Receive(r) => ReceiveKeepsServerInv(s, s', r);
    case TakeLock(r) => TakeLockKeepsServerInv(s, s', r);
    case AnswerExisting(r) => AnswerKeepsServerInv(s, s', r);
    case Abort(r, answer) => AbortKeepsServerInv(s, s', r, answer);
    case _ => OtherKeepsServerInv(s, s', step);
  }

  lemma FrameKeepsOrigin(u: Setup, s: System, s': System)
    requires OriginInv(u, s) && ServerFrame(s, s')
    ensures OriginInv(u, s')
  {
    assert forall e :: Captured(u, s, e) ==> Captured(u, s', e);
  }

  lemma FrameKeepsSpool(u: Setup, s: System, s': System)
    requires SpoolInv(u, s) && ServerFrame(s, s')
    ensures SpoolInv(u, s')
  {
    hide EventsOf;
    forall c | c in s'.place && s'.place[c] in {Archived, Removed} && c !in s'.renamedOpen
      ensures Delivered(u, s', c)
    {
      assert Delivered(u, s, c);
    }
  }

  lemma ServerStepKeepsInv(u: Setup, s: System, s': System, step: Step)
    requires Inv(u, s) && ServerStep(s, s', step)
    ensures Inv(u, s')
  {
    hide ServerStep, ServerInv, ServerFrame, OriginInv, SpoolInv;
    ServerStepKeepsServerInv(s, s', step);
    FrameKeepsOrigin(u, s, s');
    FrameKeepsSpool(u, s, s');
  }

  // ---- Steps of the capture process and of retention ----

  /** The server never notices them, and captures only grow. */
  ghost predicate CaptureFrame(s: System, s': System) {
    && s'.sent == s.sent && s'.replies == s.replies && s'.handlers == s.handlers && s'.locks == s.locks
    && s'.rows == s.rows && s'.forwarder == s.forwarder
    && (forall c | c in s.content :: c in s'.content && s.content[c] <= s'.content[c])
  }

  lemma CapturedGrows(u: Setup, s: System, s': System, e: Event)
    requires CaptureFrame(s, s') && Captured(u, s, e)
    ensures Captured(u, s', e)
  {
    var c, i :| c in s.content && 0 <= i < |s.content[c]| && u.eventId(s.content[c][i]) == e;
    assert c in s'.content && s'.content[c][i] == s.content[c][i];
  }

  lemma CaptureFrameKeeps(u: Setup, s: System, s': System)
    requires ServerInv(s) && OriginInv(u, s) && CaptureFrame(s, s')
    ensures ServerInv(s') && OriginInv(u, s')
  {
    forall e | Captured(u, s, e)
      ensures Captured(u, s', e)
    {
      CapturedGrows(u, s, s', e);
    }
    hide Captured;
  }

  /** Nothing is lost from the spool as far as delivery goes. */
  ghost predicate SpoolFrame(s: System, s': System) {
    && s'.place.Keys <= s'.content.Keys && s'.open <= s'.content.Keys
    && s.renamedOpen <= s'.renamedOpen
    && (forall c | c in s.place && s.place[c] != Writing :: c in s'.place && s'.place[c] != Writing)
    && (forall c | c in s'.place && s'.place[c] != Writing && c in s'.open :: c in s'.renamedOpen)
    && (forall c | c in s'.place && s'.place[c] in {Archived, Removed} :: c in s.place && s.place[c] in {Archived, Removed})
    && (forall c | c in s.place && s.place[c] != Writing && c !in s'.renamedOpen ::
          c in s'.content && c in s.content && s'.content[c] == s.content[c])
  }

  lemma SpoolFrameKeeps(u: Setup, s: System, s': System)
    requires SpoolInv(u, s) && CaptureFrame(s, s') && SpoolFrame(s, s')
    ensures SpoolInv(u, s')
  {
    hide EventsOf;
    forall c | c in s'.place && s'.place[c] in {Archived, Removed} && c !in s'.renamedOpen
      ensures Delivered(u, s', c)
    {
      assert Delivered(u, s, c);
    }
  }

  lemma RecoveredFrame(s: System)
    requires SpoolShape(s)
    ensures CaptureFrame(s, Recovered(s)) && SpoolFrame(s, Recovered(s))
  {
  }

  lemma OpenFrame(u: Setup, s: System, s': System, c: CaptureId)
    requires SpoolShape(s) && CaptureStep(u, s, s', OpenCapture(c))
    ensures CaptureFrame(s, s') && SpoolFrame(s, s')
  {
  }

  lemma WriteFrame(u: Setup, s: System, s': System, c: CaptureId, identity: string)
    requires SpoolShape(s) && CaptureStep(u, s, s', WritePacket(c, identity))
    ensures CaptureFrame(s, s') && SpoolFrame(s, s')
  {
    assert s.content[c] <= s.content[c] + [identity];
  }

  lemma CloseFrame(u: Setup, s: System, s': System, c: CaptureId)
    requires SpoolShape(s) && CaptureStep(u, s, s', CloseCapture(c))
    ensures CaptureFrame(s, s') && SpoolFrame(s, s')
  {
    if s.place[c] != Writing {
      ClosedFrame(s, s', c);
    } else if s.content[c] == [] {
      DiscardedFrame(s, s', c);
    } else {
      SealedFrame(s, s', c);
    }
  }

  lemma ClosedFrame(s: System, s': System, c: CaptureId)
    requires SpoolShape(s) && s' == s.(open := s.open - {c})
    ensures CaptureFrame(s, s') && SpoolFrame(s, s')
  {
  }

  lemma DiscardedFrame(s: System, s': System, c: CaptureId)
    requires SpoolShape(s) && c in s.place && s.place[c] == Writing
    requires s' == s.(open := s.open - {c}, place := s.place - {c})
    ensures CaptureFrame(s, s') && SpoolFrame(s, s')
  {
  }

  lemma SealedFrame(s: System, s': System, c: CaptureId)
    requires SpoolShape(s) && c in s.place && s.place[c] == Writing
    requires s' == s.(open := s.open - {c}, place := s.place[c := Ready])
    ensures CaptureFrame(s, s') && SpoolFrame(s, s')
  {
  }

  lemma RetentionFrame(u: Setup, s: System, s': System, c: CaptureId)
    requires SpoolShape(s) && CaptureStep(u, s, s', Retention(c))
    ensures CaptureFrame(s, s') && SpoolFrame(s, s')
  {
  }

  lemma CaptureStepFrame(u: Setup, s: System, s': System, step: Step)
    requires SpoolShape(s) && CaptureStep(u, s, s', step)
    ensures CaptureFrame(s, s') && SpoolFrame(s, s')
  {
    match step
    case OpenCapture(c) => OpenFrame(u, s, s', c);
    case WritePacket(c, identity) => WriteFrame(u, s, s', c, identity);
    case CloseCapture(c) => CloseFrame(u, s, s', c);
    case Recover => RecoveredFrame(s);
    case Retention(c) => RetentionFrame(u, s, s', c);
    case _ =>
  }

  lemma CaptureStepKeepsInv(u: Setup, s: System, s': System, step: Step)
    requires Inv(u, s) && CaptureStep(u, s, s', step)
    ensures Inv(u, s')
  {
    CaptureStepFrame(u, s, s', step);
    hide CaptureStep, ServerInv, CaptureFrame, SpoolFrame, OriginInv, SpoolInv;
    CaptureFrameKeeps(u, s, s');
    SpoolFrameKeeps(u, s, s');
  }

  // ---- Steps of the forwarder ----

  lemma EventsAreCaptured(u: Setup, s: System, c: CaptureId)
    requires c in s.content
    ensures forall e | e in EventsOf(u, s.content[c]) :: Captured(u, s, e)
  {
    forall e | e in EventsOf(u, s.content[c])
      ensures Captured(u, s, e)
    {
      var i :| 0 <= i < |s.content[c]| && EventsOf(u, s.content[c])[i] == e;
    }
  }

  lemma BeginKeepsInv(u: Setup, s: System, s': System, c: CaptureId)
    requires u.retries >= 0 && Inv(u, s) && ForwarderStep(u, s, s', BeginFile(c))
    ensures Inv(u, s')
  {
    EventsAreCaptured(u, s, c);
    hide EventsOf;
    assert forall e :: Captured(u, s, e) ==> Captured(u, s', e);
    assert forall d | d in s.place && s.place[d] in {Archived, Removed} && d !in s.renamedOpen ::
        Delivered(u, s, d) && Delivered(u, s', d);
  }

  /** Everything but the forwarder, the requests and the replies is as before. */
  ghost predicate ForwarderFrame(s: System, s': System) {
    && s'.content == s.content && s'.open == s.open && s'.renamedOpen == s.renamedOpen
    && s'.handlers == s.handlers && s'.locks == s.locks && s'.rows == s.rows
    && s'.replies <= s.replies
    && (forall r | r in s.sent :: r in s'.sent && s'.sent[r] == s.sent[r])
  }

  lemma ForwarderFrameKeepsServer(u: Setup, s: System, s': System)
    requires ServerInv(s) && ForwarderFrame(s, s')
    ensures ServerInv(s')
  {
  }

  lemma ForwarderFrameKeepsOrigin(u: Setup, s: System, s': System)
    requires OriginInv(u, s) && ForwarderFrame(s, s')
    requires forall r | r in s'.sent && r !in s.sent :: Captured(u, s, s'.sent[r])
    requires s'.forwarder.Posting? || s'.forwarder.Waiting? ==>
               (s.forwarder.Posting? || s.forwarder.Waiting?) && s'.forwarder.events == s.forwarder.events
    ensures OriginInv(u, s')
  {
    assert forall e :: Captured(u, s, e) ==> Captured(u, s', e);
    hide Captured;
  }

  predicate Posts(step: Step) {
    step.Send? || step.GetReply? || step.GiveUpWaiting? || step.OtherError? || step.ForwarderCrash?
  }

  /** With a non-negative retry count, an event counts as done only when its request was answered. */
  lemma PostStepKeepsSpool(u: Setup, s: System, s': System, step: Step)
    requires u.retries >= 0 && ServerInv(s) && SpoolInv(u, s) && ForwarderStep(u, s, s', step) && Posts(step)
    ensures SpoolInv(u, s')
  {
    hide EventsOf;
    assert forall d | d in s.place && s.place[d] in {Archived, Removed} && d !in s.renamedOpen ::
        Delivered(u, s, d) && Delivered(u, s', d);
  }

  lemma PostStepKeepsInv(u: Setup, s: System, s': System, step: Step)
    requires u.retries >= 0 && Inv(u, s) && ForwarderStep(u, s, s', step) && Posts(step)
    ensures Inv(u, s')
  {
    hide SpoolInv;
    PostStepKeepsSpool(u, s, s', step);
    assert ForwarderFrame(s, s');
    hide ServerInv, Captured;
    ForwarderFrameKeepsServer(u, s, s');
    ForwarderFrameKeepsOrigin(u, s, s');
  }

  lemma NoPostIsSkipped(u: Setup, s: System, s': System)
    requires u.retries >= 0 && SpoolInv(u, s)
    ensures !ForwarderStep(u, s, s', SkipPost)
  {
  }

  lemma ArchiveKeepsInv(u: Setup, s: System, s': System)
    requires Inv(u, s) && ForwarderStep(u, s, s', Archive)
    ensures Inv(u, s')
  {
    hide EventsOf;
    assert forall e :: Captured(u, s, e) ==> Captured(u, s', e);
    forall c | c in s'.place && s'.place[c] in {Archived, Removed} && c !in s'.renamedOpen
      ensures Delivered(u, s', c)
    {
      if c == s.forwarder.file {
        assert s.forwarder.events == EventsOf(u, s.content[c]);
        SameLength(u, s.content[c]);
      } else {
        assert Delivered(u, s, c);
      }
    }
  }

  lemma SameLength(u: Setup, content: seq<string>)
    ensures |EventsOf(u, content)| == |content|
  {
  }

  lemma PollingKeepsInv(u: Setup, s: System)
    requires Inv(u, s)
    ensures Inv(u, s.(forwarder := Polling))
  {
    var s' := s.(forwarder := Polling);
    assert ForwarderFrame(s, s');
    ForwarderFrameKeepsServer(u, s, s');
    ForwarderFrameKeepsOrigin(u, s, s');
    hide EventsOf, ServerInv, OriginInv;
    assert forall d | d in s.place && s.place[d] in {Archived, Removed} && d !in s.renamedOpen ::
        Delivered(u, s, d) && Delivered(u, s', d);
  }

  lemma StartKeepsInv(u: Setup, s: System, s': System)
    requires Inv(u, s) && ForwarderStep(u, s, s', StartForwarder)
    ensures Inv(u, s')
  {
    hide Inv, Recovered;
    CaptureStepKeepsInv(u, s, Recovered(s), Recover);
    PollingKeepsInv(u, Recovered(s));
  }

  lemma StepKeepsInv(u: Setup, s: System, s': System, step: Step)
    requires u.retries >= 0 && Inv(u, s) && Next(u, s, s', step)
    ensures Inv(u, s')
  {
    hide CaptureStep, ServerStep, Inv, SpoolInv;
    if CaptureStep(u, s, s', step) {
      CaptureStepKeepsInv(u, s, s', step);
    } else if ServerStep(s, s', step) {
      ServerStepKeepsInv(u, s, s', step);
    } else {
      ForwarderStepKeepsInv(u, s, s', step);
    }
  }

  lemma ForwarderStepKeepsInv(u: Setup, s: System, s': System, step: Step)
    requires u.retries >= 0 && Inv(u, s) && ForwarderStep(u, s, s', step)
    ensures Inv(u, s')
  {
    hide SpoolInv, ServerInv, OriginInv;
    if Posts(step) {
      PostStepKeepsInv(u, s, s', step);
    } else {
      match step
      case StartForwarder => StartKeepsInv(u, s, s');
      case BeginFile(c) => BeginKeepsInv(u, s, s', c);
      case SkipPost => NoPostIsSkipped(u, s, s');
      case Archive => ArchiveKeepsInv(u, s, s');
    }
  }

  // ---- Whole runs ----

  ghost predicate Moves(u: Setup, s: System, s': System) {
    exists step :: Next(u, s, s', step)
  }

  ghost predicate IsRun(u: Setup, run: seq<System>) {
    run != [] && Init(run[0]) && forall i | 0 <= i < |run| - 1 :: Moves(u, run[i], run[i + 1])
  }

  lemma InitInv(u: Setup, s: System)
    requires Init(s)
    ensures Inv(u, s)
  {
  }

  lemma {:induction false} RunKeepsInv(u: Setup, run: seq<System>, i: nat)
    requires u.retries >= 0 && IsRun(u, run) && i < |run|
    ensures Inv(u, run[i])
  {
    hide Inv, Next;
    if i == 0 {
      InitInv(u, run[0]);
    } else {
      RunKeepsInv(u, run, i - 1);
      assert Moves(u, run[i - 1], run[i - 1 + 1]);
      var step :| Next(u, run[i - 1], run[i], step);
      StepKeepsInv(u, run[i - 1], run[i], step);
    }
  }

  // ---- Recoveries that wait for the writers ----

  lemma RecoveredRenamesNothing(s: System)
    requires !BeingWritten(s)
    ensures Recovered(s).renamedOpen == s.renamedOpen
  {
    forall c | c in s.open && c in s.place
      ensures s.place[c] != Writing
    {
    }
  }

  lemma CaptureStepRenamesNothing(u: Setup, s: System, s': System, step: Step)
    requires u.exclusive && Permitted(u, s, step) && CaptureStep(u, s, s', step)
    ensures s'.renamedOpen == s.renamedOpen
  {
    if step.Recover? {
      RecoveredRenamesNothing(s);
    }
    hide Recovered, BeingWritten;
  }

  lemma ForwarderStepRenamesNothing(u: Setup, s: System, s': System, step: Step)
    requires u.exclusive && Permitted(u, s, step) && ForwarderStep(u, s, s', step)
    ensures s'.renamedOpen == s.renamedOpen
  {
    if step.StartForwarder? {
      RecoveredRenamesNothing(s);
    }
    hide Recovered, BeingWritten, EventsOf, Retry;
  }

  lemma ServerStepRenamesNothing(s: System, s': System, step: Step)
    requires ServerStep(s, s', step)
    ensures s'.renamedOpen == s.renamedOpen
  {
    hide Unlock;
    match step
    case CommitNew(r) => UnlockRenamesNothing(s, r);
    case AnswerExisting(r) => UnlockRenamesNothing(s, r);
    case Abort(r, _) => UnlockRenamesNothing(s, r);
    case _ =>
  }

  lemma UnlockRenamesNothing(s: System, r: RequestId)
    requires r in s.handlers
    ensures Unlock(s, r).renamedOpen == s.renamedOpen
  {
  }

  /** Then no capture is ever sealed while it is being written. */
  lemma {:induction false} NothingIsOvertaken(u: Setup, run: seq<System>, i: nat)
    requires u.exclusive && IsRun(u, run) && i < |run|
    ensures run[i].renamedOpen == {}
  {
    hide CaptureStep, ForwarderStep, ServerStep, Permitted;
    if i > 0 {
      NothingIsOvertaken(u, run, i - 1);
      var s, s' := run[i - 1], run[i - 1 + 1];
      assert Moves(u, s, s');
      var step :| Next(u, s, s', step);
      if CaptureStep(u, s, s', step) {
        CaptureStepRenamesNothing(u, s, s', step);
      } else if ForwarderStep(u, s, s', step) {
        ForwarderStepRenamesNothing(u, s, s', step);
      } else {
        ServerStepRenamesNothing(s, s', step);
      }
    }
  }

  // ---- The main results ----

  /** Every archived or since removed capture has all its events in the table. */
  ghost predicate ArchiveIsSafe(u: Setup, s: System) {
    forall c | c in s.place && s.place[c] in {Archived, Removed} :: c in s.content && Delivered(u, s, c)
  }

  /**
    Exactly-once effect, at every moment of every run, whatever is lost, repeated, reordered or
    crashed: at most one observation per event id, none without a capture behind it, and everything
    in an archived or since removed capture is in the table, as long as recoveries wait for the
    writers; if they do not, this holds of every capture that no recovery has sealed under its writer.
   */
  lemma ExactlyOnce(u: Setup, run: seq<System>, i: nat)
    requires u.retries >= 0 && IsRun(u, run) && i < |run|
    ensures var s := run[i];
            && NoDuplicates(s.rows)
            && (forall e | e in s.rows :: Captured(u, s, e))
            && (u.exclusive ==> ArchiveIsSafe(u, s))
            && (forall c | c in s.place && s.place[c] in {Archived, Removed} && c !in s.renamedOpen ::
                  c in s.content && Delivered(u, s, c))
  {
    RunKeepsInv(u, run, i);
    if u.exclusive {
      NothingIsOvertaken(u, run, i);
    }
    hide Captured, Delivered, IsRun;
  }

  // ---- Both conditions are needed ----

  lemma RunExtends(u: Setup, run: seq<System>, s': System, step: Step) returns (longer: seq<System>)
    requires IsRun(u, run) && Next(u, run[|run| - 1], s', step)
    ensures IsRun(u, longer) && longer[|longer| - 1] == s'
  {
    hide Next;
    longer := run + [s'];
    forall i | 0 <= i < |longer| - 1
      ensures Moves(u, longer[i], longer[i + 1])
    {
      if i < |run| - 1 {
        assert Moves(u, run[i], run[i + 1]);
      }
    }
  }

  /** The system after a capture of the one observation `x`, its file sealed or still open. */
  function OneCapture(x: string, place: Place, open: set<CaptureId>, renamed: set<CaptureId>, f: Forwarder): System {
    System(map[0 := [x]], map[0 := place], open, renamed, f, map[], {}, {}, map[], map[], [])
  }

  lemma OneCaptureRun(u: Setup, x: string) returns (run: seq<System>)
    ensures IsRun(u, run) && run[|run| - 1] == OneCapture(x, Writing, {0}, {}, Down)
  {
    var s0 := System(map[], map[], {}, {}, Down, map[], {}, {}, map[], map[], []);
    var s1 := s0.(content := map[0 := []], place := map[0 := Writing], open := {0});
    var s2 := OneCapture(x, Writing, {0}, {}, Down);
    run := [s0];
    assert CaptureStep(u, s0, s1, OpenCapture(0));
    run := RunExtends(u, run, s1, OpenCapture(0));
    assert [] + [x] == [x];
    assert s2 == s1.(content := s1.content[0 := s1.content[0] + [x]]);
    run := RunExtends(u, run, s2, WritePacket(0, x));
  }

  /** The stages of forwarding that capture without a single attempt. */
  function SkipStage(k: nat, x: string, e: Event): System {
    if k == 0 then OneCapture(x, Ready, {}, {}, Down)
    else if k == 1 then OneCapture(x, Ready, {}, {}, Polling)
    else if k == 2 then OneCapture(x, Ready, {}, {}, Posting(0, [e], 0, 0))
    else if k == 3 then OneCapture(x, Ready, {}, {}, Posting(0, [e], 1, 0))
    else OneCapture(x, Archived, {}, {}, Polling)
  }

  lemma SkipStagesBegin(u: Setup, x: string, e: Event)
    ensures CaptureStep(u, OneCapture(x, Writing, {0}, {}, Down), SkipStage(0, x, e), CloseCapture(0))
    ensures ForwarderStep(u, SkipStage(0, x, e), SkipStage(1, x, e), StartForwarder)
  {
    assert Recovered(SkipStage(0, x, e)) == SkipStage(0, x, e);
  }

  lemma SkipStagesPost(u: Setup, x: string)
    requires u.retries < 0
    ensures var e := u.eventId(x);
            && ForwarderStep(u, SkipStage(1, x, e), SkipStage(2, x, e), BeginFile(0))
            && ForwarderStep(u, SkipStage(2, x, e), SkipStage(3, x, e), SkipPost)
            && ForwarderStep(u, SkipStage(3, x, e), SkipStage(4, x, e), Archive)
  {
    assert EventsOf(u, [x]) == [u.eventId(x)];
    hide EventsOf;
  }

  /** With a negative retry count the post loop is empty, and a capture is archived undelivered. */
  lemma NegativeRetriesLose(u: Setup, x: string) returns (run: seq<System>)
    requires u.retries < 0
    ensures IsRun(u, run) && !ArchiveIsSafe(u, run[|run| - 1])
  {
    var e := u.eventId(x);
    SkipStagesBegin(u, x, e);
    SkipStagesPost(u, x);
    NothingDelivered(u, x, SkipStage(4, x, e));
    hide SkipStage, CaptureStep, ForwarderStep, ServerStep, IsRun, ArchiveIsSafe;
    run := OneCaptureRun(u, x);
    run := RunExtends(u, run, SkipStage(0, x, e), CloseCapture(0));
    run := RunExtends(u, run, SkipStage(1, x, e), StartForwarder);
    run := RunExtends(u, run, SkipStage(2, x, e), BeginFile(0));
    run := RunExtends(u, run, SkipStage(3, x, e), SkipPost);
    run := RunExtends(u, run, SkipStage(4, x, e), Archive);
  }

  lemma NothingDelivered(u: Setup, x: string, s: System)
    requires s == OneCapture(x, Archived, {}, {}, Polling)
    ensures !ArchiveIsSafe(u, s)
  {
    assert EventsOf(u, [x])[0] !in s.rows;
    assert !Delivered(u, s, 0);
  }

  /** The same capture, sealed by a recovery while its writer has gone on to a second packet. */
  function Overtaken(x: string, y: string, place: Place, f: Forwarder, sent: map<RequestId, Event>, rows: seq<Event>): System {
    System(map[0 := [x, y]], map[0 := place], {0}, {0}, f, sent, {}, {}, map[], map[], rows)
  }

  lemma OvertakenRun(u: Setup, x: string, y: string) returns (run: seq<System>)
    requires u.retries >= 0 && !u.exclusive
    ensures IsRun(u, run) && run[|run| - 1] == PostStage(0, x, y, u.eventId(x))
  {
    run := OneCaptureRun(u, x);
    var e := u.eventId(x);
    var s3 := OneCapture(x, Ready, {0}, {0}, Polling);
    var s4 := OneCapture(x, Ready, {0}, {0}, Posting(0, [e], 0, 0));
    var s5 := Overtaken(x, y, Ready, Posting(0, [e], 0, 0), map[], []);
    var s2 := run[|run| - 1];
    assert Recovered(s2) == OneCapture(x, Ready, {0}, {0}, Down);
    run := RunExtends(u, run, s3, StartForwarder);
    assert EventsOf(u, [x]) == [e];
    run := RunExtends(u, run, s4, BeginFile(0));
    assert [x] + [y] == [x, y];
    assert s5.content == s4.content[0 := s4.content[0] + [y]];
    assert CaptureStep(u, s4, s5, WritePacket(0, y));
    run := RunExtends(u, run, s5, WritePacket(0, y));
  }

  /** The stages of one undisturbed post, from sending to its reply. */
  function PostStage(k: nat, x: string, y: string, e: Event): System {
    var t0 := Overtaken(x, y, Ready, Waiting(0, [e], 0, 0, 0), map[0 := e], []);
    if k == 1 then t0.(inFlight := {0})
    else if k == 2 then t0.(handlers := map[0 := Received(e)])
    else if k == 3 then t0.(handlers := map[0 := Locked(e)], locks := map[e := 0])
    else if k == 4 then t0.(handlers := map[0 := Checked(e, false)], locks := map[e := 0])
    else if k == 5 then t0.(rows := [e], replies := {(0, Accepted)})
    else if k == 6 then Overtaken(x, y, Ready, Posting(0, [e], 1, 0), map[0 := e], [e])
    else Overtaken(x, y, Ready, Posting(0, [e], 0, 0), map[], [])
  }

  lemma PostStagesSent(u: Setup, x: string, y: string, e: Event)
    requires u.retries >= 0
    ensures Next(u, PostStage(0, x, y, e), PostStage(1, x, y, e), Send(0))
    ensures Next(u, PostStage(5, x, y, e), PostStage(6, x, y, e), GetReply(Accepted))
  {
    assert PostStage(5, x, y, e).replies - {(0, Accepted)} == {};
  }

  lemma PostStagesServed(x: string, y: string, e: Event)
    ensures ServerStep(PostStage(1, x, y, e), PostStage(2, x, y, e), Receive(0))
    ensures ServerStep(PostStage(2, x, y, e), PostStage(3, x, y, e), TakeLock(0))
    ensures ServerStep(PostStage(3, x, y, e), PostStage(4, x, y, e), LookUp(0))
  {
  }

  lemma PostStageCommitted(x: string, y: string, e: Event)
    ensures ServerStep(PostStage(4, x, y, e), PostStage(5, x, y, e), CommitNew(0))
  {
    var t4 := PostStage(4, x, y, e);
    assert t4.handlers - {0} == map[] && t4.locks - {e} == map[] && [] + [e] == [e];
  }

  lemma PostedRun(u: Setup, start: seq<System>, x: string, y: string, e: Event) returns (run: seq<System>)
    requires IsRun(u, start) && u.retries >= 0 && start[|start| - 1] == PostStage(0, x, y, e)
    ensures IsRun(u, run) && run[|run| - 1] == PostStage(6, x, y, e)
  {
    PostStagesSent(u, x, y, e);
    PostStagesServed(x, y, e);
    PostStageCommitted(x, y, e);
    hide PostStage, ServerStep, CaptureStep, ForwarderStep, IsRun;
    run := RunExtends(u, start, PostStage(1, x, y, e), Send(0));
    run := RunExtends(u, run, PostStage(2, x, y, e), Receive(0));
    run := RunExtends(u, run, PostStage(3, x, y, e), TakeLock(0));
    run := RunExtends(u, run, PostStage(4, x, y, e), LookUp(0));
    run := RunExtends(u, run, PostStage(5, x, y, e), CommitNew(0));
    run := RunExtends(u, run, PostStage(6, x, y, e), GetReply(Accepted));
  }

  /**
    The other exception is real too: a forwarder started while a capture is being written seals and
    archives the part it sees, and a packet written afterwards is in an archived capture undelivered.
   */
  lemma RecoveryOvertakesWriter(u: Setup, x: string, y: string) returns (run: seq<System>)
    requires u.retries >= 0 && !u.exclusive && u.eventId(x) != u.eventId(y)
    ensures IsRun(u, run)
    ensures var s := run[|run| - 1]; 0 in s.place && s.place[0] == Archived && 0 in s.content && !Delivered(u, s, 0)
  {
    run := OvertakenRun(u, x, y);
    var e := u.eventId(x);
    run := PostedRun(u, run, x, y, e);
    var last := Overtaken(x, y, Archived, Polling, map[0 := e], [e]);
    run := RunExtends(u, run, last, Archive);
    assert EventsOf(u, [x, y])[1] !in last.rows;
  }

  /**
    Archiving is safe in every run exactly when the retry count is not negative and recoveries wait
    for the writers; event ids only have to tell some two observations apart.
   */
  lemma ArchiveIsSafeIff(u: Setup, x: string, y: string)
    requires u.eventId(x) != u.eventId(y)
    ensures (forall run, i: nat | IsRun(u, run) && i < |run| :: ArchiveIsSafe(u, run[i])) <==> u.retries >= 0 && u.exclusive
  {
    hide Moves, Delivered;
    if u.retries < 0 {
      var run := NegativeRetriesLose(u, x);
      assert !ArchiveIsSafe(u, run[|run| - 1]);
    } else if !u.exclusive {
      var run := RecoveryOvertakesWriter(u, x, y);
      assert !ArchiveIsSafe(u, run[|run| - 1]);
    } else {
      forall run, i: nat | IsRun(u, run) && i < |run|
        ensures ArchiveIsSafe(u, run[i])
      {
        ExactlyOnce(u, run, i);
      }
    }
  }
}
