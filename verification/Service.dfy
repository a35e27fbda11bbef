/** The bounded service loop of `serve_until`, as an event-driven machine.

    The loop thread's program is cut at every point where a worker, an outside
    caller of `ShutdownToken::request` or the clock may interleave with it. A run
    is any finite sequence of events; `Run` folds it from the initial state, so a
    theorem about `Run(cfg, events)` for all `events` covers every interleaving. */
module Service {
  import opened Wrappers

  const MAX_ACTIVE_REQUESTS: nat := 8
  const MAX_PENDING_ADMISSIONS: nat := 64
  /** Milliseconds from acceptance to a complete request frame. */
  const REQUEST_FRAME_DEADLINE: nat := 2_000
  /** Milliseconds the loop waits for workers once it has observed shutdown. */
  const DRAIN_LIMIT: nat := 30_000

  /** What has become of one accepted connection. */
  datatype Fate =
    | Held      // owned by the loop thread, in no queue
    | Waiting   // delivering its request frame
    | Refused   // counted in `rejected`
    | Live      // a worker is executing it
    | Sent      // its worker has dropped the slot guard
    | Received  // its completion was drained: counted in `completed`

  /** The history of one accepted connection; its position in the log is its identity. */
  datatype Conn = Conn(acceptedAt: nat, fate: Fate, readAt: Option<nat>)

  datatype Admission = Admission(id: nat, expiresAt: nat)
  datatype ReadOutcome = Incomplete | Complete | Broken
  datatype Target = Queued(index: nat) | Fresh(admission: Admission)
  datatype Resume = ToScan(index: nat) | ToIdle

  /** Program points of the loop thread. */
  datatype Pc =
    | Head
    | Drain
    | Check
    | Closing
    | Deciding
    | Scan(index: nat)
    | Polling(target: Target)
    | Reading(target: Target)
    | Rechecking(target: Target, outcome: ReadOutcome, at: nat)
    | Polled(target: Target, expired: bool, outcome: ReadOutcome, at: nat)
    | Acting(target: Target, expired: bool, outcome: ReadOutcome, at: nat)
    | Reserving(held: Admission, at: nat, resume: Resume)
    | Spawning(held: Admission, at: nat, resume: Resume)
    | Counting(resume: Resume)
    | Recheck
    | Listening
    | Validating(held: Admission)
    | Idle
    | Exited
    | Aborted

  datatype Stats = Stats(accepted: nat, rejected: nat, completed: nat, stuck: bool)

  datatype State = State(
    pc: Pc,
    now: nat,
    closed: bool,
    active: nat,
    pending: seq<Admission>,
    stats: Stats,
    shutdownAt: Option<nat>,
    idleSince: nat,
    progressed: bool,
    done: nat,
    conns: seq<Conn>)

  datatype AcceptResult = Connection | WouldBlock | AcceptError

  /** Everything the loop thread may learn from outside at one program point. */
  datatype Choice = Choice(outcome: ReadOutcome, accept: AcceptResult, peerValid: bool, ioError: bool)

  datatype Event =
    | Tick(elapsed: nat)
    | Request
    | WorkerDone(id: nat)
    | Loop(choice: Choice)

  datatype Config = Config(idleTimeout: Option<nat>, startedAt: nat)

  // ----- transitions ------------------------------------------------------------

  function Init(cfg: Config): State {
    State(Head, cfg.startedAt, false, 0, [], Stats(0, 0, 0, false), None, cfg.startedAt, false, 0, [])
  }

  function WithFate(conns: seq<Conn>, id: nat, fate: Fate): seq<Conn>
    requires id < |conns|
  {
    conns[id := conns[id].(fate := fate)]
  }

  /** `pending.clear()` refuses every waiting connection at once. */
  function RefuseWaiting(conns: seq<Conn>): (r: seq<Conn>)
    ensures |r| == |conns|
    ensures forall i :: 0 <= i < |r| ==>
      r[i] == if conns[i].fate == Waiting then conns[i].(fate := Refused) else conns[i]
  {
    seq(|conns|, i requires 0 <= i < |conns| =>
      if conns[i].fate == Waiting then conns[i].(fate := Refused) else conns[i])
  }

  function Refuse(s: State, id: nat): State {
    s.(stats := s.stats.(rejected := s.stats.rejected + 1),
       conns := if id < |s.conns| then WithFate(s.conns, id, Refused) else s.conns)
  }

  function FirstSent(conns: seq<Conn>, from: nat): nat
    requires from <= |conns|
    decreases |conns| - from
  {
    if from == |conns| || conns[from].fate == Sent then from else FirstSent(conns, from + 1)
  }

  function Remove<T>(s: seq<T>, i: nat): seq<T>
    requires i < |s|
  {
    s[..i] + s[i + 1..]
  }

  function ExpiresAt(pending: seq<Admission>, target: Target): nat {
    match target
    case Queued(i) => if i < |pending| then pending[i].expiresAt else 0
    case Fresh(a) => a.expiresAt
  }

  function Resumed(resume: Resume): Pc {
    match resume
    case ToScan(i) => Scan(i)
    case ToIdle => Idle
  }

  /** One `try_recv` of the drain loop; the subtraction saturates as in the source. */
  function DrainStep(s: State): State {
    if s.done == 0 then s.(pc := Check)
    else
      var i := FirstSent(s.conns, 0);
      s.(done := s.done - 1,
         active := if s.active == 0 then 0 else s.active - 1,
         stats := s.stats.(completed := s.stats.completed + 1),
         progressed := true,
         conns := if i < |s.conns| then WithFate(s.conns, i, Received) else s.conns)
  }

  function CloseStep(s: State): State {
    s.(shutdownAt := if s.shutdownAt.None? then Some(s.now) else s.shutdownAt,
       stats := s.stats.(rejected := s.stats.rejected + |s.pending|),
       pending := [],
       conns := RefuseWaiting(s.conns),
       pc := Deciding)
  }

  function DecideStep(s: State): State {
    if s.active == 0 then s.(pc := Exited)
    else if s.shutdownAt.Some? && s.now >= s.shutdownAt.value + DRAIN_LIMIT then
      s.(pc := Exited, stats := s.stats.(stuck := true))
    else s.(pc := Head)
  }

  /** `poll_live_admission`, cut at its two clock readings and at the read itself. */
  function PollingStep(s: State): State
    requires s.pc.Polling?
  {
    var t := s.pc.target;
    s.(pc := if s.now >= ExpiresAt(s.pending, t) then Polled(t, true, Incomplete, s.now) else Reading(t))
  }

  function ReadingStep(s: State, c: Choice): State
    requires s.pc.Reading?
  {
    s.(pc := Rechecking(s.pc.target, c.outcome, s.now))
  }

  /** A deadline that passed during the read turns every outcome but a failure into expiry. */
  function RecheckingStep(s: State): State
    requires s.pc.Rechecking?
  {
    var late := s.now >= ExpiresAt(s.pending, s.pc.target) && s.pc.outcome != Broken;
    s.(pc := Polled(s.pc.target, late, s.pc.outcome, s.pc.at))
  }

  /** The check of the token that follows every poll. */
  function PolledStep(s: State): State
    requires s.pc.Polled?
  {
    if s.closed then
      match s.pc.target
      case Queued(_) => s.(pc := Head)
      case Fresh(a) => Refuse(s, a.id).(pc := Head)
    else s.(pc := Acting(s.pc.target, s.pc.expired, s.pc.outcome, s.pc.at))
  }

  function DropQueued(s: State, i: nat): State
    requires i < |s.pending|
  {
    Refuse(s, s.pending[i].id).(pending := Remove(s.pending, i), progressed := true, pc := Scan(i))
  }

  /** A complete request leaves the queue and is owned by the loop thread. */
  function TakeQueued(s: State, i: nat, at: nat): State
    requires i < |s.pending|
  {
    var a := s.pending[i];
    s.(pending := Remove(s.pending, i),
       conns := if a.id < |s.conns| then WithFate(s.conns, a.id, Held) else s.conns,
       pc := Reserving(a, at, ToScan(i)))
  }

  function ActQueuedStep(s: State, i: nat, expired: bool, outcome: ReadOutcome, at: nat): State
    requires i < |s.pending|
  {
    if expired || outcome == Broken then DropQueued(s, i)
    else if outcome == Incomplete then s.(pc := Scan(i + 1))
    else if s.active < MAX_ACTIVE_REQUESTS then TakeQueued(s, i, at)
    else DropQueued(s, i)
  }

  function DropFresh(s: State, a: Admission): State {
    Refuse(s, a.id).(progressed := true, pc := Idle)
  }

  function ActFreshStep(s: State, a: Admission, expired: bool, outcome: ReadOutcome, at: nat): State {
    if expired || outcome == Broken then DropFresh(s, a)
    else if outcome == Incomplete then Enqueue(Evict(s), a)
    else if s.active < MAX_ACTIVE_REQUESTS then s.(pc := Reserving(a, at, ToIdle))
    else DropFresh(s, a)
  }

  function Evict(s: State): State {
    if |s.pending| == MAX_PENDING_ADMISSIONS then
      Refuse(s, s.pending[0].id).(pending := s.pending[1..])
    else s
  }

  function Enqueue(s: State, a: Admission): State {
    s.(pending := s.pending + [a],
       conns := if a.id < |s.conns| then WithFate(s.conns, a.id, Waiting) else s.conns,
       progressed := true,
       pc := Idle)
  }

  /** `try_reserve_execution`: one acquisition of the token's mutex. */
  function ReserveStep(s: State): State
    requires s.pc.Reserving?
  {
    if s.closed then Refuse(s, s.pc.held.id).(pc := Head)
    else s.(pc := Spawning(s.pc.held, s.pc.at, s.pc.resume))
  }

  function SpawnStep(s: State): State
    requires s.pc.Spawning?
  {
    var id := s.pc.held.id;
    s.(conns := if id < |s.conns| then s.conns[id := s.conns[id].(fate := Live, readAt := Some(s.pc.at))] else s.conns,
       pc := Counting(s.pc.resume))
  }

  function AdmitStep(s: State): State {
    s.(stats := s.stats.(accepted := s.stats.accepted + 1),
       conns := s.conns + [Conn(s.now, Held, None)],
       pc := Validating(Admission(|s.conns|, s.now + REQUEST_FRAME_DEADLINE)))
  }

  function ListenStep(s: State, c: Choice): State {
    match c.accept
    case WouldBlock => s.(pc := Idle)
    case AcceptError => s.(pc := Aborted)
    case Connection => AdmitStep(s)
  }

  /** A refused peer is counted, but only a valid one counts as progress. */
  function ValidateStep(s: State, c: Choice): State
    requires s.pc.Validating?
  {
    if !c.peerValid then Refuse(s, s.pc.held.id).(pc := Idle)
    else if c.ioError then s.(pc := Aborted)
    else s.(pc := Polling(Fresh(s.pc.held)))
  }

  predicate IdleNow(s: State) { s.active == 0 && s.pending == [] }

  /** The value `idle_since` has when the timeout is compared. */
  function IdleBase(s: State): nat {
    if IdleNow(s) && !s.progressed then s.idleSince else s.now
  }

  predicate IdleFires(cfg: Config, s: State) {
    && IdleNow(s)
    && cfg.idleTimeout.Some?
    && s.now >= IdleBase(s) + cfg.idleTimeout.value
  }

  function IdleStep(cfg: Config, s: State, c: Choice): State {
    var s := s.(idleSince := IdleBase(s));
    if IdleFires(cfg, s) then s.(closed := true, pc := Head)
    else if !s.progressed && c.ioError then s.(pc := Aborted)
    else s.(pc := Head)
  }

  function LoopStep(cfg: Config, s: State, c: Choice): State {
    match s.pc
    case Head => s.(progressed := false, pc := Drain)
    case Drain => DrainStep(s)
    case Check => s.(pc := if s.closed then Closing else Scan(0))
    case Closing => CloseStep(s)
    case Deciding => DecideStep(s)
    case Scan(i) => s.(pc := if i < |s.pending| then Polling(Queued(i)) else Recheck)
    case Polling(_) => PollingStep(s)
    case Reading(_) => ReadingStep(s, c)
    case Rechecking(_, _, _) => RecheckingStep(s)
    case Polled(_, _, _, _) => PolledStep(s)
    case Acting(Queued(i), e, o, at) => if i < |s.pending| then ActQueuedStep(s, i, e, o, at) else s
    case Acting(Fresh(a), e, o, at) => ActFreshStep(s, a, e, o, at)
    case Reserving(_, _, _) => ReserveStep(s)
    case Spawning(_, _, _) => SpawnStep(s)
    case Counting(resume) => s.(active := s.active + 1, progressed := true, pc := Resumed(resume))
    case Recheck => s.(pc := if s.closed then Head else Listening)
    case Listening => ListenStep(s, c)
    case Validating(_) => ValidateStep(s, c)
    case Idle => IdleStep(cfg, s, c)
    case Exited => s
    case Aborted => s
  }

  function Step(cfg: Config, s: State, e: Event): State {
    match e
    case Tick(d) => s.(now := s.now + d)
    case Request => s.(closed := true)
    case WorkerDone(id) =>
      if id < |s.conns| && s.conns[id].fate == Live then
        s.(conns := WithFate(s.conns, id, Sent), done := s.done + 1)
      else s
    case Loop(c) => LoopStep(cfg, s, c)
  }

  function Run(cfg: Config, events: seq<Event>): State {
    if events == [] then Init(cfg)
    else Step(cfg, Run(cfg, events[..|events| - 1]), events[|events| - 1])
  }

  // ----- counting fates -----------------------------------------------------------

  function Count(conns: seq<Conn>, fate: Fate): nat {
    if conns == [] then 0
    else Count(conns[..|conns| - 1], fate) + (if conns[|conns| - 1].fate == fate then 1 else 0)
  }

  lemma {:induction false} CountUpdate(conns: seq<Conn>, i: nat, c: Conn, fate: Fate)
    requires i < |conns|
    ensures Count(conns[i := c], fate)
         == Count(conns, fate) - (if conns[i].fate == fate then 1 else 0) + (if c.fate == fate then 1 else 0)
  {
    var n := |conns| - 1;
    var u := conns[i := c];
    if i == n {
      assert u[..n] == conns[..n];
    } else {
      CountUpdate(conns[..n], i, c, fate);
      assert u[..n] == conns[..n][i := c];
    }
  }

  lemma {:induction false} CountRefuseWaiting(conns: seq<Conn>, fate: Fate)
    ensures Count(RefuseWaiting(conns), fate)
         == if fate == Waiting then 0
            else if fate == Refused then Count(conns, Refused) + Count(conns, Waiting)
            else Count(conns, fate)
  {
    if conns != [] {
      var n := |conns| - 1;
      CountRefuseWaiting(conns[..n], fate);
      assert RefuseWaiting(conns)[..n] == RefuseWaiting(conns[..n]);
    }
  }

  lemma {:induction false} CountPartition(conns: seq<Conn>)
    ensures |conns| == Count(conns, Held) + Count(conns, Waiting) + Count(conns, Refused)
                     + Count(conns, Live) + Count(conns, Sent) + Count(conns, Received)
  {
    if conns != [] {
      CountPartition(conns[..|conns| - 1]);
    }
  }

  lemma {:induction false} FirstSentIsSent(conns: seq<Conn>, from: nat)
    requires from <= |conns|
    ensures FirstSent(conns, from) <= |conns|
    ensures FirstSent(conns, from) < |conns| ==> conns[FirstSent(conns, from)].fate == Sent
    ensures FirstSent(conns, from) == |conns| ==> forall i :: from <= i < |conns| ==> conns[i].fate != Sent
    decreases |conns| - from
  {
    if from < |conns| && conns[from].fate != Sent {
      FirstSentIsSent(conns, from + 1);
    }
  }

  lemma {:induction false} NoneCountsZero(conns: seq<Conn>, fate: Fate)
    requires forall i :: 0 <= i < |conns| ==> conns[i].fate != fate
    ensures Count(conns, fate) == 0
  {
    if conns != [] {
      NoneCountsZero(conns[..|conns| - 1], fate);
    }
  }

  // ----- the invariant of every reachable state ----------------------------------------

  function TargetHolds(target: Target): Option<Admission> {
    match target
    case Queued(_) => None
    case Fresh(a) => Some(a)
  }

  /** The connection the loop thread owns outside the queue, if any. */
  function HeldBy(pc: Pc): Option<Admission> {
    match pc
    case Polling(t) => TargetHolds(t)
    case Reading(t) => TargetHolds(t)
    case Rechecking(t, _, _) => TargetHolds(t)
    case Polled(t, _, _, _) => TargetHolds(t)
    case Acting(t, _, _, _) => TargetHolds(t)
    case Reserving(a, _, _) => Some(a)
    case Spawning(a, _, _) => Some(a)
    case Validating(a) => Some(a)
    case _ => None
  }

  predicate Tracks(conns: seq<Conn>, a: Admission, fate: Fate) {
    && a.id < |conns|
    && conns[a.id].fate == fate
    && a.expiresAt == conns[a.id].acceptedAt + REQUEST_FRAME_DEADLINE
  }

  /** Every counter is the number of connections with the fate it counts. */
  predicate Counters(s: State) {
    && s.stats.accepted == |s.conns|
    && s.stats.rejected == Count(s.conns, Refused)
    && s.stats.completed == Count(s.conns, Received)
    && s.done == Count(s.conns, Sent)
    && |s.pending| == Count(s.conns, Waiting)
    && s.active + (if s.pc.Counting? then 1 else 0) == Count(s.conns, Live) + Count(s.conns, Sent)
    && (!s.pc.Aborted? ==> Count(s.conns, Held) == if HeldBy(s.pc).Some? then 1 else 0)
  }

  predicate Queue(s: State) {
    && (forall i :: 0 <= i < |s.pending| ==> Tracks(s.conns, s.pending[i], Waiting))
    && (forall i, j :: 0 <= i < j < |s.pending| ==> s.pending[i].id < s.pending[j].id)
    && |s.pending| <= MAX_PENDING_ADMISSIONS
    && (HeldBy(s.pc).Some? ==> Tracks(s.conns, HeldBy(s.pc).value, Held))
    && (HeldBy(s.pc).Some? && !s.pc.Reserving? && !s.pc.Spawning? ==>
          HeldBy(s.pc).value.id == |s.conns| - 1)
  }

  predicate Times(s: State) {
    && s.idleSince <= s.now
    && (forall i :: 0 <= i < |s.conns| ==> s.conns[i].acceptedAt <= s.now)
    && (forall i, j :: 0 <= i < j < |s.conns| ==> s.conns[i].acceptedAt <= s.conns[j].acceptedAt)
  }

  predicate Started(c: Conn) { c.fate in {Live, Sent, Received} }

  /** A started connection was fully read before its own deadline. */
  predicate Punctual(s: State) {
    && (forall i :: 0 <= i < |s.conns| && Started(s.conns[i]) ==>
          s.conns[i].readAt.Some? && s.conns[i].readAt.value < s.conns[i].acceptedAt + REQUEST_FRAME_DEADLINE)
    && (s.pc.Rechecking? ==> s.pc.at <= s.now)
    && (s.pc.Polled? || s.pc.Acting? ==>
      s.pc.expired || s.pc.outcome == Broken || s.pc.at < ExpiresAt(s.pending, s.pc.target))
    && (s.pc.Reserving? || s.pc.Spawning? ==> s.pc.at < s.pc.held.expiresAt)
  }

  function PolledTarget(pc: Pc): Option<Target> {
    match pc
    case Polling(t) => Some(t)
    case Reading(t) => Some(t)
    case Rechecking(t, _, _) => Some(t)
    case Polled(t, _, _, _) => Some(t)
    case Acting(t, _, _, _) => Some(t)
    case _ => None
  }

  /** Program points from which the loop can only drain and leave once the token is closed. */
  predicate Winding(pc: Pc) {
    pc in {Head, Drain, Check, Closing, Deciding, Exited}
  }

  predicate Control(s: State) {
    && s.active <= MAX_ACTIVE_REQUESTS
    && (s.pc.Reserving? || s.pc.Spawning? || s.pc.Counting? ==> s.active < MAX_ACTIVE_REQUESTS)
    && (PolledTarget(s.pc).Some? && PolledTarget(s.pc).value.Queued? ==> PolledTarget(s.pc).value.index < |s.pending|)
    && (s.shutdownAt.Some? ==> s.closed && Winding(s.pc) && s.shutdownAt.value <= s.now)
    && (s.pc in {Closing, Deciding, Exited} ==> s.closed)
    && (s.pc in {Deciding, Exited} ==> s.shutdownAt.Some? && s.pending == [])
    && (s.pc.Exited? ==>
          if s.stats.stuck then s.active > 0 && s.now >= s.shutdownAt.value + DRAIN_LIMIT else s.active == 0)
    && (s.stats.stuck ==> s.pc.Exited?)
  }

  predicate Inv(s: State) {
    Counters(s) && Queue(s) && Times(s) && Punctual(s) && Control(s)
  }

  lemma CountAll(conns: seq<Conn>, i: nat, c: Conn)
    requires i < |conns|
    ensures forall f: Fate ::
      Count(conns[i := c], f)
      == Count(conns, f) - (if conns[i].fate == f then 1 else 0) + (if c.fate == f then 1 else 0)
  {
    forall f: Fate
      ensures Count(conns[i := c], f)
           == Count(conns, f) - (if conns[i].fate == f then 1 else 0) + (if c.fate == f then 1 else 0)
    {
      CountUpdate(conns, i, c, f);
    }
  }

  // One lemma for each action of the loop thread that moves a connection.

  lemma DrainKeepsInv(s: State)
    requires Inv(s) && s.pc.Drain?
    ensures Inv(DrainStep(s))
  {
    hide Count;
    if s.done > 0 {
      FirstSentIsSent(s.conns, 0);
      var i := FirstSent(s.conns, 0);
      if i == |s.conns| {
        NoneCountsZero(s.conns, Sent);
        assert false;
      }
      CountAll(s.conns, i, s.conns[i].(fate := Received));
    }
  }

  lemma CloseKeepsInv(s: State)
    requires Inv(s) && s.pc.Closing?
    ensures Inv(CloseStep(s))
  {
    hide Count;
    forall f: Fate
      ensures Count(RefuseWaiting(s.conns), f)
           == if f == Waiting then 0
              else if f == Refused then Count(s.conns, Refused) + Count(s.conns, Waiting)
              else Count(s.conns, f)
    {
      CountRefuseWaiting(s.conns, f);
    }
  }

  lemma PolledKeepsInv(s: State)
    requires Inv(s) && s.pc.Polled?
    ensures Inv(PolledStep(s))
  {
    hide Count;
    if s.closed && s.pc.target.Fresh? {
      var id := s.pc.target.admission.id;
      CountAll(s.conns, id, s.conns[id].(fate := Refused));
    }
  }

  lemma DropQueuedKeepsQueue(s: State, i: nat)
    requires Queue(s) && s.pc.Acting? && s.pc.target == Queued(i) && i < |s.pending|
    ensures Queue(DropQueued(s, i)) && Tracks(s.conns, s.pending[i], Waiting)
  {
  }

  lemma DropQueuedKeepsInv(s: State, i: nat)
    requires Inv(s) && s.pc.Acting? && s.pc.target == Queued(i) && i < |s.pending|
    ensures Inv(DropQueued(s, i))
  {
    hide Count, Queue;
    DropQueuedKeepsQueue(s, i);
    var id := s.pending[i].id;
    CountAll(s.conns, id, s.conns[id].(fate := Refused));
  }

  lemma TakeQueuedKeepsQueue(s: State, i: nat, at: nat)
    requires Queue(s) && s.pc.Acting? && s.pc.target == Queued(i) && i < |s.pending|
    ensures Queue(TakeQueued(s, i, at)) && Tracks(s.conns, s.pending[i], Waiting)
  {
  }

  lemma TakeQueuedKeepsInv(s: State, i: nat, at: nat)
    requires Inv(s) && s.pc == Acting(Queued(i), false, Complete, at) && i < |s.pending|
    requires s.active < MAX_ACTIVE_REQUESTS
    ensures Inv(TakeQueued(s, i, at))
  {
    hide Count, Queue;
    TakeQueuedKeepsQueue(s, i, at);
    var id := s.pending[i].id;
    CountAll(s.conns, id, s.conns[id].(fate := Held));
  }

  lemma ActQueuedKeepsInv(s: State, i: nat, expired: bool, outcome: ReadOutcome, at: nat)
    requires Inv(s) && s.pc == Acting(Queued(i), expired, outcome, at) && i < |s.pending|
    ensures Inv(ActQueuedStep(s, i, expired, outcome, at))
  {
    hide Count, Tracks;
    if expired || outcome == Broken || (outcome == Complete && s.active >= MAX_ACTIVE_REQUESTS) {
      DropQueuedKeepsInv(s, i);
    } else if outcome == Complete {
      TakeQueuedKeepsInv(s, i, at);
    }
  }

  lemma DropFreshKeepsInv(s: State, a: Admission)
    requires Inv(s) && s.pc.Acting? && s.pc.target == Fresh(a)
    ensures Inv(DropFresh(s, a))
  {
    hide Count;
    CountAll(s.conns, a.id, s.conns[a.id].(fate := Refused));
  }

  lemma EvictKeepsInv(s: State)
    requires Inv(s) && s.pc.Acting? && s.pc.target.Fresh?
    ensures Inv(Evict(s)) && |Evict(s).pending| < MAX_PENDING_ADMISSIONS && Evict(s).pc == s.pc
  {
    hide Count;
    if |s.pending| == MAX_PENDING_ADMISSIONS {
      var id := s.pending[0].id;
      assert Tracks(s.conns, s.pending[0], Waiting);
      CountAll(s.conns, id, s.conns[id].(fate := Refused));
    }
  }

  lemma EnqueueKeepsInv(s: State, a: Admission)
    requires Inv(s) && s.pc.Acting? && s.pc.target == Fresh(a) && |s.pending| < MAX_PENDING_ADMISSIONS
    ensures Inv(Enqueue(s, a))
  {
    hide Count;
    CountAll(s.conns, a.id, s.conns[a.id].(fate := Waiting));
  }

  lemma ActFreshKeepsInv(s: State, a: Admission, expired: bool, outcome: ReadOutcome, at: nat)
    requires Inv(s) && s.pc == Acting(Fresh(a), expired, outcome, at)
    ensures Inv(ActFreshStep(s, a, expired, outcome, at))
  {
    hide Count, Tracks;
    if expired || outcome == Broken || (outcome == Complete && s.active >= MAX_ACTIVE_REQUESTS) {
      DropFreshKeepsInv(s, a);
    } else if outcome == Incomplete {
      EvictKeepsInv(s);
      EnqueueKeepsInv(Evict(s), a);
    }
  }

  lemma ReserveKeepsInv(s: State)
    requires Inv(s) && s.pc.Reserving?
    ensures Inv(ReserveStep(s))
  {
    hide Count;
    var id := s.pc.held.id;
    CountAll(s.conns, id, s.conns[id].(fate := Refused));
  }

  lemma SpawnKeepsInv(s: State)
    requires Inv(s) && s.pc.Spawning?
    ensures Inv(SpawnStep(s))
  {
    hide Count;
    var id := s.pc.held.id;
    CountAll(s.conns, id, s.conns[id].(fate := Live, readAt := Some(s.pc.at)));
  }

  lemma AdmitKeepsInv(s: State)
    requires Inv(s) && s.pc.Listening?
    ensures Inv(AdmitStep(s))
  {
    hide Count;
    var c := Conn(s.now, Held, None);
    var conns := s.conns + [c];
    assert forall i :: 0 <= i < |s.conns| ==> conns[i] == s.conns[i];
    CountAppend(s.conns, c);
  }

  lemma ListenKeepsInv(s: State, c: Choice)
    requires Inv(s) && s.pc.Listening?
    ensures Inv(ListenStep(s, c))
  {
    hide Count, Tracks;
    if c.accept.Connection? {
      AdmitKeepsInv(s);
    }
  }

  lemma CountAppend(conns: seq<Conn>, c: Conn)
    ensures forall f: Fate :: Count(conns + [c], f) == Count(conns, f) + if c.fate == f then 1 else 0
  {
    assert (conns + [c])[..|conns|] == conns;
  }

  lemma ValidateKeepsInv(s: State, c: Choice)
    requires Inv(s) && s.pc.Validating?
    ensures Inv(ValidateStep(s, c))
  {
    hide Inv;
    RefusePeerKeepsInv(s);
    PassPeerKeepsInv(s, Aborted);
    PassPeerKeepsInv(s, Polling(Fresh(s.pc.held)));
  }

  lemma PassPeerKeepsInv(s: State, next: Pc)
    requires Inv(s) && s.pc.Validating? && next in {Aborted, Polling(Fresh(s.pc.held))}
    ensures Inv(s.(pc := next))
  {
    hide Count, Tracks, Started;
  }

  lemma RefusePeerKeepsInv(s: State)
    requires Inv(s) && s.pc.Validating?
    ensures Inv(Refuse(s, s.pc.held.id).(pc := Idle))
  {
    hide Count;
    var id := s.pc.held.id;
    CountAll(s.conns, id, s.conns[id].(fate := Refused));
  }

  lemma IdleKeepsInv(cfg: Config, s: State, c: Choice)
    requires Inv(s) && s.pc.Idle?
    ensures Inv(IdleStep(cfg, s, c))
  {
    hide Count;
  }

  lemma PollingKeepsInv(s: State)
    requires Inv(s) && s.pc.Polling?
    ensures Inv(PollingStep(s))
  {
    hide Count;
  }

  lemma ReadingKeepsInv(s: State, c: Choice)
    requires Inv(s) && s.pc.Reading?
    ensures Inv(ReadingStep(s, c))
  {
    hide Count;
  }

  lemma RecheckingKeepsInv(s: State)
    requires Inv(s) && s.pc.Rechecking?
    ensures Inv(RecheckingStep(s))
  {
    hide Count;
  }

  lemma MoveKeepsInv(cfg: Config, s: State, c: Choice)
    requires Inv(s) && (s.pc in {Head, Check, Recheck} || s.pc.Scan?)
    ensures Inv(LoopStep(cfg, s, c))
  {
    hide Count, Tracks, Started;
  }

  lemma DecideKeepsInv(s: State)
    requires Inv(s) && s.pc.Deciding?
    ensures Inv(DecideStep(s))
  {
    hide Count, Tracks, Started;
  }

  lemma CountingKeepsInv(s: State)
    requires Inv(s) && s.pc.Counting?
    ensures Inv(s.(active := s.active + 1, progressed := true, pc := Resumed(s.pc.resume)))
  {
    hide Count, Tracks, Started;
  }

  lemma LoopKeepsInv(cfg: Config, s: State, c: Choice)
    requires Inv(s)
    ensures Inv(LoopStep(cfg, s, c))
  {
    hide Inv;
    match s.pc
    case Drain => DrainKeepsInv(s);
    case Closing => CloseKeepsInv(s);
    case Polled(_, _, _, _) => PolledKeepsInv(s);
    case Acting(Queued(i), e, o, at) => if i < |s.pending| { ActQueuedKeepsInv(s, i, e, o, at); }
    case Acting(Fresh(a), e, o, at) => ActFreshKeepsInv(s, a, e, o, at);
    case Reserving(_, _, _) => ReserveKeepsInv(s);
    case Spawning(_, _, _) => SpawnKeepsInv(s);
    case Listening => ListenKeepsInv(s, c);
    case Validating(_) => ValidateKeepsInv(s, c);
    case Idle => IdleKeepsInv(cfg, s, c);
    case Polling(_) => PollingKeepsInv(s);
    case Reading(_) => ReadingKeepsInv(s, c);
    case Rechecking(_, _, _) => RecheckingKeepsInv(s);
    case Deciding => DecideKeepsInv(s);
    case Counting(_) => CountingKeepsInv(s);
    case _ => if s.pc != Exited && s.pc != Aborted { MoveKeepsInv(cfg, s, c); }
  }

  lemma StepKeepsInv(cfg: Config, s: State, e: Event)
    requires Inv(s)
    ensures Inv(Step(cfg, s, e))
  {
    match e
    case Loop(c) => LoopKeepsInv(cfg, s, c);
    case WorkerDone(id) => WorkerDoneKeepsInv(cfg, s, id);
    case Tick(_) => OutsideKeepsInv(cfg, s, e);
    case Request => OutsideKeepsInv(cfg, s, e);
  }

  lemma WorkerDoneKeepsInv(cfg: Config, s: State, id: nat)
    requires Inv(s)
    ensures Inv(Step(cfg, s, WorkerDone(id)))
  {
    hide Count;
    if id < |s.conns| && s.conns[id].fate == Live {
      CountAll(s.conns, id, s.conns[id].(fate := Sent));
    }
  }

  lemma OutsideKeepsInv(cfg: Config, s: State, e: Event)
    requires Inv(s) && (e.Tick? || e.Request?)
    ensures Inv(Step(cfg, s, e))
  {
    hide Count;
  }

  lemma {:induction false} RunKeepsInv(cfg: Config, events: seq<Event>)
    ensures Inv(Run(cfg, events))
  {
    if events != [] {
      RunKeepsInv(cfg, events[..|events| - 1]);
      StepKeepsInv(cfg, Run(cfg, events[..|events| - 1]), events[|events| - 1]);
    }
  }

  // ----- every accepted connection has exactly one fate -----------------------------------

  /** Connections the loop thread holds in a register rather than in a counter. */
  function InHand(pc: Pc): nat {
    if HeldBy(pc).Some? || pc.Counting? then 1 else 0
  }

  /** Accounting over every run: the counters partition the accepted connections, the
      bounds hold, and a completion is never received without a slot to give back. */
  lemma Conservation(cfg: Config, events: seq<Event>)
    ensures var s := Run(cfg, events);
      && (!s.pc.Aborted? ==>
            s.stats.accepted == s.stats.rejected + s.stats.completed + s.active + |s.pending| + InHand(s.pc))
      && s.active <= 8
      && |s.pending| <= 64
      && (s.pc.Drain? && s.done > 0 ==> s.active > 0)
  {
    hide Count;
    RunKeepsInv(cfg, events);
    CountPartition(Run(cfg, events).conns);
  }

  /** What `serve_until` reports: a clean exit leaves no connection unaccounted for, and a
      stuck one is short by exactly the workers that have not been drained. */
  lemma ExitReport(cfg: Config, events: seq<Event>)
    requires Run(cfg, events).pc.Exited?
    ensures var s := Run(cfg, events);
      && s.stats.accepted == s.stats.rejected + s.stats.completed + Count(s.conns, Live) + Count(s.conns, Sent)
      && (s.stats.stuck <==> Count(s.conns, Live) + Count(s.conns, Sent) > 0)
      && (s.stats.stuck ==> s.shutdownAt.Some? && s.now >= s.shutdownAt.value + 30_000)
  {
    hide Count;
    RunKeepsInv(cfg, events);
    CountPartition(Run(cfg, events).conns);
  }

  function Stage(fate: Fate): nat {
    match fate
    case Live => 1
    case Sent => 2
    case Received => 3
    case _ => 0
  }

  /** A fate may only move forward: refusal and completion are final and exclude each other. */
  predicate MayBecome(c: Conn, d: Conn) {
    && d.acceptedAt == c.acceptedAt
    && (c.fate == Refused ==> d == c)
    && (Started(c) ==> Started(d) && d.readAt == c.readAt && Stage(c.fate) <= Stage(d.fate))
  }

  /** The connection is executing, has executed, or holds an execution reservation. */
  predicate Committed(s: State, id: nat) {
    || (id < |s.conns| && Started(s.conns[id]))
    || (s.pc.Spawning? && s.pc.held.id == id)
  }

  /** What one step may do to one connection. */
  predicate MovesFate(s: State, s': State, id: nat) {
    && s.now <= s'.now
    && |s.conns| <= |s'.conns|
    && (id < |s.conns| ==> MayBecome(s.conns[id], s'.conns[id]))
    && (s.closed ==> s'.closed && (Committed(s', id) <==> Committed(s, id)))
  }

  lemma ActQueuedMovesFate(cfg: Config, s: State, c: Choice, id: nat)
    requires Inv(s) && s.pc.Acting? && s.pc.target.Queued?
    ensures MovesFate(s, LoopStep(cfg, s, c), id)
  {
    hide Count, Counters, Times, Punctual;
    assert Tracks(s.conns, s.pending[s.pc.target.index], Waiting);
  }

  lemma ActFreshMovesFate(cfg: Config, s: State, c: Choice, id: nat)
    requires Inv(s) && s.pc.Acting? && s.pc.target.Fresh?
    ensures MovesFate(s, LoopStep(cfg, s, c), id)
  {
    hide Count, Counters, Times, Punctual, Control;
    var a := s.pc.target.admission;
    assert Tracks(s.conns, a, Held);
    if !s.pc.expired && s.pc.outcome == Incomplete {
      EnqueueMovesFate(s, a, id);
    } else {
      hide Queue, Evict, Enqueue;
    }
  }

  lemma EnqueueMovesFate(s: State, a: Admission, id: nat)
    requires Queue(s) && s.pc.Acting? && s.pc.target.Fresh? && Tracks(s.conns, a, Held)
    ensures MovesFate(s, Enqueue(Evict(s), a), id)
  {
    if |s.pending| == MAX_PENDING_ADMISSIONS {
      assert Tracks(s.conns, s.pending[0], Waiting);
    }
    hide Queue;
  }

  lemma HeldMovesFate(cfg: Config, s: State, c: Choice, id: nat)
    requires Inv(s) && (s.pc.Polled? || s.pc.Reserving? || s.pc.Spawning? || s.pc.Validating?)
    ensures MovesFate(s, LoopStep(cfg, s, c), id)
  {
    hide Count, Counters, Times, Punctual;
  }

  lemma LoopMovesFate(cfg: Config, s: State, c: Choice, id: nat)
    requires Inv(s)
    ensures MovesFate(s, LoopStep(cfg, s, c), id)
  {
    hide Count, Counters, Times, Punctual, Queue, Control;
    match s.pc
    case Acting(Queued(_), _, _, _) => ActQueuedMovesFate(cfg, s, c, id);
    case Acting(Fresh(_), _, _, _) => ActFreshMovesFate(cfg, s, c, id);
    case Polled(_, _, _, _) => HeldMovesFate(cfg, s, c, id);
    case Reserving(_, _, _) => HeldMovesFate(cfg, s, c, id);
    case Spawning(_, _, _) => HeldMovesFate(cfg, s, c, id);
    case Validating(_) => HeldMovesFate(cfg, s, c, id);
    case Drain => FirstSentIsSent(s.conns, 0);
    case _ =>
  }

  lemma StepMovesFate(cfg: Config, s: State, e: Event, id: nat)
    requires Inv(s)
    ensures MovesFate(s, Step(cfg, s, e), id)
  {
    hide Inv, LoopStep;
    if e.Loop? {
      LoopMovesFate(cfg, s, e.choice, id);
    }
  }

  /** Fates are exclusive and final over whole runs. */
  lemma {:induction false} FatesAreFinal(cfg: Config, events: seq<Event>, k: nat)
    requires k <= |events|
    ensures var s, s' := Run(cfg, events[..k]), Run(cfg, events);
      && |s.conns| <= |s'.conns|
      && s.now <= s'.now
      && forall i :: 0 <= i < |s.conns| ==> MayBecome(s.conns[i], s'.conns[i])
    decreases |events|
  {
    hide Inv, Step;
    if k == |events| {
      assert events[..k] == events;
    } else {
      var before := events[..|events| - 1];
      FatesAreFinal(cfg, before, k);
      assert before[..k] == events[..k];
      var s, m, e := Run(cfg, events[..k]), Run(cfg, before), events[|events| - 1];
      RunKeepsInv(cfg, before);
      StepMovesFate(cfg, m, e, |m.conns|);
      forall i | 0 <= i < |s.conns|
        ensures MayBecome(s.conns[i], Run(cfg, events).conns[i])
      {
        StepMovesFate(cfg, m, e, i);
      }
    }
  }

  // ----- shutdown is linearized against admission --------------------------------------------

  /** Once `request()` has returned, no run ever reserves another execution. */
  lemma {:induction false} NothingReservedAfterClosure(cfg: Config, events: seq<Event>, k: nat, id: nat)
    requires k <= |events| && Run(cfg, events[..k]).closed
    ensures Run(cfg, events).closed
    ensures Committed(Run(cfg, events), id) <==> Committed(Run(cfg, events[..k]), id)
    decreases |events|
  {
    hide Inv, Step;
    if k == |events| {
      assert events[..k] == events;
    } else {
      var before := events[..|events| - 1];
      assert before[..k] == events[..k];
      NothingReservedAfterClosure(cfg, before, k, id);
      RunKeepsInv(cfg, before);
      StepMovesFate(cfg, Run(cfg, before), events[|events| - 1], id);
    }
  }

  /** The loop has noticed the closed token: only draining and leaving remain. */
  predicate Observed(s: State) { s.closed && Winding(s.pc) }

  lemma ObservedStep(cfg: Config, s: State, e: Event)
    requires Inv(s) && Observed(s)
    ensures var s' := Step(cfg, s, e);
      Observed(s') && s'.active <= s.active && s'.stats.accepted == s.stats.accepted
  {
    hide Count, Counters, Queue, Times, Punctual;
  }

  lemma {:induction false} ActiveNeverRisesAfterObservation(cfg: Config, events: seq<Event>, k: nat)
    requires k <= |events| && Observed(Run(cfg, events[..k]))
    ensures Observed(Run(cfg, events))
    ensures Run(cfg, events).active <= Run(cfg, events[..k]).active
    ensures Run(cfg, events).stats.accepted == Run(cfg, events[..k]).stats.accepted
    decreases |events|
  {
    hide Inv, Step;
    if k == |events| {
      assert events[..k] == events;
    } else {
      var before := events[..|events| - 1];
      assert before[..k] == events[..k];
      ActiveNeverRisesAfterObservation(cfg, before, k);
      RunKeepsInv(cfg, before);
      ObservedStep(cfg, Run(cfg, before), events[|events| - 1]);
    }
  }

  // ----- shutdown finishes -------------------------------------------------------------------------

  function LoopEvents(events: seq<Event>): nat {
    if events == [] then 0 else LoopEvents(events[..|events| - 1]) + if events[|events| - 1].Loop? then 1 else 0
  }

  /** The most steps the loop thread can take before it is back at the head of a closed loop. */
  function StepsToNotice(s: State): nat {
    match s.pc
    case Spawning(_, _, _) => 7
    case Counting(_) => 6
    case Acting(Queued(_), _, _, _) => 6
    case Listening => 6
    case Scan(_) => 5
    case Validating(_) => 5
    case Polling(_) => 4
    case Reading(_) => 3
    case Rechecking(_, _, _) => 2
    case Acting(Fresh(_), _, _, _) => 2
    case Polled(_, _, _, _) => 1
    case Reserving(_, _, _) => 1
    case Recheck => 1
    case Idle => 1
    case _ => 0
  }

  lemma ActingNotices(cfg: Config, s: State, c: Choice)
    requires Control(s) && s.closed && s.pc.Acting?
    ensures LoopStep(cfg, s, c).closed && StepsToNotice(LoopStep(cfg, s, c)) < StepsToNotice(s)
  {
    hide WithFate, Remove;
  }

  lemma PollingNotices(cfg: Config, s: State, c: Choice)
    requires s.closed && (s.pc.Polling? || s.pc.Reading? || s.pc.Rechecking? || s.pc.Polled? || s.pc.Scan?)
    ensures LoopStep(cfg, s, c).closed && StepsToNotice(LoopStep(cfg, s, c)) < StepsToNotice(s)
  {
    hide WithFate, ExpiresAt;
  }

  lemma OthersNotice(cfg: Config, s: State, c: Choice)
    requires s.closed && !s.pc.Acting? && !s.pc.Polling? && !s.pc.Reading? && !s.pc.Rechecking? && !s.pc.Polled?
    requires !s.pc.Scan?
    ensures var s' := LoopStep(cfg, s, c);
      s'.closed && (StepsToNotice(s') < StepsToNotice(s) || StepsToNotice(s') == 0)
  {
    hide WithFate, FirstSent, RefuseWaiting;
  }

  lemma NoticeStep(cfg: Config, s: State, e: Event)
    requires Inv(s) && s.closed
    ensures var s' := Step(cfg, s, e);
      && s'.closed
      && StepsToNotice(s') <= if e.Loop? && StepsToNotice(s) > 0 then StepsToNotice(s) - 1 else StepsToNotice(s)
  {
    hide LoopStep, Counters, Queue, Times, Punctual, Control, WithFate;
    if e.Loop? {
      if s.pc.Acting? {
        ActingNotices(cfg, s, e.choice);
      } else if s.pc.Polling? || s.pc.Reading? || s.pc.Rechecking? || s.pc.Polled? || s.pc.Scan? {
        PollingNotices(cfg, s, e.choice);
      } else {
        OthersNotice(cfg, s, e.choice);
      }
    }
  }

  /** Once the token is closed, seven steps of the loop thread suffice for it to notice, whatever
      happens between them, unless an I/O error ends the loop. */
  lemma {:induction false} ClosureIsNoticed(cfg: Config, before: seq<Event>, after: seq<Event>)
    requires Run(cfg, before).closed
    ensures var s := Run(cfg, before + after);
      && s.closed
      && (StepsToNotice(s) == 0 || StepsToNotice(s) + LoopEvents(after) <= StepsToNotice(Run(cfg, before)))
    ensures LoopEvents(after) >= 7 ==> Observed(Run(cfg, before + after)) || Run(cfg, before + after).pc.Aborted?
    decreases |after|
  {
    hide Inv, Step;
    if after == [] {
      assert before + after == before;
    } else {
      var init, e := after[..|after| - 1], after[|after| - 1];
      ClosureIsNoticed(cfg, before, init);
      assert (before + after)[..|before + after| - 1] == before + init;
      RunKeepsInv(cfg, before + init);
      NoticeStep(cfg, Run(cfg, before + init), e);
    }
  }

  /** The loop has noticed the closed token and its drain period is over. */
  predicate Overdue(s: State) {
    Observed(s) && s.shutdownAt.Some? && s.now >= s.shutdownAt.value + 30_000
  }

  /** The most steps to the exit once the drain period is over: each completion still to be
      collected takes one. */
  function StepsToExit(s: State): nat {
    match s.pc
    case Head => 5 + s.active
    case Drain => 4 + s.active
    case Check => 3
    case Closing => 2
    case Deciding => 1
    case _ => 0
  }

  lemma CompletionHasSlot(s: State)
    requires Inv(s) && s.pc.Drain? && s.done > 0
    ensures s.active > 0
  {
    hide Count, Queue, Times, Punctual;
  }

  lemma OverdueStep(cfg: Config, s: State, e: Event)
    requires Inv(s) && Overdue(s)
    ensures var s' := Step(cfg, s, e);
      && Overdue(s')
      && StepsToExit(s') <= if e.Loop? && StepsToExit(s) > 0 then StepsToExit(s) - 1 else StepsToExit(s)
  {
    if s.pc.Drain? && s.done > 0 {
      CompletionHasSlot(s);
    }
    hide Count, Counters, Queue, Times, Punctual;
  }

  /** The drain period is bounded: when it is over, thirteen steps of the loop thread reach the
      exit, whatever is interleaved. */
  lemma {:induction false} DrainIsBounded(cfg: Config, before: seq<Event>, after: seq<Event>)
    requires Overdue(Run(cfg, before))
    ensures var s := Run(cfg, before + after);
      && Overdue(s)
      && (StepsToExit(s) == 0 || StepsToExit(s) + LoopEvents(after) <= StepsToExit(Run(cfg, before)))
    ensures LoopEvents(after) >= 13 ==> Run(cfg, before + after).pc.Exited?
    decreases |after|
  {
    hide Step;
    RunKeepsInv(cfg, before);
    if after == [] {
      assert before + after == before;
    } else {
      var init, e := after[..|after| - 1], after[|after| - 1];
      DrainIsBounded(cfg, before, init);
      assert (before + after)[..|before + after| - 1] == before + init;
      RunKeepsInv(cfg, before + init);
      OverdueStep(cfg, Run(cfg, before + init), e);
    }
  }

  /** The loop has noticed the closed token and every worker has finished. */
  predicate Finishing(s: State) { Observed(s) && s.active == s.done }

  lemma FinishingMeans(s: State)
    requires Inv(s) && Observed(s)
    ensures Finishing(s) <==> Count(s.conns, Live) == 0
  {
    hide Count, Queue, Times, Punctual;
  }

  /** The most steps to the exit once every worker has finished: at most one more turn. */
  function StepsToFinish(s: State): nat {
    var turn := if s.active == 0 then 0 else 5 + s.active;
    match s.pc
    case Head => 5 + s.active
    case Drain => 4 + s.active
    case Check => 3 + turn
    case Closing => 2 + turn
    case Deciding => 1 + turn
    case _ => 0
  }

  lemma FinishingStep(cfg: Config, s: State, e: Event)
    requires Inv(s) && Finishing(s)
    ensures var s' := Step(cfg, s, e);
      && Finishing(s')
      && StepsToFinish(s') <= if e.Loop? && StepsToFinish(s) > 0 then StepsToFinish(s) - 1 else StepsToFinish(s)
  {
    FinishingMeans(s);
    if e.WorkerDone? && e.id < |s.conns| && s.conns[e.id].fate == Live {
      LiveCounts(s.conns, e.id);
    }
    hide Count, Counters, Queue, Times, Punctual;
  }

  /** Without waiting for the drain period: once every worker has finished, sixteen steps of the
      loop thread reach the exit. */
  lemma {:induction false} FinishedWorkersEndTheDrain(cfg: Config, before: seq<Event>, after: seq<Event>)
    requires Observed(Run(cfg, before)) && Count(Run(cfg, before).conns, Live) == 0
    ensures var s := Run(cfg, before + after);
      && Finishing(s)
      && (StepsToFinish(s) == 0 || StepsToFinish(s) + LoopEvents(after) <= StepsToFinish(Run(cfg, before)))
    ensures LoopEvents(after) >= 16 ==> Run(cfg, before + after).pc.Exited?
    decreases |after|
  {
    hide Step, Count;
    RunKeepsInv(cfg, before);
    FinishingMeans(Run(cfg, before));
    if after == [] {
      assert before + after == before;
    } else {
      var init, e := after[..|after| - 1], after[|after| - 1];
      FinishedWorkersEndTheDrain(cfg, before, init);
      assert (before + after)[..|before + after| - 1] == before + init;
      RunKeepsInv(cfg, before + init);
      FinishingStep(cfg, Run(cfg, before + init), e);
    }
  }

  // ----- the idle clock -------------------------------------------------------------------------

  /** No execution, no pending admission, and no validated admission in hand. */
  predicate Quiet(s: State) {
    IdleNow(s) && !s.pc.Counting? && (HeldBy(s.pc).None? || s.pc.Validating?)
  }

  predicate Dirty(s: State) { !Quiet(s) || (s.progressed && !s.pc.Head?) }

  predicate AlwaysQuietSince(cfg: Config, events: seq<Event>, base: nat) {
    forall j :: 0 <= j <= |events| && Run(cfg, events[..j]).now > base ==> Quiet(Run(cfg, events[..j]))
  }

  /** The idle clock restarts exactly when a stretch of work ends. */
  predicate IdleClockMoves(s: State, s': State) {
    s'.closed || Dirty(s')
    || s'.idleSince == if Dirty(s) || (s.progressed && s.pc.Idle?) then s'.now else s.idleSince
  }

  lemma EngagedClock(cfg: Config, s: State, c: Choice)
    requires Inv(s) && (PolledTarget(s.pc).Some? || s.pc.Reserving? || s.pc.Spawning?)
    ensures IdleClockMoves(s, LoopStep(cfg, s, c))
  {
    hide Count, Counters, Queue, Times, Punctual, WithFate;
  }

  lemma RestingClock(cfg: Config, s: State, c: Choice)
    requires Inv(s) && !(PolledTarget(s.pc).Some? || s.pc.Reserving? || s.pc.Spawning?)
    ensures IdleClockMoves(s, LoopStep(cfg, s, c))
  {
    hide Count, Counters, Queue, Times, Punctual, WithFate;
  }

  lemma StepMovesIdleClock(cfg: Config, s: State, e: Event)
    requires Inv(s)
    ensures IdleClockMoves(s, Step(cfg, s, e))
  {
    hide Inv, LoopStep;
    if e.Loop? {
      if PolledTarget(s.pc).Some? || s.pc.Reserving? || s.pc.Spawning? {
        EngagedClock(cfg, s, e.choice);
      } else {
        RestingClock(cfg, s, e.choice);
      }
    }
  }

  lemma {:induction false} IdleClockIsSound(cfg: Config, events: seq<Event>)
    ensures var s := Run(cfg, events); s.closed || Dirty(s) || AlwaysQuietSince(cfg, events, s.idleSince)
  {
    hide Inv, Step;
    var s := Run(cfg, events);
    if events == [] {
      assert events[..0] == [];
    } else if !s.closed && !Dirty(s) {
      var before := events[..|events| - 1];
      var e := events[|events| - 1];
      IdleClockIsSound(cfg, before);
      RunKeepsInv(cfg, before);
      StepMovesIdleClock(cfg, Run(cfg, before), e);
      StepMovesFate(cfg, Run(cfg, before), e, 0);
      forall j | 0 <= j <= |events| && Run(cfg, events[..j]).now > s.idleSince
        ensures Quiet(Run(cfg, events[..j]))
      {
        if j == |events| {
          assert events[..j] == events;
        } else {
          assert events[..j] == before[..j];
          FatesAreFinal(cfg, before, j);
          FatesAreFinal(cfg, events, |before|);
        }
      }
    }
  }

  /** The idle timeout closes the token only at the end of a continuous quiet stretch that is
      at least as long as the timeout. */
  lemma IdleShutdownNeedsQuietStretch(cfg: Config, events: seq<Event>)
    requires var s := Run(cfg, events); s.pc.Idle? && !s.closed && IdleFires(cfg, s)
    ensures var s := Run(cfg, events);
      && s.now >= IdleBase(s) + cfg.idleTimeout.value
      && AlwaysQuietSince(cfg, events, IdleBase(s))
  {
    var s := Run(cfg, events);
    IdleClockIsSound(cfg, events);
    RunKeepsInv(cfg, events);
    if s.progressed {
      forall j | 0 <= j <= |events|
        ensures Run(cfg, events[..j]).now <= s.now
      {
        FatesAreFinal(cfg, events, j);
      }
    }
  }

  /** Nothing is left to reject or to drain. */
  predicate Vacant(s: State) {
    Observed(s) && s.active == 0 && s.pending == [] && !s.stats.stuck
  }

  lemma VacantStep(cfg: Config, s: State, e: Event)
    requires Inv(s) && Vacant(s)
    ensures Vacant(Step(cfg, s, e)) && Step(cfg, s, e).stats == s.stats
  {
    hide Count, Queue, Times, Punctual;
    if e.WorkerDone? && e.id < |s.conns| && s.conns[e.id].fate == Live {
      LiveCounts(s.conns, e.id);
    }
  }

  lemma {:induction false} LiveCounts(conns: seq<Conn>, i: nat)
    requires i < |conns|
    ensures Count(conns, conns[i].fate) > 0
  {
    var n := |conns| - 1;
    if i < n {
      LiveCounts(conns[..n], i);
    }
  }

  lemma {:induction false} VacantStays(cfg: Config, events: seq<Event>, k: nat)
    requires k <= |events| && Vacant(Run(cfg, events[..k]))
    ensures Vacant(Run(cfg, events)) && Run(cfg, events).stats == Run(cfg, events[..k]).stats
    decreases |events|
  {
    hide Inv, Step;
    if k == |events| {
      assert events[..k] == events;
    } else {
      var before := events[..|events| - 1];
      assert before[..k] == events[..k];
      VacantStays(cfg, before, k);
      RunKeepsInv(cfg, before);
      VacantStep(cfg, Run(cfg, before), events[|events| - 1]);
    }
  }

  /** An idle-triggered shutdown rejects nothing more, is never stuck, and accounts for
      every connection it ever accepted. */
  lemma IdleShutdownIsClean(cfg: Config, before: seq<Event>, c: Choice, after: seq<Event>)
    requires var s := Run(cfg, before); s.pc.Idle? && !s.closed && IdleFires(cfg, s)
    ensures var s, s' := Run(cfg, before), Run(cfg, before + [Loop(c)] + after);
      s'.stats == s.stats && !s'.stats.stuck && s.stats.accepted == s.stats.rejected + s.stats.completed
  {
    var fired := before + [Loop(c)];
    var all := fired + after;
    RunKeepsInv(cfg, before);
    Conservation(cfg, before);
    assert fired[..|before|] == before;
    assert all[..|fired|] == fired;
    VacantStays(cfg, all, |fired|);
  }

  // ----- the admission queue ------------------------------------------------------------------------

  /** At every point of every run the queue is in acceptance order with nondecreasing
      deadlines, so the entry evicted at the cap is the one that would expire first; and a
      request is executed only if its frame was complete before its own deadline. */
  lemma QueueOrderAndPunctuality(cfg: Config, events: seq<Event>)
    ensures var s := Run(cfg, events);
      && (forall i, j :: 0 <= i < j < |s.pending| ==>
            s.pending[i].id < s.pending[j].id && s.pending[i].expiresAt <= s.pending[j].expiresAt)
      && (forall i :: 0 <= i < |s.conns| && Started(s.conns[i]) ==>
            s.conns[i].readAt.Some? && s.conns[i].readAt.value < s.conns[i].acceptedAt + 2_000)
  {
    hide Count, Counters;
    RunKeepsInv(cfg, events);
    var s := Run(cfg, events);
    forall i, j | 0 <= i < j < |s.pending|
      ensures s.pending[i].id < s.pending[j].id && s.pending[i].expiresAt <= s.pending[j].expiresAt
    {
      assert Tracks(s.conns, s.pending[i], Waiting) && Tracks(s.conns, s.pending[j], Waiting);
    }
  }

  lemma EvictionStep(s: State, a: Admission, i: nat)
    requires Queue(s) && s.pc.Acting? && s.pc.target == Fresh(a) && i < |s.pending|
    requires Enqueue(Evict(s), a).conns[s.pending[i].id].fate == Refused
    ensures i == 0 && |s.pending| == MAX_PENDING_ADMISSIONS
  {
    assert Tracks(s.conns, s.pending[i], Waiting) && Tracks(s.conns, a, Held);
  }

  /** A fresh connection pushes a waiting one out only when the queue is full, and then the one
      that would expire first, which has waited longest. */
  lemma EvictedExpiresFirst(cfg: Config, events: seq<Event>, c: Choice, i: nat)
    requires var s := Run(cfg, events); s.pc.Acting? && s.pc.target.Fresh? && i < |s.pending|
    requires var s := Run(cfg, events);
      s.pending[i].id < |s.conns| && LoopStep(cfg, s, c).conns[s.pending[i].id].fate == Refused
    ensures var s := Run(cfg, events);
      && |s.pending| == 64
      && forall j :: 0 <= j < |s.pending| ==>
           s.pending[i].id <= s.pending[j].id && s.pending[i].expiresAt <= s.pending[j].expiresAt
  {
    var s := Run(cfg, events);
    RunKeepsInv(cfg, events);
    QueueOrderAndPunctuality(cfg, events);
    hide Count, Counters, Times, Punctual, Control, Run;
    var a := s.pc.target.admission;
    assert Tracks(s.conns, s.pending[i], Waiting) && Tracks(s.conns, a, Held);
    if !s.pc.expired && s.pc.outcome == Incomplete {
      EvictionStep(s, a, i);
    }
  }

  // ----- requests are served ---------------------------------------------------------------------------

  /** The admission a poll is about. */
  function TargetOf(s: State, target: Target): Option<Admission> {
    match target
    case Queued(i) => if i < |s.pending| then Some(s.pending[i]) else None
    case Fresh(a) => Some(a)
  }

  /** The connection of the target is refused by the next step exactly when its deadline has passed,
      its request is broken, or it is complete while eight workers are active. */
  lemma ActingRefusesExactlyWhen(cfg: Config, s: State, c: Choice)
    requires Inv(s) && s.pc.Acting? && !s.closed
    ensures TargetOf(s, s.pc.target).Some?
    ensures var id := TargetOf(s, s.pc.target).value.id;
      && id < |LoopStep(cfg, s, c).conns|
      && (LoopStep(cfg, s, c).conns[id].fate == Refused <==>
          s.pc.expired || s.pc.outcome == Broken || (s.pc.outcome == Complete && s.active >= 8))
  {
    hide Count, Counters, Times, Punctual;
    match s.pc.target {
      case Queued(i) => assert Tracks(s.conns, s.pending[i], Waiting);
      case Fresh(a) => FreshIsNotQueued(s, a);
    }
  }

  lemma FreshIsNotQueued(s: State, a: Admission)
    requires Queue(s) && s.pc.Acting? && s.pc.target == Fresh(a)
    ensures Tracks(s.conns, a, Held) && forall i :: 0 <= i < |s.pending| ==> s.pending[i].id != a.id
  {
    forall i | 0 <= i < |s.pending| ensures s.pending[i].id != a.id {
      assert Tracks(s.conns, s.pending[i], Waiting);
    }
  }

  /** How far the loop has got with serving connection `id`: the more, the closer. */
  predicate Serving(s: State, id: nat, expiresAt: nat, stage: nat) {
    match stage
    case 0 => s.pc.Polling? && Targets(s, id, expiresAt) && Room(s)
    case 1 => s.pc.Reading? && Targets(s, id, expiresAt) && Room(s)
    case 2 => s.pc.Rechecking? && s.pc.outcome == Complete && Targets(s, id, expiresAt) && Room(s)
    case 3 => s.pc.Polled? && s.pc.outcome == Complete && !s.pc.expired && Targets(s, id, expiresAt) && Room(s)
    case 4 => s.pc.Acting? && s.pc.outcome == Complete && !s.pc.expired && Targets(s, id, expiresAt) && Room(s)
    case 5 => s.pc.Reserving? && s.pc.held.id == id && !s.closed
    case 6 => s.pc.Spawning? && s.pc.held.id == id
    case _ => id < |s.conns| && Started(s.conns[id])
  }

  /** The poll in hand is about this connection. */
  predicate Targets(s: State, id: nat, expiresAt: nat) {
    && PolledTarget(s.pc).Some?
    && TargetOf(s, PolledTarget(s.pc).value) == Some(Admission(id, expiresAt))
  }

  predicate Room(s: State) { !s.closed && s.active < 8 }

  /** Events that neither close the token nor withhold a complete request. */
  predicate Favourable(e: Event) { !e.Request? && (e.Loop? ==> e.choice.outcome == Complete) }

  function Later(e: Event, stage: nat): nat { if e.Loop? then stage + 1 else stage }

  lemma PollServes(cfg: Config, s: State, e: Event, id: nat, expiresAt: nat, stage: nat)
    requires Inv(s) && stage < 4 && Serving(s, id, expiresAt, stage) && Favourable(e) && s.now < expiresAt
    ensures Serving(Step(cfg, s, e), id, expiresAt, Later(e, stage))
  {
    hide Count, Counters, Queue, Times, Punctual, Control;
  }

  lemma ActServes(cfg: Config, s: State, e: Event, id: nat, expiresAt: nat, stage: nat)
    requires Inv(s) && 4 <= stage < 7 && Serving(s, id, expiresAt, stage) && Favourable(e)
    ensures Serving(Step(cfg, s, e), id, expiresAt, Later(e, stage))
  {
    hide Count, Counters, Times, Punctual;
    if stage == 4 && s.pc.target.Queued? {
      assert Tracks(s.conns, s.pending[s.pc.target.index], Waiting);
    }
  }

  lemma StartedServes(cfg: Config, s: State, e: Event, id: nat, expiresAt: nat, stage: nat)
    requires Inv(s) && stage >= 7 && Serving(s, id, expiresAt, stage)
    ensures Serving(Step(cfg, s, e), id, expiresAt, Later(e, stage))
  {
    StepMovesFate(cfg, s, e, id);
    hide Inv, Step;
  }

  lemma {:induction false} ServingRun(cfg: Config, before: seq<Event>, after: seq<Event>, id: nat, expiresAt: nat,
      stage: nat)
    requires Serving(Run(cfg, before), id, expiresAt, stage)
    requires forall e :: e in after ==> Favourable(e)
    requires stage < 4 ==> Run(cfg, before + after).now < expiresAt
    ensures Serving(Run(cfg, before + after), id, expiresAt, stage + LoopEvents(after))
    decreases |after|
  {
    hide Serving, Favourable, Step, Inv;
    if after == [] {
      assert before + after == before;
    } else {
      var init, e := after[..|after| - 1], after[|after| - 1];
      assert (before + after)[..|before + after| - 1] == before + init;
      var s := Run(cfg, before + init);
      RunKeepsInv(cfg, before + init);
      StepMovesFate(cfg, s, e, 0);
      ServingRun(cfg, before, init, id, expiresAt, stage);
      var now := stage + LoopEvents(init);
      if now < 4 {
        PollServes(cfg, s, e, id, expiresAt, now);
      } else if now < 7 {
        ActServes(cfg, s, e, id, expiresAt, now);
      } else {
        StartedServes(cfg, s, e, id, expiresAt, now);
      }
    }
  }

  /** A complete request in time is executed: with the token open and a worker free, three steps of the
      loop thread start it, whatever else happens, unless the token is closed. */
  lemma CompleteRequestRuns(cfg: Config, before: seq<Event>, after: seq<Event>)
    requires var s := Run(cfg, before); s.pc.Acting? && s.pc.outcome == Complete && !s.pc.expired && Room(s)
    requires LoopEvents(after) >= 3 && forall e :: e in after ==> !e.Request?
    ensures var s, s' := Run(cfg, before), Run(cfg, before + after);
      && TargetOf(s, s.pc.target).Some?
      && TargetOf(s, s.pc.target).value.id < |s'.conns| && Started(s'.conns[TargetOf(s, s.pc.target).value.id])
  {
    hide Inv, Run, Serving, TargetOf, Room, LoopEvents;
    RunKeepsInv(cfg, before);
    var s := Run(cfg, before);
    ActsOnTarget(s);
    var a := TargetOf(s, s.pc.target).value;
    ActingRun(cfg, before, after, a.id, a.expiresAt, 4);
    ServedIsStarted(Run(cfg, before + after), a.id, a.expiresAt, 4 + LoopEvents(after));
  }

  lemma ActsOnTarget(s: State)
    requires Inv(s) && s.pc.Acting? && s.pc.outcome == Complete && !s.pc.expired && Room(s)
    ensures TargetOf(s, s.pc.target).Some?
    ensures var a := TargetOf(s, s.pc.target).value; Serving(s, a.id, a.expiresAt, 4)
  {
    hide Count, Counters, Times, Punctual;
  }

  lemma PollsTarget(s: State)
    requires Inv(s) && s.pc.Polling? && Room(s)
    ensures TargetOf(s, s.pc.target).Some?
    ensures var a := TargetOf(s, s.pc.target).value;
      Serving(s, a.id, a.expiresAt, 0) && a.expiresAt == ExpiresAt(s.pending, s.pc.target)
  {
    hide Count, Counters, Times, Punctual;
  }

  lemma ServedIsStarted(s: State, id: nat, expiresAt: nat, stage: nat)
    requires stage >= 7 && Serving(s, id, expiresAt, stage)
    ensures id < |s.conns| && Started(s.conns[id])
  {
  }

  /** The read outcome no longer matters once the loop acts on it. */
  lemma {:induction false} ActingRun(cfg: Config, before: seq<Event>, after: seq<Event>, id: nat, expiresAt: nat,
      stage: nat)
    requires stage >= 4 && Serving(Run(cfg, before), id, expiresAt, stage)
    requires forall e :: e in after ==> !e.Request?
    ensures Serving(Run(cfg, before + after), id, expiresAt, stage + LoopEvents(after))
    decreases |after|
  {
    hide Serving, Step, Inv;
    if after == [] {
      assert before + after == before;
    } else {
      var init, e := after[..|after| - 1], after[|after| - 1];
      assert (before + after)[..|before + after| - 1] == before + init;
      RunKeepsInv(cfg, before + init);
      ActingRun(cfg, before, init, id, expiresAt, stage);
      ActingStep(cfg, Run(cfg, before + init), e, id, expiresAt, stage + LoopEvents(init));
    }
  }

  lemma ActingStep(cfg: Config, s: State, e: Event, id: nat, expiresAt: nat, stage: nat)
    requires Inv(s) && stage >= 4 && Serving(s, id, expiresAt, stage) && !e.Request?
    ensures Serving(Step(cfg, s, e), id, expiresAt, Later(e, stage))
  {
    if stage >= 7 {
      StartedServes(cfg, s, e, id, expiresAt, stage);
    } else if e.Loop? {
      var e' := Loop(e.choice.(outcome := Complete));
      OutcomeIsIgnored(cfg, s, e.choice, stage);
      ActServes(cfg, s, e', id, expiresAt, stage);
    } else {
      ActServes(cfg, s, e, id, expiresAt, stage);
    }
  }

  lemma OutcomeIsIgnored(cfg: Config, s: State, c: Choice, stage: nat)
    requires 4 <= stage < 7 && (s.pc.Acting? || s.pc.Reserving? || s.pc.Spawning?)
    ensures LoopStep(cfg, s, c) == LoopStep(cfg, s, c.(outcome := Complete))
  {
  }

  /** A request that is complete when it is polled and stays within its deadline is executed after
      seven steps of the loop thread, if the token stays open and a worker is free. */
  lemma PromptRequestRuns(cfg: Config, before: seq<Event>, after: seq<Event>)
    requires var s := Run(cfg, before); s.pc.Polling? && Room(s)
    requires LoopEvents(after) >= 7 && forall e :: e in after ==> Favourable(e)
    requires var s := Run(cfg, before); Run(cfg, before + after).now < ExpiresAt(s.pending, s.pc.target)
    ensures var s, s' := Run(cfg, before), Run(cfg, before + after);
      && TargetOf(s, s.pc.target).Some?
      && TargetOf(s, s.pc.target).value.id < |s'.conns| && Started(s'.conns[TargetOf(s, s.pc.target).value.id])
  {
    hide Inv, Run, Serving, TargetOf, Room, LoopEvents, Favourable, ExpiresAt;
    RunKeepsInv(cfg, before);
    var s := Run(cfg, before);
    PollsTarget(s);
    var a := TargetOf(s, s.pc.target).value;
    ServingRun(cfg, before, after, a.id, a.expiresAt, 0);
    ServedIsStarted(Run(cfg, before + after), a.id, a.expiresAt, LoopEvents(after));
  }

  /** A poll that must end in refusal: too late before or after the read, or broken. */
  predicate Refusing(s: State, id: nat, expiresAt: nat, stage: nat) {
    match stage
    case 0 =>
      && Targets(s, id, expiresAt) && !s.closed
      && ((s.pc.Polling? && s.now >= expiresAt)
          || (s.pc.Rechecking? && (s.pc.outcome == Broken || s.now >= expiresAt)))
    case 1 => s.pc.Polled? && Targets(s, id, expiresAt) && !s.closed && (s.pc.expired || s.pc.outcome == Broken)
    case 2 => s.pc.Acting? && Targets(s, id, expiresAt) && !s.closed && (s.pc.expired || s.pc.outcome == Broken)
    case _ => id < |s.conns| && s.conns[id].fate == Refused
  }

  lemma RefusingStep(cfg: Config, s: State, e: Event, id: nat, expiresAt: nat, stage: nat)
    requires Inv(s) && Refusing(s, id, expiresAt, stage) && !e.Request?
    ensures Refusing(Step(cfg, s, e), id, expiresAt, Later(e, stage))
  {
    if stage >= 3 {
      StepMovesFate(cfg, s, e, id);
      hide Inv, Step;
    } else if stage == 2 && e.Loop? {
      ActingRefusesExactlyWhen(cfg, s, e.choice);
      hide Inv, LoopStep;
    } else {
      hide Count, Counters, Queue, Times, Punctual, Control;
    }
  }

  lemma {:induction false} RefusingRun(cfg: Config, before: seq<Event>, after: seq<Event>, id: nat, expiresAt: nat)
    requires Refusing(Run(cfg, before), id, expiresAt, 0)
    requires forall e :: e in after ==> !e.Request?
    ensures Refusing(Run(cfg, before + after), id, expiresAt, LoopEvents(after))
    decreases |after|
  {
    hide Refusing, Step, Inv;
    if after == [] {
      assert before + after == before;
    } else {
      var init, e := after[..|after| - 1], after[|after| - 1];
      assert (before + after)[..|before + after| - 1] == before + init;
      RunKeepsInv(cfg, before + init);
      RefusingRun(cfg, before, init, id, expiresAt);
      RefusingStep(cfg, Run(cfg, before + init), e, id, expiresAt, LoopEvents(init));
    }
  }

  /** A request whose deadline has passed before it is read or by the check after the read, or that
      is broken, is refused after three steps of the loop thread, if the token stays open. */
  lemma LateOrBrokenRequestIsRefused(cfg: Config, before: seq<Event>, after: seq<Event>)
    requires var s := Run(cfg, before);
      && !s.closed
      && ((s.pc.Polling? && s.now >= ExpiresAt(s.pending, s.pc.target))
          || (s.pc.Rechecking? && (s.pc.outcome == Broken || s.now >= ExpiresAt(s.pending, s.pc.target))))
    requires LoopEvents(after) >= 3 && forall e :: e in after ==> !e.Request?
    ensures var s, s' := Run(cfg, before), Run(cfg, before + after);
      && TargetOf(s, s.pc.target).Some?
      && TargetOf(s, s.pc.target).value.id < |s'.conns|
      && s'.conns[TargetOf(s, s.pc.target).value.id].fate == Refused
  {
    RunKeepsInv(cfg, before);
    var s := Run(cfg, before);
    var a := TargetOf(s, s.pc.target).value;
    assert Refusing(s, a.id, a.expiresAt, 0);
    hide Inv, Run;
    RefusingRun(cfg, before, after, a.id, a.expiresAt);
  }

  /** Accepting the connection that will be number `id`, not before `from`, and serving it. */
  ghost predicate Admitting(s: State, id: nat, from: nat, stage: nat) {
    match stage
    case 0 => s.pc.Listening? && |s.conns| == id && Room(s) && s.now >= from
    case 1 => s.pc.Validating? && s.pc.held.id == id && s.pc.held.expiresAt >= from + 2_000 && Room(s)
    case _ =>
      var done: nat := stage - 2;
      exists expiresAt: nat :: expiresAt >= from + 2_000 && Serving(s, id, expiresAt, done)
  }

  /** A peer that is valid and has sent a whole request. */
  predicate Prompt(e: Event) {
    !e.Request? && (e.Loop? ==> e.choice == Choice(Complete, Connection, true, false))
  }

  lemma AdmittingFrom(s: State, id: nat, from: nat, expiresAt: nat, done: nat)
    requires expiresAt >= from + 2_000 && Serving(s, id, expiresAt, done)
    ensures Admitting(s, id, from, done + 2)
  {
    hide Serving;
  }

  lemma AcceptingStep(cfg: Config, s: State, e: Event, id: nat, from: nat, stage: nat)
    requires stage < 2 && Admitting(s, id, from, stage) && Prompt(e)
    ensures Admitting(Step(cfg, s, e), id, from, Later(e, stage))
  {
    if stage == 1 && e.Loop? {
      assert Serving(Step(cfg, s, e), id, s.pc.held.expiresAt, 0);
      AdmittingFrom(Step(cfg, s, e), id, from, s.pc.held.expiresAt, 0);
    }
  }

  lemma AdmittingStep(cfg: Config, s: State, e: Event, id: nat, from: nat, stage: nat)
    requires Inv(s) && Admitting(s, id, from, stage) && Prompt(e) && s.now < from + 2_000
    ensures Admitting(Step(cfg, s, e), id, from, Later(e, stage))
  {
    hide Inv, Step, Serving;
    if stage < 2 {
      AcceptingStep(cfg, s, e, id, from, stage);
    } else {
      var done: nat := stage - 2;
      var expiresAt: nat :| expiresAt >= from + 2_000 && Serving(s, id, expiresAt, done);
      if done < 4 {
        PollServes(cfg, s, e, id, expiresAt, done);
      } else if done < 7 {
        ActServes(cfg, s, e, id, expiresAt, done);
      } else {
        StartedServes(cfg, s, e, id, expiresAt, done);
      }
      AdmittingFrom(Step(cfg, s, e), id, from, expiresAt, Later(e, done));
    }
  }

  lemma {:induction false} AdmittingRun(cfg: Config, before: seq<Event>, after: seq<Event>, id: nat, from: nat)
    requires Admitting(Run(cfg, before), id, from, 0)
    requires (forall e :: e in after ==> Prompt(e)) && Run(cfg, before + after).now < from + 2_000
    ensures Admitting(Run(cfg, before + after), id, from, LoopEvents(after))
    decreases |after|
  {
    hide Admitting, Prompt, Step, Inv;
    if after == [] {
      assert before + after == before;
    } else {
      var init, e := after[..|after| - 1], after[|after| - 1];
      assert (before + after)[..|before + after| - 1] == before + init;
      RunKeepsInv(cfg, before + init);
      StepMovesFate(cfg, Run(cfg, before + init), e, 0);
      AdmittingRun(cfg, before, init, id, from);
      AdmittingStep(cfg, Run(cfg, before + init), e, id, from, LoopEvents(init));
    }
  }

  /** From listening to a running worker in nine steps: the next connection of a valid peer whose
      request is there within two seconds is executed, if the token stays open and a worker is free. */
  lemma PromptConnectionRuns(cfg: Config, before: seq<Event>, after: seq<Event>)
    requires Run(cfg, before).pc.Listening? && Room(Run(cfg, before))
    requires LoopEvents(after) >= 9 && forall e :: e in after ==> Prompt(e)
    requires Run(cfg, before + after).now < Run(cfg, before).now + 2_000
    ensures var id, s' := |Run(cfg, before).conns|, Run(cfg, before + after);
      id < |s'.conns| && Started(s'.conns[id])
  {
    AdmittingRun(cfg, before, after, |Run(cfg, before).conns|, Run(cfg, before).now);
  }

  // ----- every pending admission is polled in every turn ------------------------------------------------

  /** The queue from which the scan has still to poll. */
  function Unpolled(s: State): seq<Admission> {
    var from :=
      match s.pc
      case Scan(i) => i
      case Reserving(_, _, ToScan(i)) => i
      case Spawning(_, _, ToScan(i)) => i
      case Counting(ToScan(i)) => i
      case _ =>
        var t := PolledTarget(s.pc);
        if t.Some? && t.value.Queued? then t.value.index + 1 else 0;
    if from <= |s.pending| then s.pending[from..] else []
  }

  predicate Scanning(pc: Pc) {
    || pc.Scan?
    || (PolledTarget(pc).Some? && PolledTarget(pc).value.Queued?)
    || (pc.Reserving? && pc.resume.ToScan?)
    || (pc.Spawning? && pc.resume.ToScan?)
    || (pc.Counting? && pc.resume.ToScan?)
  }

  predicate PollsNow(s: State, a: Admission) {
    s.pc.Polling? && TargetOf(s, s.pc.target) == Some(a)
  }

  /** The scan is under way with `a` still ahead, or the closed token has ended it. */
  predicate Awaits(s: State, a: Admission) {
    (Scanning(s.pc) && a in Unpolled(s)) || (s.closed && Winding(s.pc))
  }

  lemma AwaitsStep(cfg: Config, s: State, e: Event, a: Admission)
    requires Inv(s) && Awaits(s, a)
    ensures Awaits(Step(cfg, s, e), a) || PollsNow(Step(cfg, s, e), a)
  {
    if s.closed && Winding(s.pc) {
      ObservedStep(cfg, s, e);
      hide Inv, Step;
    } else if e.Loop? {
      hide LoopStep, Inv;
      if s.pc.Scan? {
        ScanAwaits(cfg, s, e.choice, a);
      } else if s.pc.Acting? {
        ActAwaits(cfg, s, e.choice, a);
      } else if PolledTarget(s.pc).Some? {
        PollAwaits(cfg, s, e.choice, a);
      } else {
        ExecuteAwaits(cfg, s, e.choice, a);
      }
    } else {
      OutsideAwaits(cfg, s, e, a);
    }
  }

  lemma OutsideAwaits(cfg: Config, s: State, e: Event, a: Admission)
    requires Scanning(s.pc) && a in Unpolled(s) && !e.Loop?
    ensures Scanning(Step(cfg, s, e).pc) && a in Unpolled(Step(cfg, s, e))
  {
    hide WithFate;
  }

  lemma ScanAwaits(cfg: Config, s: State, c: Choice, a: Admission)
    requires s.pc.Scan? && a in Unpolled(s)
    ensures Awaits(LoopStep(cfg, s, c), a) || PollsNow(LoopStep(cfg, s, c), a)
  {
    var i := s.pc.index;
    ScanMoves(cfg, s, c);
    var s' := LoopStep(cfg, s, c);
    hide LoopStep, Winding;
    PollsNext(s, s');
    hide Unpolled, TargetOf, Scanning;
    if a == s.pending[i] {
      assert PollsNow(s', a);
    } else {
      assert a in s.pending[i + 1..];
    }
  }

  lemma PollsNext(s: State, s': State)
    requires s.pc.Scan? && Unpolled(s) != [] && s.pc.index < |s.pending|
    requires s' == s.(pc := Polling(Queued(s.pc.index)))
    ensures var i := s.pc.index;
      && Unpolled(s) == [s.pending[i]] + s.pending[i + 1..]
      && Scanning(s'.pc) && Unpolled(s') == s.pending[i + 1..] && TargetOf(s', s'.pc.target) == Some(s.pending[i])
  {
  }

  lemma ScanMoves(cfg: Config, s: State, c: Choice)
    requires s.pc.Scan? && s.pc.index < |s.pending|
    ensures LoopStep(cfg, s, c) == s.(pc := Polling(Queued(s.pc.index)))
  {
  }

  lemma PollAwaits(cfg: Config, s: State, c: Choice, a: Admission)
    requires PolledTarget(s.pc).Some? && !s.pc.Acting? && Scanning(s.pc) && a in Unpolled(s)
    ensures Awaits(LoopStep(cfg, s, c), a)
  {
    hide ExpiresAt;
  }

  /** Acting on a queued admission moves past it, or takes it out of the queue. */
  lemma ActMoves(cfg: Config, s: State, c: Choice, i: nat)
    requires s.pc.Acting? && s.pc.target == Queued(i) && i < |s.pending|
    ensures var s' := LoopStep(cfg, s, c);
      || (s'.pc == Scan(i + 1) && s'.pending == s.pending)
      || (s'.pending == Remove(s.pending, i)
          && (s'.pc == Scan(i) || (s'.pc.Reserving? && s'.pc.resume == ToScan(i))))
  {
    hide WithFate, Remove;
  }

  lemma ActAwaits(cfg: Config, s: State, c: Choice, a: Admission)
    requires s.pc.Acting? && Scanning(s.pc) && a in Unpolled(s)
    ensures Awaits(LoopStep(cfg, s, c), a)
  {
    hide LoopStep, Winding;
    var i := s.pc.target.index;
    assert i < |s.pending| && Unpolled(s) == s.pending[i + 1..];
    ActMoves(cfg, s, c, i);
    assert Remove(s.pending, i)[i..] == s.pending[i + 1..];
    var s' := LoopStep(cfg, s, c);
    var k := if s'.pc == Scan(i + 1) then i + 1 else i;
    ScansFrom(s', k);
    hide Unpolled, Scanning, Remove;
  }

  lemma ScansFrom(s: State, i: nat)
    requires i <= |s.pending| && (s.pc == Scan(i) || (s.pc.Reserving? && s.pc.resume == ToScan(i)))
    ensures Scanning(s.pc) && Unpolled(s) == s.pending[i..]
  {
  }

  lemma ExecuteAwaits(cfg: Config, s: State, c: Choice, a: Admission)
    requires PolledTarget(s.pc).None? && !s.pc.Scan? && Scanning(s.pc) && a in Unpolled(s)
    ensures Awaits(LoopStep(cfg, s, c), a)
  {
    hide WithFate;
  }

  /** Every admission that waits when a scan begins is polled before the scan ends. */
  lemma {:induction false} ScanPollsEveryPending(cfg: Config, before: seq<Event>, after: seq<Event>, a: Admission)
    returns (j: nat)
    requires Run(cfg, before).pc == Scan(0) && a in Run(cfg, before).pending
    requires Run(cfg, before + after).pc.Recheck?
    ensures j <= |after| && PollsNow(Run(cfg, before + after[..j]), a)
  {
    assert before + [] == before && Run(cfg, before).pending[0..] == Run(cfg, before).pending;
    j := AwaitingRun(cfg, before, after, a);
  }

  lemma {:induction false} AwaitingRun(cfg: Config, before: seq<Event>, after: seq<Event>, a: Admission)
    returns (j: nat)
    requires Awaits(Run(cfg, before), a)
    ensures j <= |after| + 1
    ensures j <= |after| ==> PollsNow(Run(cfg, before + after[..j]), a)
    ensures j == |after| + 1 ==> Awaits(Run(cfg, before + after), a)
    decreases |after|
  {
    hide Awaits, PollsNow, Step, Inv;
    if after == [] {
      assert before + after == before;
      return 1;
    }
    var init, e := after[..|after| - 1], after[|after| - 1];
    assert (before + after)[..|before + after| - 1] == before + init;
    j := AwaitingRun(cfg, before, init, a);
    if j <= |init| {
      assert init[..j] == after[..j];
    } else {
      RunKeepsInv(cfg, before + init);
      AwaitsStep(cfg, Run(cfg, before + init), e, a);
      if Awaits(Run(cfg, before + after), a) {
        j := |after| + 1;
      } else {
        j := |after|;
        assert after[..j] == after;
      }
    }
  }

  // ----- every turn ends -------------------------------------------------------------------------------

  /** What the scan costs from index `i` on: nine steps for each admission, then the rest of the turn. */
  function ScanCost(s: State, i: nat): nat { 13 + 9 * (if i <= |s.pending| then |s.pending| - i else 0) }

  /** An upper bound on the steps left in the turn. */
  function StepsInTurn(s: State): nat {
    match s.pc
    case Head => ScanCost(s, 0) + 3 + s.active
    case Drain => ScanCost(s, 0) + 2 + s.active
    case Check => ScanCost(s, 0) + 1
    case Closing => 2
    case Deciding => 1
    case Scan(i) => ScanCost(s, i)
    case Polling(Queued(i)) => ScanCost(s, i + 1) + 8
    case Reading(Queued(i)) => ScanCost(s, i + 1) + 7
    case Rechecking(Queued(i), _, _) => ScanCost(s, i + 1) + 6
    case Polled(Queued(i), _, _, _) => ScanCost(s, i + 1) + 5
    case Acting(Queued(i), _, _, _) => ScanCost(s, i + 1) + 4
    case Reserving(_, _, ToScan(i)) => ScanCost(s, i) + 3
    case Spawning(_, _, ToScan(i)) => ScanCost(s, i) + 2
    case Counting(ToScan(i)) => ScanCost(s, i) + 1
    case Recheck => 12
    case Listening => 11
    case Validating(_) => 10
    case Polling(Fresh(_)) => 9
    case Reading(Fresh(_)) => 8
    case Rechecking(Fresh(_), _, _) => 7
    case Polled(Fresh(_), _, _, _) => 6
    case Acting(Fresh(_), _, _, _) => 5
    case Reserving(_, _, ToIdle) => 4
    case Spawning(_, _, ToIdle) => 3
    case Counting(ToIdle) => 2
    case Idle => 1
    case Exited => 0
    case Aborted => 0
  }

  predicate TurnOver(pc: Pc) { pc in {Head, Exited, Aborted} }

  lemma ScanTurns(cfg: Config, s: State, c: Choice)
    requires Control(s) && (s.pc.Scan? || s.pc.Acting?)
    ensures TurnOver(LoopStep(cfg, s, c).pc) || StepsInTurn(LoopStep(cfg, s, c)) < StepsInTurn(s)
  {
    hide WithFate;
    if s.pc.Acting? && s.pc.target.Queued? {
      assert s.pc.target.index < |s.pending|;
      ActMoves(cfg, s, c, s.pc.target.index);
      hide LoopStep;
    }
  }

  lemma PollTurns(cfg: Config, s: State, c: Choice)
    requires s.pc.Polling? || s.pc.Reading? || s.pc.Rechecking? || s.pc.Polled?
    ensures TurnOver(LoopStep(cfg, s, c).pc) || StepsInTurn(LoopStep(cfg, s, c)) < StepsInTurn(s)
  {
    hide WithFate, ExpiresAt;
  }

  lemma ExecuteTurns(cfg: Config, s: State, c: Choice)
    requires s.pc.Reserving? || s.pc.Spawning? || s.pc.Counting? || s.pc.Validating? || s.pc.Listening? || s.pc.Idle?
    ensures TurnOver(LoopStep(cfg, s, c).pc) || StepsInTurn(LoopStep(cfg, s, c)) < StepsInTurn(s)
  {
    hide WithFate;
  }

  lemma HeadTurns(cfg: Config, s: State, c: Choice)
    requires s.pc in {Head, Drain, Check, Closing, Deciding, Recheck} && (s.pc.Drain? && s.done > 0 ==> s.active > 0)
    ensures TurnOver(LoopStep(cfg, s, c).pc) || StepsInTurn(LoopStep(cfg, s, c)) < StepsInTurn(s)
  {
    hide WithFate, FirstSent, RefuseWaiting;
  }

  lemma TurnStep(cfg: Config, s: State, c: Choice)
    requires Inv(s) && s.pc != Exited && s.pc != Aborted
    ensures TurnOver(LoopStep(cfg, s, c).pc) || StepsInTurn(LoopStep(cfg, s, c)) < StepsInTurn(s)
  {
    assert Control(s);
    if s.pc.Drain? && s.done > 0 {
      CompletionHasSlot(s);
    }
    hide Inv, Control, LoopStep, StepsInTurn, TurnOver;
    if s.pc.Scan? || s.pc.Acting? {
      ScanTurns(cfg, s, c);
    } else if s.pc.Polling? || s.pc.Reading? || s.pc.Rechecking? || s.pc.Polled? {
      PollTurns(cfg, s, c);
    } else if s.pc in {Head, Drain, Check, Closing, Deciding, Recheck} {
      HeadTurns(cfg, s, c);
    } else {
      ExecuteTurns(cfg, s, c);
    }
  }

  lemma OutsideTurns(cfg: Config, s: State, e: Event)
    requires !e.Loop?
    ensures Step(cfg, s, e).pc == s.pc && StepsInTurn(Step(cfg, s, e)) == StepsInTurn(s)
  {
    hide WithFate;
  }

  lemma TurnIsShort(s: State)
    requires Inv(s)
    ensures StepsInTurn(s) <= 600
  {
    hide Count, Counters, Times, Punctual, Tracks;
  }

  /** From any point the loop thread is back at the head of its loop, or has left it, within six hundred
      of its steps, whatever is interleaved: eight completions, sixty-four polls and one connection. */
  lemma TurnIsBounded(cfg: Config, before: seq<Event>, after: seq<Event>) returns (j: nat)
    requires LoopEvents(after) >= 600
    ensures j <= |after| && LoopEvents(after[..j]) > 0 && TurnOver(Run(cfg, before + after[..j]).pc)
  {
    RunKeepsInv(cfg, before);
    TurnIsShort(Run(cfg, before));
    hide Inv, Run, StepsInTurn;
    j := TurningRun(cfg, before, after);
  }

  lemma {:induction false} TurningRun(cfg: Config, before: seq<Event>, after: seq<Event>) returns (j: nat)
    ensures j <= |after| + 1
    ensures j <= |after| ==> LoopEvents(after[..j]) > 0 && TurnOver(Run(cfg, before + after[..j]).pc)
    ensures j == |after| + 1 ==>
      StepsInTurn(Run(cfg, before + after)) + LoopEvents(after) <= StepsInTurn(Run(cfg, before))
      && (LoopEvents(after) > 0 ==> StepsInTurn(Run(cfg, before + after)) > 0)
    decreases |after|
  {
    hide Step, Inv, StepsInTurn;
    if after == [] {
      assert before + after == before;
      return 1;
    }
    var init, e := after[..|after| - 1], after[|after| - 1];
    assert (before + after)[..|before + after| - 1] == before + init;
    j := TurningRun(cfg, before, init);
    var s, s' := Run(cfg, before + init), Run(cfg, before + after);
    if j <= |init| {
      assert init[..j] == after[..j];
    } else {
      assert after[..|after|] == after;
      if e.Loop? {
        RunKeepsInv(cfg, before + init);
        LoopIsStep(cfg, s, e);
        if s.pc == Exited || s.pc == Aborted {
          LeftStays(cfg, s, e);
          j := |after|;
        } else {
          TurnStep(cfg, s, e.choice);
          BusyTurns(s');
          j := if TurnOver(s'.pc) then |after| else |after| + 1;
        }
      } else {
        OutsideTurns(cfg, s, e);
        j := |after| + 1;
      }
    }
  }

  lemma LoopIsStep(cfg: Config, s: State, e: Event)
    requires e.Loop?
    ensures Step(cfg, s, e) == LoopStep(cfg, s, e.choice)
  {
  }

  lemma LeftStays(cfg: Config, s: State, e: Event)
    requires s.pc == Exited || s.pc == Aborted
    ensures Step(cfg, s, e).pc == s.pc
  {
  }

  lemma BusyTurns(s: State)
    ensures TurnOver(s.pc) || StepsInTurn(s) > 0
  {
  }

  // ----- a quiet stretch shuts the service down ----------------------------------------------------------

  lemma QuietStep(cfg: Config, s: State, e: Event)
    requires !Dirty(s)
    ensures var s' := Step(cfg, s, e); s'.closed || Dirty(s') || s'.idleSince == s.idleSince
  {
    hide WithFate, FirstSent, RefuseWaiting;
  }

  lemma {:induction false} QuietRun(cfg: Config, before: seq<Event>, after: seq<Event>)
    requires forall j :: 0 <= j <= |after| ==>
      !Dirty(Run(cfg, before + after[..j])) && !Run(cfg, before + after[..j]).closed
    ensures Run(cfg, before + after).idleSince == Run(cfg, before).idleSince
    decreases |after|
  {
    hide Step, Dirty;
    assert before + after[..0] == before && after[..|after|] == after;
    if after != [] {
      var init, e := after[..|after| - 1], after[|after| - 1];
      assert (before + after)[..|before + after| - 1] == before + init;
      forall j | 0 <= j <= |init|
        ensures !Dirty(Run(cfg, before + init[..j])) && !Run(cfg, before + init[..j]).closed
      {
        assert init[..j] == after[..j];
      }
      QuietRun(cfg, before, init);
      assert init[..|init|] == init;
      assert !Dirty(Run(cfg, before + after[..|init|]));
      assert after[..|init|] == init;
      assert !Dirty(Run(cfg, before + after[..|after|])) && !Run(cfg, before + after[..|after|]).closed;
      QuietStep(cfg, Run(cfg, before + init), e);
    }
  }

  /** The converse of the quiet stretch an idle shutdown needs: if nothing happens from some point to an
      idle point at least the timeout later, the step there closes the token. */
  lemma QuietStretchShutsDown(cfg: Config, before: seq<Event>, after: seq<Event>, c: Choice)
    requires cfg.idleTimeout.Some?
    requires forall j :: 0 <= j <= |after| ==>
      !Dirty(Run(cfg, before + after[..j])) && !Run(cfg, before + after[..j]).closed
    requires Run(cfg, before + after).pc.Idle?
    requires Run(cfg, before + after).now >= Run(cfg, before).now + cfg.idleTimeout.value
    ensures LoopStep(cfg, Run(cfg, before + after), c).closed
  {
    QuietRun(cfg, before, after);
    RunKeepsInv(cfg, before);
    assert after[..|after|] == after;
    assert !Dirty(Run(cfg, before + after[..|after|]));
    hide Run, Count, Counters, Queue, Punctual, Control;
  }

  /** Nothing is active, pending or in hand, and the token is open. */
  predicate Resting(s: State) {
    && !s.closed && IdleNow(s) && (s.progressed ==> s.pc.Head?)
    && (s.pc.Head? || s.pc.Drain? || s.pc.Check? || s.pc.Scan? || s.pc.Recheck? || s.pc.Listening? || s.pc.Idle?)
  }

  /** Time passes, or the loop thread takes a step and finds neither a connection nor an error. */
  predicate Barren(e: Event) { e.Tick? || (e.Loop? && e.choice.accept == WouldBlock && !e.choice.ioError) }

  function StepsToIdle(pc: Pc): nat {
    match pc
    case Head => 6
    case Drain => 5
    case Check => 4
    case Scan(_) => 3
    case Recheck => 2
    case Listening => 1
    case _ => 0
  }

  lemma RestingStep(cfg: Config, s: State, e: Event)
    requires Inv(s) && Resting(s) && Barren(e)
    ensures var s' := Step(cfg, s, e);
      && s.now <= s'.now
      && (s'.closed || (Resting(s') && s'.idleSince == s.idleSince))
      && (e.Loop? && cfg.idleTimeout.Some? && s.now >= s.idleSince + cfg.idleTimeout.value ==>
            s'.closed || StepsToIdle(s'.pc) < StepsToIdle(s.pc))
      && (e.Tick? ==> s'.pc == s.pc)
  {
    hide WithFate, FirstSent, RefuseWaiting, Queue, Punctual;
    assert s.done == 0;
  }

  lemma ClosedStep(cfg: Config, s: State, e: Event)
    requires s.closed
    ensures Step(cfg, s, e).closed
  {
    hide WithFate, FirstSent, RefuseWaiting;
  }

  lemma {:induction false} RestingRun(cfg: Config, before: seq<Event>, after: seq<Event>)
    requires Resting(Run(cfg, before)) && forall e :: e in after ==> Barren(e)
    ensures var s, s' := Run(cfg, before), Run(cfg, before + after);
      s.now <= s'.now && (s'.closed || (Resting(s') && s'.idleSince == s.idleSince))
    decreases |after|
  {
    FatesAreFinal(cfg, before + after, |before|);
    assert (before + after)[..|before|] == before;
    hide Step, Resting, Barren;
    if after == [] {
      assert before + after == before;
    } else {
      var init, e := after[..|after| - 1], after[|after| - 1];
      assert (before + after)[..|before + after| - 1] == before + init;
      RestingRun(cfg, before, init);
      RunKeepsInv(cfg, before + init);
      hide Inv;
      var s := Run(cfg, before + init);
      if s.closed {
        ClosedStep(cfg, s, e);
      } else {
        RestingStep(cfg, s, e);
      }
    }
  }

  lemma {:induction false} OverdueRun(cfg: Config, before: seq<Event>, after: seq<Event>)
    requires Resting(Run(cfg, before)) && cfg.idleTimeout.Some? && forall e :: e in after ==> Barren(e)
    requires Run(cfg, before).now >= Run(cfg, before).idleSince + cfg.idleTimeout.value
    ensures var s, s' := Run(cfg, before), Run(cfg, before + after);
      s'.closed || LoopEvents(after) + StepsToIdle(s'.pc) <= StepsToIdle(s.pc)
    decreases |after|
  {
    hide Step, Resting, Barren, StepsToIdle;
    if after == [] {
      assert before + after == before;
    } else {
      var init, e := after[..|after| - 1], after[|after| - 1];
      assert (before + after)[..|before + after| - 1] == before + init;
      OverdueRun(cfg, before, init);
      RestingRun(cfg, before, init);
      RunKeepsInv(cfg, before + init);
      hide Inv;
      var s := Run(cfg, before + init);
      BarrenIsLoopOrTick(e);
      if s.closed {
        ClosedStep(cfg, s, e);
      } else {
        RestingStep(cfg, s, e);
      }
    }
  }

  lemma BarrenIsLoopOrTick(e: Event)
    requires Barren(e)
    ensures e.Loop? || e.Tick?
  {
  }

  /** A service at rest that finds neither a connection nor an error for the idle timeout closes its token
      within seven more steps of the loop thread. */
  lemma RestingServiceShutsDown(cfg: Config, before: seq<Event>, wait: seq<Event>, after: seq<Event>)
    requires cfg.idleTimeout.Some? && Resting(Run(cfg, before))
    requires (forall e :: e in wait ==> Barren(e)) && forall e :: e in after ==> Barren(e)
    requires Run(cfg, before + wait).now >= Run(cfg, before).now + cfg.idleTimeout.value && LoopEvents(after) >= 7
    ensures Run(cfg, before + wait + after).closed
  {
    RestingRun(cfg, before, wait);
    RunKeepsInv(cfg, before);
    assert Run(cfg, before).idleSince <= Run(cfg, before).now;
    hide Inv;
    var s := Run(cfg, before + wait);
    if s.closed {
      ClosedRun(cfg, before + wait, after);
    } else {
      OverdueRun(cfg, before + wait, after);
    }
  }

  lemma {:induction false} ClosedRun(cfg: Config, before: seq<Event>, after: seq<Event>)
    requires Run(cfg, before).closed
    ensures Run(cfg, before + after).closed
    decreases |after|
  {
    hide Step;
    if after == [] {
      assert before + after == before;
    } else {
      var init := after[..|after| - 1];
      assert (before + after)[..|before + after| - 1] == before + init;
      ClosedRun(cfg, before, init);
      ClosedStep(cfg, Run(cfg, before + init), after[|after| - 1]);
    }
  }

  // ----- refused peers and failures ----------------------------------------------------------------------

  /** A connection whose peer is not valid is refused for good, and is no progress. */
  lemma InvalidPeerIsRefused(cfg: Config, before: seq<Event>, c: Choice, after: seq<Event>)
    requires Run(cfg, before).pc.Validating? && !c.peerValid
    ensures Run(cfg, before + [Loop(c)]) == Step(cfg, Run(cfg, before), Loop(c))
    ensures Run(cfg, before + [Loop(c)]).progressed == Run(cfg, before).progressed
    ensures var id, s' := Run(cfg, before).pc.held.id, Run(cfg, before + [Loop(c)] + after);
      id < |s'.conns| && s'.conns[id].fate == Refused
  {
    RunKeepsInv(cfg, before);
    var now := before + [Loop(c)];
    assert now[..|now| - 1] == before;
    assert (now + after)[..|now|] == now;
    FatesAreFinal(cfg, now + after, |now|);
    hide Count, Counters, Queue, Punctual;
  }

  /** The loop thread gives up only where the listener, the accepted stream or the idle wait fails. */
  lemma AbortsExactlyWhen(cfg: Config, s: State, c: Choice)
    requires s.pc != Aborted
    ensures LoopStep(cfg, s, c).pc == Aborted <==>
      || (s.pc.Listening? && c.accept == AcceptError)
      || (s.pc.Validating? && c.peerValid && c.ioError)
      || (s.pc.Idle? && c.ioError && !s.progressed
          && !(s.active == 0 && s.pending == [] && cfg.idleTimeout.Some?
               && s.now >= s.idleSince + cfg.idleTimeout.value))
  {
    hide WithFate, FirstSent, RefuseWaiting;
  }
}
