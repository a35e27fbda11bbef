/** `serve_until` as a structured program that updates its own variables, run against any script
    of what workers, the clock, outside callers and peers do between and at its steps. */
module ServiceLoop {
  import opened Wrappers
  import opened Service

  /** How a part of the loop body ends. */
  datatype Flow =
    | Onward    // fall through to the next part
    | Restart   // `continue 'service`
    | Ended     // an I/O error ended the loop, or the script is over

  lemma Extends(cfg: Config, script: seq<Event>, p: nat)
    requires p < |script|
    ensures Run(cfg, script[..p + 1]) == Step(cfg, Run(cfg, script[..p]), script[p])
  {
    assert script[..p + 1][..p] == script[..p];
  }

  class Server {
    const cfg: Config
    const script: seq<Event>
    var position: nat
    // Shared with the workers, the callers of the token and the clock.
    var now: nat
    var closed: bool
    var done: nat
    var conns: seq<Conn>
    // The loop thread's own variables.
    var active: nat
    var pending: seq<Admission>
    var stats: Stats
    var shutdownAt: Option<nat>
    var idleSince: nat
    var progressed: bool
    /** Where the loop thread stands. */
    ghost var pc: Pc

    constructor (cfg: Config, script: seq<Event>)
      ensures Valid() && pc == Head && this.cfg == cfg && this.script == script
    {
      this.cfg, this.script, position := cfg, script, 0;
      now, closed, done, conns := cfg.startedAt, false, 0, [];
      active, pending, stats := 0, [], Stats(0, 0, 0, false);
      shutdownAt, idleSince, progressed := None, cfg.startedAt, false;
      pc := Head;
    }

    ghost function Abstract(): State
      reads this
    {
      State(pc, now, closed, active, pending, stats, shutdownAt, idleSince, progressed, done, conns)
    }

    /** The program has followed the machine through the script so far. */
    ghost predicate Valid()
      reads this
    {
      position <= |script| && Abstract() == Run(cfg, script[..position])
    }

    predicate Scheduled(c: Choice)
      reads this
    {
      position < |script| && script[position] == Loop(c)
    }

    /** Let everything else happen until the loop thread is scheduled again. */
    method Await() returns (c: Option<Choice>)
      requires Valid()
      modifies this`position, this`now, this`closed, this`done, this`conns
      ensures Valid() && position >= old(position)
      ensures if c.Some? then Scheduled(c.value) else position == |script|
    {
      hide Run, LoopStep;
      while position < |script| && !script[position].Loop?
        invariant Valid() && position >= old(position)
      {
        Extends(cfg, script, position);
        match script[position] {
          case Tick(elapsed) => now := now + elapsed;
          case Request => closed := true;
          case WorkerDone(id) =>
            if id < |conns| && conns[id].fate == Live {
              conns := WithFate(conns, id, Sent);
              done := done + 1;
            }
          case Loop(_) => assert false;
        }
        position := position + 1;
      }
      c := if position < |script| then Some(script[position].choice) else None;
    }

    /** One step of the loop thread is over. */
    method Commit(c: Choice, ghost next: Pc)
      requires Scheduled(c)
      requires Abstract().(pc := next) == LoopStep(cfg, Run(cfg, script[..position]), c)
      modifies this`position, this`pc
      ensures Valid() && pc == next && position == old(position) + 1
    {
      Extends(cfg, script, position);
      hide Run, LoopStep;
      pc := next;
      position := position + 1;
    }

    method Reject(id: nat)
      modifies this`stats, this`conns
      ensures Abstract() == Refuse(old(Abstract()), id)
    {
      stats := stats.(rejected := stats.rejected + 1);
      if id < |conns| {
        conns := WithFate(conns, id, Refused);
      }
    }

    // ----- the steps of the loop thread, each indivisible -----

    method BeginTurn(c: Choice)
      requires Valid() && Scheduled(c) && pc == Head
      modifies this
      ensures Valid() && pc == Drain && position == old(position) + 1
    {
      hide Run;
      progressed := false;
      Commit(c, Drain);
    }

    /** One successful `try_recv`. */
    method Collect(c: Choice)
      requires Valid() && Scheduled(c) && pc == Drain && done > 0
      modifies this
      ensures Valid() && pc == Drain && position == old(position) + 1
    {
      hide Run, FirstSent;
      var i := FirstSent(conns, 0);
      done := done - 1;
      active := if active == 0 then 0 else active - 1;
      stats := stats.(completed := stats.completed + 1);
      progressed := true;
      if i < |conns| {
        conns := WithFate(conns, i, Received);
      }
      Commit(c, Drain);
    }

    /** The checks of the token between the parts of the loop body. */
    method CheckToken(c: Choice) returns (stop: bool)
      requires Valid() && Scheduled(c) && pc in {Check, Recheck}
      modifies this`position, this`pc
      ensures Valid() && stop == closed && position == old(position) + 1
      ensures old(pc) == Check ==> pc == if stop then Closing else Scan(0)
      ensures old(pc) == Recheck ==> pc == if stop then Head else Listening
    {
      hide Run;
      stop := closed;
      Commit(c, if pc == Check then if stop then Closing else Scan(0) else if stop then Head else Listening);
    }

    method RefuseQueue(c: Choice)
      requires Valid() && Scheduled(c) && pc == Closing
      modifies this
      ensures Valid() && pc == Deciding && position == old(position) + 1
    {
      hide Run;
      if shutdownAt.None? {
        shutdownAt := Some(now);
      }
      stats := stats.(rejected := stats.rejected + |pending|);
      pending := [];
      conns := RefuseWaiting(conns);
      Commit(c, Deciding);
    }

    /** Leave once the workers are gone or have had long enough. */
    method Decide(c: Choice) returns (leave: bool)
      requires Valid() && Scheduled(c) && pc == Deciding
      modifies this`position, this`pc, this`stats
      ensures Valid() && position == old(position) + 1 && pc == if leave then Exited else Head
    {
      hide Run;
      if active == 0 {
        Commit(c, Exited);
        return true;
      }
      if shutdownAt.Some? && now >= shutdownAt.value + DRAIN_LIMIT {
        stats := stats.(stuck := true);
        Commit(c, Exited);
        return true;
      }
      Commit(c, Head);
      leave := false;
    }

    method PollExpiry(c: Choice, target: Target) returns (expired: bool)
      requires Valid() && Scheduled(c) && pc == Polling(target)
      modifies this`position, this`pc
      ensures Valid() && position == old(position) + 1
      ensures pc == if expired then Polled(target, true, Incomplete, now) else Reading(target)
    {
      hide Run;
      expired := now >= ExpiresAt(pending, target);
      Commit(c, if expired then Polled(target, true, Incomplete, now) else Reading(target));
    }

    method PollRead(c: Choice, target: Target) returns (outcome: ReadOutcome, at: nat)
      requires Valid() && Scheduled(c) && pc == Reading(target)
      modifies this`position, this`pc
      ensures Valid() && position == old(position) + 1 && pc == Rechecking(target, outcome, at)
    {
      hide Run;
      outcome, at := c.outcome, now;
      Commit(c, Rechecking(target, outcome, at));
    }

    method PollRecheck(c: Choice, target: Target, outcome: ReadOutcome, at: nat) returns (expired: bool)
      requires Valid() && Scheduled(c) && pc == Rechecking(target, outcome, at)
      modifies this`position, this`pc
      ensures Valid() && position == old(position) + 1 && pc == Polled(target, expired, outcome, at)
    {
      hide Run;
      expired := now >= ExpiresAt(pending, target) && outcome != Broken;
      Commit(c, Polled(target, expired, outcome, at));
    }

    /** The check of the token after a poll; a fresh connection is refused when it is closed. */
    method CheckAfterPoll(c: Choice, target: Target, expired: bool, outcome: ReadOutcome, at: nat) returns (stop: bool)
      requires Valid() && Scheduled(c) && pc == Polled(target, expired, outcome, at)
      modifies this`position, this`pc, this`stats, this`conns
      ensures Valid() && position == old(position) + 1
      ensures pc == if stop then Head else Acting(target, expired, outcome, at)
    {
      hide Run;
      stop := closed;
      if !stop {
        Commit(c, Acting(target, expired, outcome, at));
      } else {
        if target.Fresh? {
          Reject(target.admission.id);
        }
        Commit(c, Head);
      }
    }

    method Reserve(c: Choice, held: Admission, at: nat, resume: Resume) returns (granted: bool)
      requires Valid() && Scheduled(c) && pc == Reserving(held, at, resume)
      modifies this`position, this`pc, this`stats, this`conns
      ensures Valid() && position == old(position) + 1 && granted == !closed
      ensures pc == if granted then Spawning(held, at, resume) else Head
    {
      hide Run;
      granted := !closed;
      if granted {
        Commit(c, Spawning(held, at, resume));
      } else {
        Reject(held.id);
        Commit(c, Head);
      }
    }

    method Spawn(c: Choice, held: Admission, at: nat, resume: Resume)
      requires Valid() && Scheduled(c) && pc == Spawning(held, at, resume)
      modifies this`position, this`pc, this`conns
      ensures Valid() && position == old(position) + 1 && pc == Counting(resume)
    {
      hide Run;
      if held.id < |conns| {
        conns := conns[held.id := conns[held.id].(fate := Live, readAt := Some(at))];
      }
      Commit(c, Counting(resume));
    }

    method CountActive(c: Choice, resume: Resume)
      requires Valid() && Scheduled(c) && pc == Counting(resume)
      modifies this`position, this`pc, this`active, this`progressed
      ensures Valid() && position == old(position) + 1 && pc == Resumed(resume)
    {
      hide Run;
      active := active + 1;
      progressed := true;
      Commit(c, Resumed(resume));
    }

    method NextPending(c: Choice, index: nat) returns (more: bool)
      requires Valid() && Scheduled(c) && pc == Scan(index)
      modifies this`position, this`pc
      ensures Valid() && position == old(position) + 1 && more == (index < |pending|)
      ensures pc == if more then Polling(Queued(index)) else Recheck
    {
      hide Run;
      more := index < |pending|;
      Commit(c, if more then Polling(Queued(index)) else Recheck);
    }

    method DropAt(c: Choice, index: nat)
      requires Valid() && Scheduled(c) && index < |pending|
      requires LoopStep(cfg, Abstract(), c) == DropQueued(Abstract(), index)
      modifies this
      ensures Valid() && pc == Scan(index) && position == old(position) + 1
    {
      hide Run, LoopStep;
      Reject(pending[index].id);
      pending := Remove(pending, index);
      progressed := true;
      Commit(c, Scan(index));
    }

    method TakeAt(c: Choice, index: nat, at: nat)
      requires Valid() && Scheduled(c) && index < |pending|
      requires LoopStep(cfg, Abstract(), c) == TakeQueued(Abstract(), index, at)
      modifies this
      ensures Valid() && pc == Reserving(old(pending[index]), at, ToScan(index)) && position == old(position) + 1
    {
      hide Run, LoopStep;
      var a := pending[index];
      pending := Remove(pending, index);
      if a.id < |conns| {
        conns := WithFate(conns, a.id, Held);
      }
      Commit(c, Reserving(a, at, ToScan(index)));
    }

    method DropHeld(c: Choice, a: Admission)
      requires Valid() && Scheduled(c)
      requires LoopStep(cfg, Abstract(), c) == DropFresh(Abstract(), a)
      modifies this
      ensures Valid() && pc == Idle && position == old(position) + 1
    {
      hide Run, LoopStep;
      Reject(a.id);
      progressed := true;
      Commit(c, Idle);
    }

    /** Queue an unfinished request, refusing the oldest one if the queue is full. */
    method Queue(c: Choice, a: Admission)
      requires Valid() && Scheduled(c)
      requires LoopStep(cfg, Abstract(), c) == Enqueue(Evict(Abstract()), a)
      modifies this
      ensures Valid() && pc == Idle && position == old(position) + 1
    {
      hide Run, LoopStep;
      if |pending| == MAX_PENDING_ADMISSIONS {
        Reject(pending[0].id);
        pending := pending[1..];
      }
      pending := pending + [a];
      if a.id < |conns| {
        conns := WithFate(conns, a.id, Waiting);
      }
      progressed := true;
      Commit(c, Idle);
    }

    /** `accept`, with the fresh admission if there is one. */
    method Accept(c: Choice) returns (a: Option<Admission>)
      requires Valid() && Scheduled(c) && pc == Listening
      modifies this`position, this`pc, this`stats, this`conns
      ensures Valid() && position == old(position) + 1
      ensures match c.accept
        case Connection => a.Some? && pc == Validating(a.value)
        case WouldBlock => a.None? && pc == Idle
        case AcceptError => a.None? && pc == Aborted
    {
      hide Run;
      match c.accept {
        case WouldBlock =>
          a := None;
          Commit(c, Idle);
        case AcceptError =>
          a := None;
          Commit(c, Aborted);
        case Connection =>
          a := Some(Admission(|conns|, now + REQUEST_FRAME_DEADLINE));
          stats := stats.(accepted := stats.accepted + 1);
          conns := conns + [Conn(now, Held, None)];
          Commit(c, Validating(a.value));
      }
    }

    method CheckPeer(c: Choice, a: Admission)
      requires Valid() && Scheduled(c) && pc == Validating(a)
      modifies this`position, this`pc, this`stats, this`conns
      ensures Valid() && position == old(position) + 1
      ensures pc == if !c.peerValid then Idle else if c.ioError then Aborted else Polling(Fresh(a))
    {
      hide Run;
      if !c.peerValid {
        Reject(a.id);
        Commit(c, Idle);
      } else if c.ioError {
        Commit(c, Aborted);
      } else {
        Commit(c, Polling(Fresh(a)));
      }
    }

    /** Keep the idle clock, and close admission once it has run out. */
    method ObserveIdle(c: Choice) returns (failed: bool)
      requires Valid() && Scheduled(c) && pc == Idle
      modifies this
      ensures Valid() && position == old(position) + 1 && pc == if failed then Aborted else Head
    {
      hide Run;
      failed := false;
      if active == 0 && pending == [] {
        if progressed {
          idleSince := now;
        }
        if cfg.idleTimeout.Some? && now >= idleSince + cfg.idleTimeout.value {
          closed := true;
          Commit(c, Head);
          return;
        }
      } else {
        idleSince := now;
      }
      failed := !progressed && c.ioError;
      Commit(c, if failed then Aborted else Head);
    }

    // ----- the control flow -----

    method DrainCompletions() returns (how: Flow)
      requires Valid() && pc == Drain
      modifies this
      ensures Valid() && position >= old(position)
      ensures if how == Onward then pc == Check else how == Ended && Over()
    {
      hide Run, Abstract;
      while true
        invariant Valid() && pc == Drain && position >= old(position)
        decreases |script| - position
      {
        var c := Await();
        if c.None? {
          return Ended;
        }
        if done == 0 {
          FinishDrain(c.value);
          return Onward;
        }
        Collect(c.value);
      }
    }

    method FinishDrain(c: Choice)
      requires Valid() && Scheduled(c) && pc == Drain && done == 0
      modifies this`position, this`pc
      ensures Valid() && pc == Check && position == old(position) + 1
    {
      hide Run;
      Commit(c, Check);
    }

    /** The script is over, or an error has ended the loop. */
    ghost predicate Over()
      reads this
    {
      (position == |script| || pc == Aborted) && pc != Exited
    }

    /** The part ended where its flow says. */
    ghost predicate At(how: Flow, onward: Pc)
      reads this
    {
      match how
      case Onward => pc == onward
      case Restart => pc == Head
      case Ended => Over()
    }

    /** Refuse the queue and leave, or wait for the workers. */
    method WindDown() returns (how: Flow)
      requires Valid() && pc == Closing
      modifies this
      ensures Valid() && position >= old(position) && At(how, Exited)
    {
      hide Run, Abstract, Valid;
      var c := Await();
      if c.None? {
        return Ended;
      }
      RefuseQueue(c.value);
      c := Await();
      if c.None? {
        return Ended;
      }
      var leave := Decide(c.value);
      how := if leave then Onward else Restart;
    }

    /** `poll_live_admission`. */
    method Poll(target: Target) returns (ended: bool, expired: bool, outcome: ReadOutcome, at: nat)
      requires Valid() && pc == Polling(target)
      modifies this`position, this`now, this`closed, this`done, this`conns, this`pc
      ensures Valid() && position >= old(position)
      ensures if ended then Over() else pc == Polled(target, expired, outcome, at)
    {
      hide Run, Abstract, Valid;
      ended, expired, outcome, at := true, true, Incomplete, 0;
      var c := Await();
      if c.None? {
        return;
      }
      at := now;
      expired := PollExpiry(c.value, target);
      if expired {
        ended := false;
        return;
      }
      c := Await();
      if c.None? {
        return;
      }
      outcome, at := PollRead(c.value, target);
      c := Await();
      if c.None? {
        return;
      }
      expired := PollRecheck(c.value, target, outcome, at);
      ended := false;
    }

    /** Reserve, spawn and count one execution. */
    method Execute(held: Admission, at: nat, resume: Resume) returns (how: Flow)
      requires Valid() && pc == Reserving(held, at, resume)
      modifies this
      ensures Valid() && position >= old(position) && At(how, Resumed(resume))
    {
      hide Run, Abstract, Valid;
      var c := Await();
      if c.None? {
        return Ended;
      }
      var granted := Reserve(c.value, held, at, resume);
      if !granted {
        return Restart;
      }
      c := Await();
      if c.None? {
        return Ended;
      }
      Spawn(c.value, held, at, resume);
      c := Await();
      if c.None? {
        return Ended;
      }
      CountActive(c.value, resume);
      how := Onward;
    }

    /** What the scan does with the admission it has just polled. */
    method ActOnQueued(index: nat, expired: bool, outcome: ReadOutcome, at: nat) returns (how: Flow, next: nat)
      requires Valid() && pc == Acting(Queued(index), expired, outcome, at) && index < |pending|
      modifies this
      ensures Valid() && position >= old(position) && At(how, Scan(next))
    {
      hide Run;
      next := index;
      var c := Await();
      if c.None? {
        return Ended, index;
      }
      how := Onward;
      if expired || outcome == Broken {
        DropAt(c.value, index);
      } else if outcome == Incomplete {
        next := index + 1;
        Commit(c.value, Scan(index + 1));
      } else if active < MAX_ACTIVE_REQUESTS {
        var a := pending[index];
        TakeAt(c.value, index, at);
        how := Execute(a, at, ToScan(index));
      } else {
        DropAt(c.value, index);
      }
    }

    /** Poll every pending admission once, in order. */
    method ScanPending() returns (how: Flow)
      requires Valid() && pc == Scan(0)
      modifies this
      ensures Valid() && position >= old(position) && At(how, Recheck)
    {
      hide Run, Abstract;
      var index: nat := 0;
      while true
        invariant Valid() && pc == Scan(index) && position >= old(position)
        decreases |script| - position
      {
        var c := Await();
        if c.None? {
          return Ended;
        }
        var more := NextPending(c.value, index);
        if !more {
          return Onward;
        }
        var ended, expired, outcome, at := Poll(Queued(index));
        if ended {
          return Ended;
        }
        c := Await();
        if c.None? {
          return Ended;
        }
        var stop := CheckAfterPoll(c.value, Queued(index), expired, outcome, at);
        if stop {
          return Restart;
        }
        how, index := ActOnQueued(index, expired, outcome, at);
        if how != Onward {
          return;
        }
      }
    }

    /** What the loop does with the connection it has just accepted and polled. */
    method ActOnFresh(a: Admission, expired: bool, outcome: ReadOutcome, at: nat) returns (how: Flow)
      requires Valid() && pc == Acting(Fresh(a), expired, outcome, at)
      modifies this
      ensures Valid() && position >= old(position) && At(how, Idle)
    {
      hide Run;
      var c := Await();
      if c.None? {
        return Ended;
      }
      how := Onward;
      if expired || outcome == Broken {
        DropHeld(c.value, a);
      } else if outcome == Incomplete {
        Queue(c.value, a);
      } else if active < MAX_ACTIVE_REQUESTS {
        Commit(c.value, Reserving(a, at, ToIdle));
        how := Execute(a, at, ToIdle);
      } else {
        DropHeld(c.value, a);
      }
    }

    /** Accept at most one connection, poll it once and act on the outcome. */
    method AcceptOne() returns (how: Flow)
      requires Valid() && pc == Listening
      modifies this
      ensures Valid() && position >= old(position) && At(how, Idle)
    {
      hide Run, Abstract, Valid;
      var c := Await();
      if c.None? {
        return Ended;
      }
      var a := Accept(c.value);
      if a.None? {
        return if c.value.accept == WouldBlock then Onward else Ended;
      }
      c := Await();
      if c.None? {
        return Ended;
      }
      CheckPeer(c.value, a.value);
      if !c.value.peerValid || c.value.ioError {
        return if !c.value.peerValid then Onward else Ended;
      }
      var ended, expired, outcome, at := Poll(Fresh(a.value));
      if ended {
        return Ended;
      }
      c := Await();
      if c.None? {
        return Ended;
      }
      var stop := CheckAfterPoll(c.value, Fresh(a.value), expired, outcome, at);
      if stop {
        return Restart;
      }
      how := ActOnFresh(a.value, expired, outcome, at);
    }

    /** One turn of the service loop. */
    method Turn() returns (how: Flow)
      requires Valid() && pc == Head
      modifies this
      ensures Valid() && position >= old(position) && At(how, Exited)
      ensures how == Restart ==> position > old(position)
    {
      hide Run, Abstract, Valid;
      var c := Await();
      if c.None? {
        return Ended;
      }
      BeginTurn(c.value);
      how := DrainCompletions();
      if how == Ended {
        return;
      }
      c := Await();
      if c.None? {
        return Ended;
      }
      var stop := CheckToken(c.value);
      if stop {
        how := WindDown();
        return;
      }
      how := ScanPending();
      if how != Onward {
        return;
      }
      c := Await();
      if c.None? {
        return Ended;
      }
      stop := CheckToken(c.value);
      if stop {
        return Restart;
      }
      how := AcceptOne();
      if how != Onward {
        return;
      }
      c := Await();
      if c.None? {
        return Ended;
      }
      var failed := ObserveIdle(c.value);
      how := if failed then Ended else Restart;
    }

    method Serve() returns (report: Option<Stats>)
      requires Valid() && pc == Head
      modifies this
      ensures Valid()
      ensures if report.Some? then pc == Exited && report.value == stats else Over()
    {
      hide Run, Abstract;
      var how := Restart;
      while how == Restart
        invariant Valid() && At(how, Exited)
        decreases |script| - position, how == Restart
      {
        how := Turn();
      }
      report := if how == Onward then Some(stats) else None;
    }
  }

  lemma StaysOut(cfg: Config, s: State, e: Event)
    requires s.pc in {Exited, Aborted}
    ensures Step(cfg, s, e).pc == s.pc && Step(cfg, s, e).stats == s.stats
  {
  }

  /** Once the loop has left, nothing changes what it reported. */
  lemma {:induction false} LeavingIsFinal(cfg: Config, script: seq<Event>, n: nat)
    requires n <= |script| && Run(cfg, script[..n]).pc in {Exited, Aborted}
    ensures Run(cfg, script).pc == Run(cfg, script[..n]).pc && Run(cfg, script).stats == Run(cfg, script[..n]).stats
    decreases |script| - n
  {
    hide Run, Step;
    if n < |script| {
      Extends(cfg, script, n);
      StaysOut(cfg, Run(cfg, script[..n]), script[n]);
      LeavingIsFinal(cfg, script, n + 1);
    } else {
      assert script[..n] == script;
    }
  }

  /** `serve_until`: it returns a report exactly when the run leaves the loop, and the report
      accounts for every accepted connection: a clean one completed or refused it, and only a
      stuck one is short, by the workers not drained. */
  method ServeUntil(cfg: Config, script: seq<Event>) returns (report: Option<Stats>)
    ensures report.Some? <==> Run(cfg, script).pc.Exited?
    ensures report.Some? ==> report.value == Run(cfg, script).stats
    ensures report.Some? && !report.value.stuck ==>
      report.value.accepted == report.value.rejected + report.value.completed
    ensures report.Some? && report.value.stuck ==>
      report.value.accepted > report.value.rejected + report.value.completed
  {
    var server := new Server(cfg, script);
    report := server.Serve();
    assert script[..|script|] == script;
    hide Run, Count;
    if server.pc in {Exited, Aborted} {
      LeavingIsFinal(cfg, script, server.position);
    }
    if report.Some? {
      ExitReport(cfg, script);
    }
  }
}
