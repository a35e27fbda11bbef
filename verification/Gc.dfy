/** Vector-reference publication and garbage collection under the mutation lease.

    Synchronizers, collectors and statistics readers share one content-addressed
    cache, one directory of project indexes and one reader-writer lease. SQLite
    transactions are atomic updates of the maps. A run is any finite sequence of
    events of any processes; an event that is not enabled leaves the state alone. */
module Gc {
  import opened Wrappers
  import opened Vectors

  type Key = VectorKey
  type Project = nat
  type Pid = nat

  /** How an index file answers `open_index`. */
  datatype Status =
    | Fine
    | Busy     // unreadable for now, for example because of an in-flight sidecar
    | Foreign  // not a SQLite file: skipped by every inventory

  /** A project index; every publication advances its generation. */
  datatype Index = Index(refs: set<Key>, generation: nat, status: Status)

  /** A captured synchronization plan: the references of the index when it was made, those the
      commit will drop, those of unchanged pages, and those to be stored and published. References
      that are neither dropped nor unchanged belong to pages that could not be inspected. */
  datatype Plan = Plan(
    project: Project,
    generation: nat,
    refs: set<Key>,
    dropped: set<Key>,
    reused: set<Key>,
    requested: set<Key>,
    checked: bool)

  datatype Job =
    | Checking
    | Syncing(project: Project, requested: set<Key>, verified: bool)
    | Collecting(initial: Option<set<Key>>, pass: nat, todo: set<Project>, live: set<Key>, failed: bool)
    | Reading

  datatype State = State(
    cache: map<Key, Row>,
    readable: bool,
    indexes: map<Project, Index>,
    writer: Option<Pid>,
    readers: set<Pid>,
    jobs: map<Pid, Job>,
    plans: map<Pid, Plan>,
    reports: seq<SweepReport>)

  datatype Event =
    | MakePlan(pid: Pid, project: Project, requested: set<Key>, dropped: set<Key>, reused: set<Key>)
    | LockForCheck(pid: Pid)
    | CheckUnchanged(pid: Pid, replaced: set<Key>)
    | LockForSync(pid: Pid)
    | LockForGc(pid: Pid)
    | LockShared(pid: Pid)
    | Unlock(pid: Pid)
    | Insert(pid: Pid, rows: map<Key, Row>)
    | Commit(pid: Pid)
    | Snapshot(pid: Pid)
    | Enumerate(pid: Pid)
    | ReadIndex(pid: Pid, project: Project)
    | Sweep(pid: Pid)
    | Inflight(project: Project, busy: bool)
    | RogueInsert(rows: map<Key, Row>)
    | RoguePublish(project: Project, refs: set<Key>)
    | Corrupt

  /** Everything but writers that ignore the lease and damage to the cache file. */
  predicate Cooperative(e: Event) { !e.RogueInsert? && !e.RoguePublish? && !e.Corrupt? }

  // ----- transitions -----------------------------------------------------------------

  predicate Holds(s: State, pid: Pid) { pid in s.jobs }

  /** A nonblocking exclusive `flock` succeeds only on a free lock. */
  predicate CanLock(s: State, pid: Pid) {
    !Holds(s, pid) && s.writer.None? && s.readers == {}
  }

  function Locked(s: State, pid: Pid, job: Job): State {
    s.(writer := Some(pid), jobs := s.jobs[pid := job])
  }

  /** `Drop` of the held lock, on every exit path of its owner. */
  function Released(s: State, pid: Pid): State {
    s.(jobs := s.jobs - {pid},
       writer := if s.writer == Some(pid) then None else s.writer,
       readers := s.readers - {pid})
  }

  function WithJob(s: State, pid: Pid, job: Job): State {
    s.(jobs := s.jobs[pid := job])
  }

  /** `insert_batch` of requested rows. */
  function InsertStep(s: State, pid: Pid, rows: map<Key, Row>): State
    requires Holds(s, pid)
  {
    match s.jobs[pid]
    case Syncing(project, requested, _) =>
      if s.readable then
        var cache := InsertMissing(s.cache, map k | k in rows && k in requested :: rows[k]);
        WithJob(s, pid, Syncing(project, requested, requested <= cache.Keys)).(cache := cache)
      else s
    case _ => s
  }

  function RefsOf(indexes: map<Project, Index>, project: Project): set<Key> {
    if project in indexes then indexes[project].refs else {}
  }

  function GenerationOf(indexes: map<Project, Index>, project: Project): nat {
    if project in indexes then indexes[project].generation else 0
  }

  predicate Openable(indexes: map<Project, Index>, project: Project) {
    project in indexes ==> indexes[project].status == Fine
  }

  /** Planning reads the index without any lease. */
  function PlanStep(s: State, pid: Pid, project: Project, requested: set<Key>, dropped: set<Key>,
                    reused: set<Key>): State {
    var refs := RefsOf(s.indexes, project);
    if !Holds(s, pid) && Openable(s.indexes, project) && reused <= refs - dropped then
      var plan := Plan(project, GenerationOf(s.indexes, project), refs, dropped, reused, requested, reused == {});
      s.(plans := s.plans[pid := plan])
    else s
  }

  /** The first lease epoch: unchanged pages with a missing reference are to be replaced, so all
      their references, and at least the missing ones, are requested. */
  function CheckStep(s: State, pid: Pid, replaced: set<Key>): State
    requires Holds(s, pid)
  {
    if s.jobs[pid].Checking? && pid in s.plans && s.readable
       && s.plans[pid].reused - s.cache.Keys <= replaced <= s.plans[pid].reused then
      var plan := s.plans[pid];
      Released(s.(plans := s.plans[pid := plan.(requested := plan.requested + replaced, checked := true)]), pid)
    else s
  }

  /** The plan still describes the index. */
  predicate UpToDate(s: State, pid: Pid) {
    && pid in s.plans
    && Openable(s.indexes, s.plans[pid].project)
    && GenerationOf(s.indexes, s.plans[pid].project) == s.plans[pid].generation
  }

  predicate ReadyToCommit(s: State, pid: Pid) {
    && Holds(s, pid) && s.jobs[pid].Syncing? && s.jobs[pid].verified
    && UpToDate(s, pid)
  }

  /** The index after the commit: dropped pages lose their references, the verified ones are
      added, all others stay. */
  function Committed(s: State, pid: Pid): Index
    requires ReadyToCommit(s, pid)
  {
    var plan := s.plans[pid];
    Index((RefsOf(s.indexes, plan.project) - plan.dropped) + s.jobs[pid].requested, plan.generation + 1, Fine)
  }

  /** The second lease epoch ends with the project transaction. */
  function CommitStep(s: State, pid: Pid): State
    requires Holds(s, pid)
  {
    if ReadyToCommit(s, pid) then
      var indexes := s.indexes[s.plans[pid].project := Committed(s, pid)];
      Released(s.(indexes := indexes, plans := s.plans - {pid}), pid)
    else s
  }

  /** `cached_keys`, or quarantine of a damaged cache with an empty initial set. */
  function SnapshotStep(s: State, pid: Pid): State
    requires Holds(s, pid)
  {
    match s.jobs[pid]
    case Collecting(None, pass, todo, live, failed) =>
      if s.readable then
        WithJob(s, pid, Collecting(Some(s.cache.Keys), pass, todo, live, failed))
      else
        WithJob(s, pid, Collecting(Some({}), pass, todo, live, failed)).(cache := map[], readable := true)
    case _ => s
  }

  /** The start of one `live_keys` pass: enumerate the index directory afresh. */
  function EnumerateStep(s: State, pid: Pid): State
    requires Holds(s, pid)
  {
    match s.jobs[pid]
    case Collecting(Some(initial), pass, todo, live, false) =>
      if todo == {} && pass < 2 then
        WithJob(s, pid, Collecting(Some(initial), pass + 1, s.indexes.Keys, live, false))
      else s
    case _ => s
  }

  function ReadStep(s: State, pid: Pid, project: Project): State
    requires Holds(s, pid)
  {
    match s.jobs[pid]
    case Collecting(initial, pass, todo, live, failed) =>
      if project !in todo then s
      else if project !in s.indexes || s.indexes[project].status == Busy then
        WithJob(s, pid, Collecting(initial, pass, todo - {project}, live, true))
      else if s.indexes[project].status == Foreign then
        WithJob(s, pid, Collecting(initial, pass, todo - {project}, live, failed))
      else
        WithJob(s, pid, Collecting(initial, pass, todo - {project}, live + s.indexes[project].refs, failed))
    case _ => s
  }

  predicate ReadyToSweep(s: State, pid: Pid) {
    && Holds(s, pid) && s.jobs[pid].Collecting?
    && s.jobs[pid].initial.Some? && s.jobs[pid].pass == 2 && s.jobs[pid].todo == {} && !s.jobs[pid].failed
  }

  function SweepStep(s: State, pid: Pid): State {
    if ReadyToSweep(s, pid) then
      var doomed := Doomed(s.cache.Keys, s.jobs[pid].initial.value, s.jobs[pid].live);
      Released(s.(cache := s.cache - doomed,
                  reports := s.reports + [Tally(s.cache.Keys, doomed)]), pid)
    else s
  }

  function Step(s: State, e: Event): State {
    match e
    case MakePlan(pid, project, requested, dropped, reused) =>
      PlanStep(s, pid, project, requested, dropped, reused)
    case LockForCheck(pid) =>
      if CanLock(s, pid) && pid in s.plans && !s.plans[pid].checked then Locked(s, pid, Checking) else s
    case CheckUnchanged(pid, replaced) => if Holds(s, pid) then CheckStep(s, pid, replaced) else s
    case LockForSync(pid) =>
      if CanLock(s, pid) && UpToDate(s, pid) && s.plans[pid].checked then
        var requested := s.plans[pid].requested;
        Locked(s, pid, Syncing(s.plans[pid].project, requested, requested == {}))
      else s
    case LockForGc(pid) =>
      if CanLock(s, pid) then Locked(s, pid, Collecting(None, 0, {}, {}, false)) else s
    case LockShared(pid) =>
      if !Holds(s, pid) && s.writer.None? then s.(readers := s.readers + {pid}, jobs := s.jobs[pid := Reading]) else s
    case Unlock(pid) => if Holds(s, pid) then Released(s, pid) else s
    case Insert(pid, rows) => if Holds(s, pid) then InsertStep(s, pid, rows) else s
    case Commit(pid) => if Holds(s, pid) then CommitStep(s, pid) else s
    case Snapshot(pid) => if Holds(s, pid) then SnapshotStep(s, pid) else s
    case Enumerate(pid) => if Holds(s, pid) then EnumerateStep(s, pid) else s
    case ReadIndex(pid, project) => if Holds(s, pid) then ReadStep(s, pid, project) else s
    case Sweep(pid) => SweepStep(s, pid)
    case Inflight(project, busy) =>
      if project in s.indexes && s.indexes[project].status != Foreign then
        s.(indexes := s.indexes[project := s.indexes[project].(status := if busy then Busy else Fine)])
      else s
    case RogueInsert(rows) => s.(cache := InsertMissing(s.cache, rows))
    case RoguePublish(project, refs) =>
      s.(indexes := s.indexes[project := Index(refs, GenerationOf(s.indexes, project) + 1, Fine)])
    case Corrupt => s.(readable := false)
  }

  function Run(s: State, events: seq<Event>): State {
    if events == [] then s
    else Step(Run(s, events[..|events| - 1]), events[|events| - 1])
  }

  // ----- safety under cooperation ----------------------------------------------------------

  /** Every reference of every index, readable now or not, is cached. */
  predicate Published(cache: map<Key, Row>, indexes: map<Project, Index>) {
    forall p :: p in indexes && indexes[p].status != Foreign ==> indexes[p].refs <= cache.Keys
  }

  /** Collection so far has seen every reference outside the indexes still to be read. */
  predicate Covered(indexes: map<Project, Index>, todo: set<Project>, live: set<Key>) {
    forall p :: p in indexes && indexes[p].status != Foreign && p !in todo ==> indexes[p].refs <= live
  }

  function Referenced(indexes: map<Project, Index>): set<Key> {
    set p, k | p in indexes && indexes[p].status != Foreign && k in indexes[p].refs :: k
  }

  predicate JobInv(cache: map<Key, Row>, indexes: map<Project, Index>, job: Job) {
    match job
    case Syncing(_, requested, verified) => verified ==> requested <= cache.Keys
    case Collecting(initial, pass, todo, live, failed) =>
      && (initial.Some? ==> initial.value == cache.Keys)
      && (pass == 0 ==> todo == {} && live == {})
      && (pass > 0 && !failed ==> Covered(indexes, todo, live))
      && live <= Referenced(indexes)
    case _ => true
  }

  /** At most one writer, never beside a reader. */
  predicate LeaseInv(s: State) {
    && (forall pid :: pid in s.jobs ==>
          if s.jobs[pid].Reading? then pid in s.readers else s.writer == Some(pid))
    && (forall pid :: pid in s.readers ==> pid in s.jobs && s.jobs[pid].Reading?)
    && (s.writer.Some? ==> s.readers == {} && s.writer.value in s.jobs && !s.jobs[s.writer.value].Reading?)
  }

  predicate Inv(s: State) {
    && s.readable
    && LeaseInv(s)
    && Published(s.cache, s.indexes)
    && (s.writer.Some? ==> s.writer.value in s.jobs && JobInv(s.cache, s.indexes, s.jobs[s.writer.value]))
  }

  predicate Start(s: State) {
    s.readable && s.writer == None && s.readers == {} && s.jobs == map[] && s.plans == map[]
    && Published(s.cache, s.indexes)
  }

  lemma CommitKeepsInv(s: State, pid: Pid)
    requires Inv(s) && Holds(s, pid)
    ensures Inv(CommitStep(s, pid))
  {
  }

  lemma SweepKeepsInv(s: State, pid: Pid)
    requires Inv(s)
    ensures Inv(SweepStep(s, pid))
  {
    if ReadyToSweep(s, pid) {
      var s' := SweepStep(s, pid);
      forall p | p in s'.indexes && s'.indexes[p].status != Foreign
        ensures s'.indexes[p].refs <= s'.cache.Keys
      {
        assert s.indexes[p].refs <= s.jobs[pid].live;
      }
    }
  }

  lemma LockKeepsInv(s: State, e: Event)
    requires Inv(s) && (e.LockForCheck? || e.LockForSync? || e.LockForGc? || e.LockShared? || e.Unlock?)
    ensures Inv(Step(s, e))
  {
  }

  lemma PlanningKeepsInv(s: State, e: Event)
    requires Inv(s) && (e.MakePlan? || e.CheckUnchanged?)
    ensures Inv(Step(s, e))
  {
  }

  lemma CollectKeepsInv(s: State, e: Event)
    requires Inv(s) && (e.Snapshot? || e.Enumerate? || e.ReadIndex?)
    ensures Inv(Step(s, e))
  {
  }

  lemma InflightKeepsInv(s: State, project: Project, busy: bool)
    requires Inv(s)
    ensures Inv(Step(s, Inflight(project, busy)))
  {
    var s' := Step(s, Inflight(project, busy));
    assert Referenced(s.indexes) <= Referenced(s'.indexes) by {
      forall k | k in Referenced(s.indexes) ensures k in Referenced(s'.indexes) {
        var p :| p in s.indexes && s.indexes[p].status != Foreign && k in s.indexes[p].refs;
        assert p in s'.indexes && s'.indexes[p].status != Foreign && k in s'.indexes[p].refs;
      }
    }
  }

  lemma StepKeepsInv(s: State, e: Event)
    requires Inv(s) && Cooperative(e)
    ensures Inv(Step(s, e))
  {
    match e
    case Commit(pid) => if Holds(s, pid) { CommitKeepsInv(s, pid); }
    case MakePlan(_, _, _, _, _) => PlanningKeepsInv(s, e);
    case CheckUnchanged(_, _) => PlanningKeepsInv(s, e);
    case LockForCheck(_) => LockKeepsInv(s, e);
    case Sweep(pid) => SweepKeepsInv(s, pid);
    case Insert(_, _) =>
    case Inflight(project, busy) => InflightKeepsInv(s, project, busy);
    case LockForSync(_) => LockKeepsInv(s, e);
    case LockForGc(_) => LockKeepsInv(s, e);
    case LockShared(_) => LockKeepsInv(s, e);
    case Unlock(_) => LockKeepsInv(s, e);
    case _ => CollectKeepsInv(s, e);
  }

  /** In every interleaving of lease-holding synchronizers, collectors and readers, every
      reference of every published index stays in the cache. */
  lemma {:induction false} ReferencesStayCached(s: State, events: seq<Event>)
    requires Start(s) && forall e :: e in events ==> Cooperative(e)
    ensures Inv(Run(s, events))
    ensures Published(Run(s, events).cache, Run(s, events).indexes)
  {
    if events != [] {
      ReferencesStayCached(s, events[..|events| - 1]);
      StepKeepsInv(Run(s, events[..|events| - 1]), events[|events| - 1]);
    }
  }

  predicate ExactSweep(before: State, after: State) {
    && after.cache.Keys == Referenced(before.indexes)
    && (forall k :: k in after.cache ==> k in before.cache && after.cache[k] == before.cache[k])
    && after.indexes == before.indexes
    && |after.reports| == |before.reports| + 1
    && var r := after.reports[|before.reports|];
       r.kept == |after.cache| && r.kept + r.removed == |before.cache|
  }

  lemma SweepIsExact(s: State, pid: Pid)
    requires Inv(s) && ReadyToSweep(s, pid)
    ensures ExactSweep(s, SweepStep(s, pid))
  {
    var doomed := Doomed(s.cache.Keys, s.jobs[pid].initial.value, s.jobs[pid].live);
    LiveIsReferenced(s, pid);
    hide Referenced;
    assert s.cache.Keys - doomed == Referenced(s.indexes) && doomed <= s.cache.Keys;
    hide *;
    SweepTransaction(s, pid);
    SweptExactly(s, SweepStep(s, pid), doomed);
  }

  lemma SweptExactly(before: State, after: State, doomed: set<Key>)
    requires doomed <= before.cache.Keys && before.cache.Keys - doomed == Referenced(before.indexes)
    requires after.cache == before.cache - doomed && after.indexes == before.indexes
    requires after.reports == before.reports + [Tally(before.cache.Keys, doomed)]
    ensures ExactSweep(before, after)
  {
    hide Referenced, Tally;
    TallyIsExact(before.cache, doomed);
  }

  lemma SweepTransaction(s: State, pid: Pid)
    requires ReadyToSweep(s, pid)
    ensures var doomed, after := Doomed(s.cache.Keys, s.jobs[pid].initial.value, s.jobs[pid].live), SweepStep(s, pid);
      && after.cache == s.cache - doomed
      && after.indexes == s.indexes
      && after.reports == s.reports + [Tally(s.cache.Keys, doomed)]
  {
    hide Tally, Doomed;
  }

  /** When the passes are over the live set is the set of references, all of them stored. */
  lemma LiveIsReferenced(s: State, pid: Pid)
    requires Inv(s) && ReadyToSweep(s, pid)
    ensures s.jobs[pid].live == Referenced(s.indexes) <= s.cache.Keys == s.jobs[pid].initial.value
  {
    forall k | k in Referenced(s.indexes) ensures k in s.jobs[pid].live && k in s.cache.Keys {
      var p :| p in s.indexes && s.indexes[p].status != Foreign && k in s.indexes[p].refs;
      assert s.indexes[p].refs <= s.jobs[pid].live && s.indexes[p].refs <= s.cache.Keys;
    }
  }

  lemma TallyIsExact(cache: map<Key, Row>, doomed: set<Key>)
    requires doomed <= cache.Keys
    ensures (cache - doomed).Keys == cache.Keys - doomed
    ensures Tally(cache.Keys, doomed).kept == |cache - doomed|
    ensures Tally(cache.Keys, doomed).kept + Tally(cache.Keys, doomed).removed == |cache|
  {
    assert (cache - doomed).Keys == cache.Keys - doomed;
    assert |cache - doomed| == |(cache - doomed).Keys| && |cache| == |cache.Keys|;
    assert cache.Keys == (cache.Keys - doomed) + doomed;
  }

  /** A collection that runs to its sweep leaves exactly the referenced keys, with their rows
      unchanged, and reports every stored row once. */
  lemma CollectionIsExact(s: State, events: seq<Event>, pid: Pid)
    requires Start(s) && forall e :: e in events ==> Cooperative(e)
    requires ReadyToSweep(Run(s, events), pid)
    ensures ExactSweep(Run(s, events), Run(s, events + [Sweep(pid)]))
  {
    hide Inv, ReadyToSweep, SweepStep, ExactSweep;
    assert (events + [Sweep(pid)])[..|events|] == events;
    ReferencesStayCached(s, events);
    SweepIsExact(Run(s, events), pid);
  }

  // ----- statistics read one instant ------------------------------------------------------------

  predicate SameContent(a: State, b: State) {
    && a.cache == b.cache
    && a.indexes.Keys == b.indexes.Keys
    && forall p :: p in a.indexes ==> a.indexes[p].refs == b.indexes[p].refs
  }

  /** While a shared lease is held no cooperating process changes the cache or a reference,
      so an index read and a cache read under one lease describe the same instant. */
  lemma {:induction false} SharedLeaseFreezesContent(s: State, events: seq<Event>, pid: Pid)
    requires Inv(s) && pid in s.readers
    requires forall e :: e in events ==> Cooperative(e) && e != Unlock(pid)
    ensures Inv(Run(s, events)) && pid in Run(s, events).readers && SameContent(s, Run(s, events))
  {
    if events != [] {
      var before := Run(s, events[..|events| - 1]);
      SharedLeaseFreezesContent(s, events[..|events| - 1], pid);
      StepKeepsInv(before, events[|events| - 1]);
      SharedLeaseStep(before, events[|events| - 1], pid);
    }
  }

  /** Beside a reader there is no writer, so only readers and planners can move. */
  lemma SharedLeaseStep(s: State, e: Event, pid: Pid)
    requires Inv(s) && pid in s.readers && Cooperative(e) && e != Unlock(pid)
    ensures pid in Step(s, e).readers && SameContent(s, Step(s, e))
  {
    hide Tally, Doomed, Published, JobInv;
    if Actor(e).Some? && Holds(s, Actor(e).value) {
      var other := Actor(e).value;
      assert s.writer.None?;
      assert s.jobs[other].Reading?;
      ReaderStep(s, e, pid, other);
    }
  }

  lemma ReaderStep(s: State, e: Event, pid: Pid, other: Pid)
    requires pid in s.readers && Cooperative(e) && e != Unlock(pid)
    requires Actor(e) == Some(other) && Holds(s, other) && s.jobs[other].Reading?
    ensures pid in Step(s, e).readers && SameContent(s, Step(s, e))
  {
    hide Tally, Doomed;
  }

  // ----- exactly when a completed synchronization is complete -----------------------------------------

  predicate PlanInv(indexes: map<Project, Index>, plan: Plan) {
    && plan.generation <= GenerationOf(indexes, plan.project)
    && (plan.generation == GenerationOf(indexes, plan.project) ==> plan.refs == RefsOf(indexes, plan.project))
    && plan.reused <= plan.refs - plan.dropped
  }

  predicate SyncInv(cache: map<Key, Row>, plans: map<Pid, Plan>, pid: Pid, job: Job) {
    job.Syncing? ==>
      && pid in plans && plans[pid].project == job.project && plans[pid].requested == job.requested
      && (job.verified ==> job.requested <= cache.Keys)
  }

  /** What holds in every run, whatever writers without the lease or a damaged cache do. */
  predicate Discipline(s: State) {
    && LeaseInv(s)
    && (forall pid :: pid in s.plans ==> PlanInv(s.indexes, s.plans[pid]))
    && (forall pid :: pid in s.jobs ==> SyncInv(s.cache, s.plans, pid, s.jobs[pid]))
  }

  lemma SyncKeepsDiscipline(s: State, e: Event)
    requires Discipline(s)
    requires e.MakePlan? || e.LockForCheck? || e.CheckUnchanged? || e.LockForSync? || e.Insert? || e.Commit?
    ensures Discipline(Step(s, e))
  {
  }

  lemma CollectKeepsDiscipline(s: State, e: Event)
    requires Discipline(s)
    requires e.LockForGc? || e.Snapshot? || e.Enumerate? || e.ReadIndex? || e.Sweep?
    ensures Discipline(Step(s, e))
  {
    hide Tally, Doomed, PlanInv;
  }

  lemma OtherKeepsDiscipline(s: State, e: Event)
    requires Discipline(s)
    requires e.LockShared? || e.Unlock? || e.Inflight? || e.RogueInsert? || e.RoguePublish? || e.Corrupt?
    ensures Discipline(Step(s, e))
  {
  }

  lemma {:induction false} RunKeepsDiscipline(s: State, events: seq<Event>)
    requires Discipline(s)
    ensures Discipline(Run(s, events))
  {
    hide Discipline, Step;
    if events != [] {
      var before, e := Run(s, events[..|events| - 1]), events[|events| - 1];
      RunKeepsDiscipline(s, events[..|events| - 1]);
      if e.LockShared? || e.Unlock? || e.Inflight? || e.RogueInsert? || e.RoguePublish? || e.Corrupt? {
        OtherKeepsDiscipline(before, e);
      } else if e.LockForGc? || e.Snapshot? || e.Enumerate? || e.ReadIndex? || e.Sweep? {
        CollectKeepsDiscipline(before, e);
      } else {
        SyncKeepsDiscipline(before, e);
      }
    }
  }

  /** Every reference of the project is cached. */
  predicate Complete(s: State, project: Project) { RefsOf(s.indexes, project) <= s.cache.Keys }

  /** A commit leaves its project complete exactly when the references it keeps without having
      stored them itself are cached. */
  lemma CommitIsCompleteExactlyWhen(s: State, pid: Pid)
    requires Discipline(s) && ReadyToCommit(s, pid)
    ensures var plan := s.plans[pid];
      Complete(CommitStep(s, pid), plan.project) <==> plan.refs - plan.dropped - plan.requested <= s.cache.Keys
  {
    var plan := s.plans[pid];
    assert PlanInv(s.indexes, plan) && SyncInv(s.cache, s.plans, pid, s.jobs[pid]);
    var after := CommitStep(s, pid);
    assert after.cache == s.cache && RefsOf(after.indexes, plan.project) == (plan.refs - plan.dropped) + plan.requested;
  }

  /** The kept references that planning could not inspect, and that no lease epoch looks up. */
  function Uninspected(plan: Plan): set<Key> { plan.refs - plan.dropped - plan.reused - plan.requested }

  /** The references reused on the word of the first epoch. */
  function Trusted(plan: Plan): set<Key> { plan.reused - plan.requested }

  /** Over any run between the two epochs of a synchronization: its commit leaves every reference
      of the project cached exactly when no key the first epoch found has vanished since, and the
      references it could not inspect are cached. */
  lemma CompletedSyncExactlyWhen(s: State, pid: Pid, replaced: set<Key>, between: seq<Event>)
    requires Discipline(s) && Holds(s, pid) && s.jobs[pid].Checking? && pid in s.plans && !s.plans[pid].checked
    requires Step(s, CheckUnchanged(pid, replaced)).plans[pid].checked
    requires var checked := Step(s, CheckUnchanged(pid, replaced));
      ReadyToCommit(Run(checked, between), pid) && Run(checked, between).plans[pid] == checked.plans[pid]
    ensures var checked := Step(s, CheckUnchanged(pid, replaced));
      var before, plan := Run(checked, between), checked.plans[pid];
      && Trusted(plan) <= checked.cache.Keys
      && (Complete(Step(before, Commit(pid)), plan.project)
          <==> Trusted(plan) !! checked.cache.Keys - before.cache.Keys && Uninspected(plan) <= before.cache.Keys)
  {
    hide Run, Step, Discipline, CommitStep, Complete;
    var checked := Step(s, CheckUnchanged(pid, replaced));
    var before := Run(checked, between);
    FirstEpochFinds(s, pid, replaced);
    SyncKeepsDiscipline(s, CheckUnchanged(pid, replaced));
    RunKeepsDiscipline(checked, between);
    CommitIsCompleteExactlyWhen(before, pid);
    CommitIsAStep(before, pid);
    var plan := checked.plans[pid];
    assert plan.refs - plan.dropped - plan.requested == Trusted(plan) + Uninspected(plan);
  }

  lemma CommitIsAStep(s: State, pid: Pid)
    requires Holds(s, pid)
    ensures Step(s, Commit(pid)) == CommitStep(s, pid)
  {
  }

  lemma FirstEpochFinds(s: State, pid: Pid, replaced: set<Key>)
    requires Discipline(s) && Holds(s, pid) && s.jobs[pid].Checking? && pid in s.plans && !s.plans[pid].checked
    requires Step(s, CheckUnchanged(pid, replaced)).plans[pid].checked
    ensures var checked := Step(s, CheckUnchanged(pid, replaced));
      && pid in checked.plans
      && Trusted(checked.plans[pid]) <= checked.cache.Keys
      && checked.plans[pid].reused <= checked.plans[pid].refs - checked.plans[pid].dropped
  {
    assert PlanInv(s.indexes, s.plans[pid]);
  }

  /** Among cooperating processes every completed synchronization is complete, although the reuse
      of unchanged references is decided under a lease that is dropped again. */
  lemma CooperativeSyncIsComplete(s: State, events: seq<Event>, pid: Pid)
    requires Start(s) && forall e :: e in events ==> Cooperative(e)
    requires ReadyToCommit(Run(s, events), pid)
    ensures Complete(Step(Run(s, events), Commit(pid)), Run(s, events).plans[pid].project)
  {
    var before := Run(s, events);
    ReferencesStayCached(s, events);
    hide Run;
    CommitKeepsInv(before, pid);
    CommitIsAStep(before, pid);
    var project := before.plans[pid].project;
    assert CommitStep(before, pid).indexes[project].status == Fine;
  }

  // ----- what a synchronization publishes ----------------------------------------------------------------

  /** `after` differs from `before` by one publication of `project`: the index loses `dropped`, gains
      `added` and advances by one generation; every other index and the cache stay as they were. */
  ghost predicate Publishes(before: State, after: State, project: Project, dropped: set<Key>, added: set<Key>) {
    && project in after.indexes && after.indexes[project].status == Fine
    && (forall k :: k in after.indexes[project].refs <==>
          (k in RefsOf(before.indexes, project) && k !in dropped) || k in added)
    && after.indexes[project].generation
       == (if project in before.indexes then before.indexes[project].generation + 1 else 1)
    && (forall p :: p != project ==> (p in after.indexes <==> p in before.indexes))
    && (forall p :: p != project && p in before.indexes ==> after.indexes[p] == before.indexes[p])
    && after.cache == before.cache
  }

  /** A commit publishes exactly what its plan asked for, gives up the lease and is done. */
  lemma CommitPublishes(s: State, pid: Pid)
    requires Discipline(s) && ReadyToCommit(s, pid)
    ensures var after, plan := Step(s, Commit(pid)), s.plans[pid];
      && Publishes(s, after, plan.project, plan.dropped, plan.requested)
      && !Holds(after, pid) && pid !in after.plans && after.writer.None?
  {
    assert SyncInv(s.cache, s.plans, pid, s.jobs[pid]);
    hide PlanInv;
  }

  lemma StartIsDisciplined(s: State)
    requires Start(s)
    ensures Discipline(s)
  {
  }

  /** `pid` makes no new plan. */
  predicate KeepsPlan(e: Event, pid: Pid) { !(e.MakePlan? && e.pid == pid) }

  /** The plan is the one made from these sets; only its requests may have grown, by reused keys. */
  predicate MadeFrom(plan: Plan, made: Plan) {
    && plan.project == made.project && plan.generation == made.generation && plan.refs == made.refs
    && plan.dropped == made.dropped && plan.reused == made.reused
    && made.requested <= plan.requested <= made.requested + made.reused
  }

  lemma PlanStays(s: State, e: Event, pid: Pid, made: Plan)
    requires KeepsPlan(e, pid) && (pid in s.plans ==> MadeFrom(s.plans[pid], made))
    ensures var s' := Step(s, e); pid in s'.plans ==> MadeFrom(s'.plans[pid], made)
  {
    hide Tally, Doomed;
  }

  lemma {:induction false} PlanIsKept(s: State, events: seq<Event>, pid: Pid, made: Plan)
    requires pid in s.plans ==> MadeFrom(s.plans[pid], made)
    requires forall e :: e in events ==> KeepsPlan(e, pid)
    ensures var s' := Run(s, events); pid in s'.plans ==> MadeFrom(s'.plans[pid], made)
  {
    hide Step, MadeFrom, KeepsPlan;
    if events != [] {
      PlanIsKept(s, events[..|events| - 1], pid, made);
      PlanStays(Run(s, events[..|events| - 1]), events[|events| - 1], pid, made);
    }
  }

  /** Whatever anyone does in between, the commit of a plan drops exactly the references the plan
      was to drop and publishes every reference it was made for, beyond them only reused ones. */
  lemma PlannedReferencesArePublished(s: State, plan: Event, events: seq<Event>, pid: Pid)
    requires Start(s) || Discipline(s)
    requires plan.MakePlan? && plan.pid == pid && Step(s, plan) != s && forall e :: e in events ==> KeepsPlan(e, pid)
    requires ReadyToCommit(Run(Step(s, plan), events), pid)
    ensures var before := Run(Step(s, plan), events);
      exists more: set<Key> ::
        && more <= plan.reused
        && Publishes(before, Step(before, Commit(pid)), plan.project, plan.dropped, plan.requested + more)
  {
    if Start(s) {
      StartIsDisciplined(s);
    }
    var planned := Step(s, plan);
    var made := planned.plans[pid];
    assert planned == PlanStep(s, pid, plan.project, plan.requested, plan.dropped, plan.reused);
    assert made.project == plan.project && made.requested == plan.requested;
    assert made.dropped == plan.dropped && made.reused == plan.reused;
    SyncKeepsDiscipline(s, plan);
    RunKeepsDiscipline(planned, events);
    hide Step, Run, Discipline, Publishes, ReadyToCommit, Start;
    PlanIsKept(planned, events, pid, made);
    var before := Run(planned, events);
    ReadyHasPlan(before, pid);
    CommitPublishes(before, pid);
    var more := before.plans[pid].requested - plan.requested;
    assert before.plans[pid].requested == plan.requested + more;
  }

  lemma ReadyHasPlan(s: State, pid: Pid)
    requires ReadyToCommit(s, pid)
    ensures pid in s.plans
  {
  }

  /** The event publishes nothing for the project. */
  predicate Spares(s: State, e: Event, project: Project) {
    && !(e.RoguePublish? && e.project == project)
    && (e.Commit? && e.pid in s.plans ==> s.plans[e.pid].project != project)
  }

  lemma SparedStep(s: State, e: Event, project: Project)
    requires project in s.indexes && s.indexes[project].status != Foreign && Spares(s, e, project)
    ensures var s' := Step(s, e);
      && project in s'.indexes && s'.indexes[project].status != Foreign
      && s'.indexes[project].refs == s.indexes[project].refs
  {
    hide Tally, Doomed;
  }

  lemma {:induction false} SparedRun(s: State, events: seq<Event>, project: Project)
    requires project in s.indexes && s.indexes[project].status != Foreign
    requires forall j :: 0 <= j < |events| ==> Spares(Run(s, events[..j]), events[j], project)
    ensures var s' := Run(s, events);
      && project in s'.indexes && s'.indexes[project].status != Foreign
      && s'.indexes[project].refs == s.indexes[project].refs
  {
    hide Step, Spares;
    if events != [] {
      var before := events[..|events| - 1];
      forall j | 0 <= j < |before| ensures Spares(Run(s, before[..j]), before[j], project) {
        assert before[..j] == events[..j];
      }
      SparedRun(s, before, project);
      SparedStep(Run(s, before), events[|events| - 1], project);
    }
  }

  lemma {:induction false} RunThen(s: State, first: seq<Event>, later: seq<Event>)
    ensures Run(s, first + later) == Run(Run(s, first), later)
  {
    hide Step;
    if later == [] {
      assert first + later == first;
    } else {
      var init := later[..|later| - 1];
      assert (first + later)[..|first + later| - 1] == first + init;
      RunThen(s, first, init);
    }
  }

  /** End to end among cooperating processes: every key a committed plan requested is referenced by
      its project, and cached, after any later run that publishes nothing else for the project. */
  lemma CommittedKeysStay(s: State, events: seq<Event>, pid: Pid, later: seq<Event>, k: Key)
    requires Start(s) && (forall e :: e in events ==> Cooperative(e)) && forall e :: e in later ==> Cooperative(e)
    requires ReadyToCommit(Run(s, events), pid) && k in Run(s, events).plans[pid].requested
    requires var after, project := Step(Run(s, events), Commit(pid)), Run(s, events).plans[pid].project;
      forall j :: 0 <= j < |later| ==> Spares(Run(after, later[..j]), later[j], project)
    ensures var after, project := Step(Run(s, events), Commit(pid)), Run(s, events).plans[pid].project;
      k in RefsOf(Run(after, later).indexes, project) && k in Run(after, later).cache
  {
    var before := Run(s, events);
    var project := before.plans[pid].project;
    StartIsDisciplined(s);
    hide Start, Discipline, Publishes, ReadyToCommit, Spares, Step;
    RunKeepsDiscipline(s, events);
    CommitPublishes(before, pid);
    var all := events + [Commit(pid)] + later;
    var after := Step(before, Commit(pid));
    RunAppend(s, events, Commit(pid));
    RunThen(s, events + [Commit(pid)], later);
    ReferencesStayCached(s, all);
    PublishedHolds(before, after, project, before.plans[pid].dropped, before.plans[pid].requested, k);
    SparedRun(after, later, project);
  }

  lemma PublishedHolds(before: State, after: State, project: Project, dropped: set<Key>, added: set<Key>, k: Key)
    requires Publishes(before, after, project, dropped, added) && k in added
    ensures project in after.indexes && after.indexes[project].status == Fine && k in after.indexes[project].refs
  {
  }

  // ----- leases are granted and epochs complete -----------------------------------------------------------

  /** A free lease is granted to whoever asks: exclusively to a collector, and to readers as long as
      nobody holds it exclusively. */
  lemma FreeLeaseIsGranted(s: State, pid: Pid)
    requires !Holds(s, pid)
    ensures Holds(Step(s, LockForGc(pid)), pid) <==> s.writer.None? && s.readers == {}
    ensures Holds(Step(s, LockShared(pid)), pid) <==> s.writer.None?
    ensures Holds(Step(s, LockForCheck(pid)), pid) <==>
      s.writer.None? && s.readers == {} && pid in s.plans && !s.plans[pid].checked
    ensures Holds(Step(s, LockForSync(pid)), pid) <==>
      s.writer.None? && s.readers == {} && UpToDate(s, pid) && s.plans[pid].checked
  {
  }

  /** Giving a lease up frees it. */
  lemma UnlockFrees(s: State, pid: Pid)
    requires LeaseInv(s) && Holds(s, pid)
    ensures var s' := Step(s, Unlock(pid));
      && !Holds(s', pid) && pid !in s'.readers && s'.writer != Some(pid)
      && (s.writer == Some(pid) ==> s'.writer.None? && s'.readers == {})
  {
  }

  /** Two sets of uncontended steps: a plan with its first epoch, and a second epoch. */
  function Planned(s: State, pid: Pid, plan: Event): State
    requires plan.MakePlan? && plan.pid == pid
  {
    var planned := Step(s, plan);
    if plan.reused == {} then planned
    else Step(Step(planned, LockForCheck(pid)), CheckUnchanged(pid, plan.reused - s.cache.Keys))
  }

  lemma PlannedIs(s: State, pid: Pid, plan: Event)
    requires plan.MakePlan? && plan.pid == pid && CanLock(s, pid) && s.readable
    requires Openable(s.indexes, plan.project) && plan.reused <= RefsOf(s.indexes, plan.project) - plan.dropped
    ensures var refs := RefsOf(s.indexes, plan.project);
      var requested := plan.requested + (plan.reused - s.cache.Keys);
      var generation := GenerationOf(s.indexes, plan.project);
      var made := Plan(plan.project, generation, refs, plan.dropped, plan.reused, requested, true);
      Planned(s, pid, plan) == s.(plans := s.plans[pid := made])
  {
    var planned := Step(s, plan);
    if plan.reused == {} {
      assert plan.requested + (plan.reused - s.cache.Keys) == plan.requested;
    } else {
      var locked := Step(planned, LockForCheck(pid));
      assert locked.jobs - {pid} == s.jobs;
      var made := locked.plans[pid];
      assert locked == planned.(writer := Some(pid), jobs := s.jobs[pid := Checking]);
      var missing := plan.reused - s.cache.Keys;
      assert made.reused - locked.cache.Keys <= missing <= made.reused;
      var done := Step(locked, CheckUnchanged(pid, missing));
      assert done.readers == s.readers;
      assert done.plans == s.plans[pid := made.(requested := made.requested + missing, checked := true)];
    }
  }

  lemma SecondEpoch(s: State, pid: Pid, rows: map<Key, Row>)
    requires CanLock(s, pid) && UpToDate(s, pid) && s.plans[pid].checked && s.readable
    requires s.plans[pid].requested <= rows.Keys
    ensures var before := Step(Step(s, LockForSync(pid)), Insert(pid, rows));
      && ReadyToCommit(before, pid)
      && before.cache.Keys == s.cache.Keys + s.plans[pid].requested
      && forall k :: k in s.cache ==> before.cache[k] == s.cache[k]
  {
    var plan := s.plans[pid];
    var locked := Step(s, LockForSync(pid));
    assert locked.jobs[pid] == Syncing(plan.project, plan.requested, plan.requested == {}) && locked.cache == s.cache;
    var before := Step(locked, Insert(pid, rows));
    assert before.cache.Keys == s.cache.Keys + plan.requested;
  }

  /** Left alone with a sound cache and a readable index, a synchronization goes through: it stores
      what it requests and what was missing, and commits. */
  lemma SyncCompletes(s: State, pid: Pid, plan: Event, rows: map<Key, Row>)
    requires plan.MakePlan? && plan.pid == pid && CanLock(s, pid) && s.readable
    requires Openable(s.indexes, plan.project) && plan.reused <= RefsOf(s.indexes, plan.project) - plan.dropped
    requires plan.requested + plan.reused <= rows.Keys
    ensures var before := Step(Step(Planned(s, pid, plan), LockForSync(pid)), Insert(pid, rows));
      && ReadyToCommit(before, pid)
      && before.cache.Keys == s.cache.Keys + plan.requested + plan.reused
      && forall k :: k in s.cache ==> before.cache[k] == s.cache[k]
  {
    PlannedIs(s, pid, plan);
    var checked := Planned(s, pid, plan);
    hide Planned, Step, ReadyToCommit;
    SecondEpoch(checked, pid, rows);
    var requested := plan.requested + (plan.reused - s.cache.Keys);
    assert s.cache.Keys + requested == s.cache.Keys + plan.requested + plan.reused;
  }

  function Reads(pid: Pid, order: seq<Project>): seq<Event> {
    seq(|order|, i requires 0 <= i < |order| => ReadIndex(pid, order[i]))
  }

  predicate AllReadable(indexes: map<Project, Index>) { forall p :: p in indexes ==> indexes[p].status != Busy }

  /** One pass: every index in some order. */
  lemma {:induction false} PassReads(s: State, pid: Pid, order: seq<Project>, initial: set<Key>)
    requires InEpoch(s, pid, initial) && !s.jobs[pid].failed && AllReadable(s.indexes)
    requires (forall p :: p in order ==> p in s.indexes) && s.jobs[pid].todo <= set p | p in order
    ensures var s' := Run(s, Reads(pid, order));
      && InEpoch(s', pid, initial) && !s'.jobs[pid].failed && s'.jobs[pid].todo == {} && s'.indexes == s.indexes
      && s'.jobs[pid].pass == s.jobs[pid].pass && s'.cache == s.cache && s'.readable == s.readable
    decreases |order|
  {
    if order == [] {
      assert s.jobs[pid].todo == {};
    } else {
      var next := Step(s, ReadIndex(pid, order[0]));
      var rest := order[1..];
      assert order == [order[0]] + rest;
      assert next.jobs[pid].todo == s.jobs[pid].todo - {order[0]};
      assert Reads(pid, order) == [ReadIndex(pid, order[0])] + Reads(pid, rest);
      RunThen(s, [ReadIndex(pid, order[0])], Reads(pid, rest));
      OneEvent(s, ReadIndex(pid, order[0]));
      hide Step, Run, Reads;
      PassReads(next, pid, rest, initial);
    }
  }

  lemma OneEvent(s: State, e: Event)
    ensures Run(s, [e]) == Step(s, e)
  {
    assert [e][..0] == [];
  }

  /** The events of an undisturbed collection that visits the indexes in this order. */
  function Epoch(pid: Pid, order: seq<Project>): seq<Event> {
    [LockForGc(pid), Snapshot(pid), Enumerate(pid)] + Reads(pid, order) + [Enumerate(pid)] + Reads(pid, order)
  }

  lemma EpochBegins(s: State, pid: Pid)
    requires CanLock(s, pid) && s.readable
    ensures var begun := Step(Step(Step(s, LockForGc(pid)), Snapshot(pid)), Enumerate(pid));
      && begun == Run(s, [LockForGc(pid), Snapshot(pid), Enumerate(pid)])
      && InEpoch(begun, pid, s.cache.Keys) && !begun.jobs[pid].failed && begun.jobs[pid].pass == 1
      && begun.jobs[pid].todo == s.indexes.Keys
      && begun.indexes == s.indexes && begun.cache == s.cache && begun.readable
  {
    var e1, e2 := [LockForGc(pid)], [LockForGc(pid), Snapshot(pid)];
    OneEvent(s, LockForGc(pid));
    assert e2 == e1 + [Snapshot(pid)] && [LockForGc(pid), Snapshot(pid), Enumerate(pid)] == e2 + [Enumerate(pid)];
    RunAppend(s, e1, Snapshot(pid));
    RunAppend(s, e2, Enumerate(pid));
    hide Run;
  }

  /** Left alone with a sound cache and readable indexes, a collection reaches its sweep, in whatever
      order it visits them. */
  lemma CollectionCompletes(s: State, pid: Pid, order: seq<Project>)
    requires CanLock(s, pid) && s.readable && AllReadable(s.indexes)
    requires forall p :: p in s.indexes <==> p in order
    ensures ReadyToSweep(Run(s, Epoch(pid, order)), pid)
  {
    EpochBegins(s, pid);
    var start := [LockForGc(pid), Snapshot(pid), Enumerate(pid)];
    var visits := Reads(pid, order);
    var begun := Run(s, start);
    assert begun.jobs[pid].todo <= set p | p in order;
    hide Reads, Run;
    PassReads(begun, pid, order, s.cache.Keys);
    var once := Run(begun, visits);
    var again := Step(once, Enumerate(pid));
    assert again.jobs[pid].todo == s.indexes.Keys && again.jobs[pid].pass == 2 && again.indexes == s.indexes;
    PassReads(again, pid, order, s.cache.Keys);
    hide Step;
    RunThen(s, start, visits);
    RunAppend(s, start + visits, Enumerate(pid));
    RunThen(s, start + visits + [Enumerate(pid)], visits);
  }

  /** The cache is damaged, and a collector that finds it so sets it aside and then gives up. */
  function Quarantine(s: State, collector: Pid): State {
    Step(Step(Step(Step(s, Corrupt), LockForGc(collector)), Snapshot(collector)), Unlock(collector))
  }

  lemma QuarantineEmpties(s: State, collector: Pid)
    requires CanLock(s, collector)
    ensures Quarantine(s, collector) == s.(cache := map[], readable := true)
  {
    var s1 := Step(s, Corrupt);
    var s2 := Step(s1, LockForGc(collector));
    var s3 := Step(s2, Snapshot(collector));
    assert s3.cache == map[] && s3.readable && s3.writer == Some(collector);
    assert s3.jobs - {collector} == s.jobs;
    assert Step(s3, Unlock(collector)).readers == s.readers;
  }

  /** A quarantine between the epochs: the synchronization still commits, and it is complete
      exactly when it stores again everything it keeps. */
  lemma QuarantineBetweenEpochs(s: State, pid: Pid, collector: Pid, rows: map<Key, Row>)
    requires Discipline(s) && CanLock(s, pid) && CanLock(s, collector)
    requires UpToDate(s, pid) && s.plans[pid].checked && s.plans[pid].requested <= rows.Keys
    ensures var plan := s.plans[pid];
      var before := Step(Step(Quarantine(s, collector), LockForSync(pid)), Insert(pid, rows));
      && ReadyToCommit(before, pid)
      && (Complete(Step(before, Commit(pid)), plan.project) <==> plan.refs - plan.dropped <= plan.requested)
  {
    var plan := s.plans[pid];
    QuarantineEmpties(s, collector);
    var emptied := Quarantine(s, collector);
    assert Discipline(emptied) by { EmptyingKeepsDiscipline(s); }
    hide Quarantine;
    var locked := Step(emptied, LockForSync(pid));
    assert locked.jobs[pid] == Syncing(plan.project, plan.requested, plan.requested == {}) && locked.cache == map[];
    var before := Step(locked, Insert(pid, rows));
    assert before.cache.Keys == plan.requested;
    SyncKeepsDiscipline(emptied, LockForSync(pid));
    SyncKeepsDiscipline(locked, Insert(pid, rows));
    CommitIsCompleteExactlyWhen(before, pid);
    CommitIsAStep(before, pid);
  }

  lemma EmptyingKeepsDiscipline(s: State)
    requires Discipline(s) && s.writer.None?
    ensures Discipline(s.(cache := map[], readable := true))
  {
    assert forall pid :: pid in s.jobs ==> s.jobs[pid].Reading?;
  }

  /** One page with reference `k` is unchanged, another gets reference `j`. */
  function TwoPages(k: Key, row: Row): State {
    State(map[k := row], true, map[0 := Index({k}, 1, Fine)], None, {}, map[], map[], [])
  }

  function CheckedTwoPages(k: Key, j: Key, row: Row): State {
    Step(Step(Step(TwoPages(k, row), MakePlan(1, 0, {j}, {}, {k})), LockForCheck(1)), CheckUnchanged(1, {}))
  }

  lemma CheckedTwoPagesIs(k: Key, j: Key, row: Row)
    requires k != j
    ensures CheckedTwoPages(k, j, row) == TwoPages(k, row).(plans := map[1 := Plan(0, 1, {k}, {}, {k}, {j}, true)])
  {
    var s := TwoPages(k, row);
    var planned := Step(s, MakePlan(1, 0, {j}, {}, {k}));
    assert planned == s.(plans := map[1 := Plan(0, 1, {k}, {}, {k}, {j}, false)]);
    var locked := Step(planned, LockForCheck(1));
    assert locked == planned.(writer := Some(1), jobs := map[1 := Checking]);
    assert {j} + {} == {j} && locked.jobs - {1} == map[];
  }

  /** The contract that every reuse is decided under the lease kept until the commit is stronger
      than the code: with one damaged cache between its epochs, a synchronization commits and
      leaves a reference of its own project dangling. */
  lemma QuarantineBetweenEpochsDangles(k: Key, j: Key, row: Row)
    requires k != j
    ensures Start(TwoPages(k, row))
    ensures var before := Step(Step(Quarantine(CheckedTwoPages(k, j, row), 2), LockForSync(1)), Insert(1,
      map[j := row]));
      ReadyToCommit(before, 1) && !Complete(Step(before, Commit(1)), 0)
  {
    CheckedTwoPagesIs(k, j, row);
    var s := CheckedTwoPages(k, j, row);
    hide CheckedTwoPages, Step;
    assert Discipline(s);
    assert k in s.plans[1].refs - s.plans[1].dropped && k !in s.plans[1].requested;
    QuarantineBetweenEpochs(s, 1, 2, map[j := row]);
  }

  // ----- collection beside writers that ignore the lease -----------------------------------------------

  /** The events that end the collection epoch of `pid`. */
  predicate Ends(e: Event, pid: Pid) { e == Unlock(pid) || e == Sweep(pid) }

  predicate InEpoch(s: State, pid: Pid, initial: set<Key>) {
    Holds(s, pid) && s.jobs[pid].Collecting? && s.jobs[pid].initial == Some(initial)
  }

  /** The process an event belongs to. */
  function Actor(e: Event): Option<Pid> {
    match e
    case MakePlan(pid, _, _, _, _) => Some(pid)
    case LockForCheck(pid) => Some(pid)
    case CheckUnchanged(pid, _) => Some(pid)
    case LockForSync(pid) => Some(pid)
    case LockForGc(pid) => Some(pid)
    case LockShared(pid) => Some(pid)
    case Unlock(pid) => Some(pid)
    case Insert(pid, _) => Some(pid)
    case Commit(pid) => Some(pid)
    case Snapshot(pid) => Some(pid)
    case Enumerate(pid) => Some(pid)
    case ReadIndex(pid, _) => Some(pid)
    case Sweep(pid) => Some(pid)
    case _ => None
  }

  lemma OthersLeaveJobAlone(s: State, e: Event, pid: Pid)
    requires Holds(s, pid) && Actor(e) != Some(pid)
    ensures Holds(Step(s, e), pid) && Step(s, e).jobs[pid] == s.jobs[pid]
  {
  }

  lemma EpochStep(s: State, e: Event, pid: Pid, initial: set<Key>)
    requires InEpoch(s, pid, initial) && !Ends(e, pid)
    ensures InEpoch(Step(s, e), pid, initial)
    ensures s.jobs[pid].failed ==> Step(s, e).jobs[pid].failed
  {
    if Actor(e) != Some(pid) {
      OthersLeaveJobAlone(s, e, pid);
    }
  }

  lemma {:induction false} EpochStays(s: State, events: seq<Event>, pid: Pid, initial: set<Key>)
    requires InEpoch(s, pid, initial) && forall e :: e in events ==> !Ends(e, pid)
    ensures InEpoch(Run(s, events), pid, initial)
    ensures s.jobs[pid].failed ==> Run(s, events).jobs[pid].failed
  {
    if events != [] {
      EpochStays(s, events[..|events| - 1], pid, initial);
      EpochStep(Run(s, events[..|events| - 1]), events[|events| - 1], pid, initial);
    }
  }

  /** Whatever any writer does, a key first stored after the initial snapshot survives that
      epoch's sweep. */
  lemma LateKeysSurvive(s: State, events: seq<Event>, pid: Pid, k: Key)
    requires Holds(s, pid) && s.jobs[pid].Collecting? && s.jobs[pid].initial.None?
    requires k !in s.cache
    requires forall e :: e in events ==> !Ends(e, pid)
    ensures var before := Run(Step(s, Snapshot(pid)), events);
      k in before.cache ==> k in Step(before, Sweep(pid)).cache
  {
    var taken := Step(s, Snapshot(pid));
    var initial := taken.jobs[pid].initial.value;
    assert k !in initial;
    hide Step, Run;
    EpochStays(taken, events, pid, initial);
    SweepSparesLate(Run(taken, events), pid, initial, k);
  }

  lemma SweepSparesLate(s: State, pid: Pid, initial: set<Key>, k: Key)
    requires InEpoch(s, pid, initial) && k !in initial
    ensures k in s.cache ==> k in Step(s, Sweep(pid)).cache
  {
    hide Tally;
  }

  /** Whatever any writer does, an epoch that met an unreadable index deletes nothing. */
  lemma UnreadableIndexStopsTheSweep(s: State, project: Project, events: seq<Event>, pid: Pid, initial: set<Key>)
    requires InEpoch(s, pid, initial) && project in s.jobs[pid].todo
    requires project !in s.indexes || s.indexes[project].status == Busy
    requires forall e :: e in events ==> !Ends(e, pid)
    ensures var before := Run(Step(s, ReadIndex(pid, project)), events);
      Step(before, Sweep(pid)) == before
  {
    EpochStays(Step(s, ReadIndex(pid, project)), events, pid, initial);
  }

  /** The index of `p` exists and holds a reference to `k`. */
  predicate Alive(s: State, p: Project, k: Key) {
    p in s.indexes && s.indexes[p].status != Foreign && k in s.indexes[p].refs
  }

  predicate SecondPassSees(s: State, pid: Pid, p: Project, k: Key) {
    && Holds(s, pid) && s.jobs[pid].Collecting? && s.jobs[pid].pass == 2
    && (s.jobs[pid].failed || p in s.jobs[pid].todo || k in s.jobs[pid].live)
  }

  lemma SecondPassStep(s: State, e: Event, pid: Pid, p: Project, k: Key)
    requires SecondPassSees(s, pid, p, k) && Alive(s, p, k) && !Ends(e, pid)
    ensures SecondPassSees(Step(s, e), pid, p, k)
  {
    hide Tally, Doomed;
    if Actor(e) != Some(pid) {
      OthersLeaveJobAlone(s, e, pid);
    }
  }

  lemma {:induction false} SecondPassStays(s: State, events: seq<Event>, pid: Pid, p: Project, k: Key)
    requires SecondPassSees(s, pid, p, k)
    requires forall e :: e in events ==> !Ends(e, pid)
    requires forall j :: 0 <= j <= |events| ==> Alive(Run(s, events[..j]), p, k)
    ensures SecondPassSees(Run(s, events), pid, p, k)
  {
    if events != [] {
      var before := events[..|events| - 1];
      forall j | 0 <= j <= |before| ensures Alive(Run(s, before[..j]), p, k) {
        assert before[..j] == events[..j];
      }
      SecondPassStays(s, before, pid, p, k);
      assert before[..|before|] == before;
      SecondPassStep(Run(s, before), events[|events| - 1], pid, p, k);
    }
  }

  /** A reference published by anyone before the second pass begins, and kept, is spared. */
  lemma EarlyReferencesSurvive(s: State, events: seq<Event>, pid: Pid, p: Project, k: Key)
    requires Holds(s, pid) && s.jobs[pid].Collecting? && s.jobs[pid].initial.Some?
    requires s.jobs[pid].pass == 1 && s.jobs[pid].todo == {} && !s.jobs[pid].failed
    requires Alive(s, p, k)
    requires forall e :: e in events ==> !Ends(e, pid)
    requires forall j :: 0 <= j <= |events| ==> Alive(Run(Step(s, Enumerate(pid)), events[..j]), p, k)
    ensures var before := Run(Step(s, Enumerate(pid)), events);
      k in before.cache ==> k in Step(before, Sweep(pid)).cache
  {
    var begun := Step(s, Enumerate(pid));
    assert SecondPassSees(begun, pid, p, k);
    hide Step, Run, Alive;
    SecondPassStays(begun, events, pid, p, k);
    SweepSpares(Run(begun, events), pid, p, k);
  }

  lemma SweepSpares(s: State, pid: Pid, p: Project, k: Key)
    requires SecondPassSees(s, pid, p, k)
    ensures k in s.cache ==> k in Step(s, Sweep(pid)).cache
  {
  }

  // ----- exactly when the guarantee fails ---------------------------------------------------------------

  /** A sweep of an arbitrary epoch keeps every reference cached if and only if each reference
      was seen by a pass or was stored after the initial snapshot. */
  lemma SweepIsSafeExactlyWhen(s: State, pid: Pid)
    requires ReadyToSweep(s, pid) && Published(s.cache, s.indexes)
    ensures Published(SweepStep(s, pid).cache, s.indexes)
       <==> Referenced(s.indexes) * s.jobs[pid].initial.value <= s.jobs[pid].live
  {
    var doomed := Doomed(s.cache.Keys, s.jobs[pid].initial.value, s.jobs[pid].live);
    var cache := s.cache - doomed;
    assert SweepStep(s, pid).cache == cache;
    if Published(cache, s.indexes) {
      forall k | k in Referenced(s.indexes) && k in s.jobs[pid].initial.value
        ensures k in s.jobs[pid].live
      {
        var p :| p in s.indexes && s.indexes[p].status != Foreign && k in s.indexes[p].refs;
        assert k in cache.Keys;
      }
    }
    if Referenced(s.indexes) * s.jobs[pid].initial.value <= s.jobs[pid].live {
      forall p | p in s.indexes && s.indexes[p].status != Foreign
        ensures s.indexes[p].refs <= cache.Keys
      {
        forall k | k in s.indexes[p].refs ensures k in cache.Keys {
          assert k in Referenced(s.indexes);
        }
      }
    }
  }

  /** Quarantine is the one collector step that can break publication: the snapshot keeps it
      if and only if the cache was readable or nothing is referenced. */
  lemma SnapshotIsSafeExactlyWhen(s: State, pid: Pid)
    requires Holds(s, pid) && s.jobs[pid].Collecting? && s.jobs[pid].initial.None?
    requires Published(s.cache, s.indexes)
    ensures Published(SnapshotStep(s, pid).cache, s.indexes) <==> s.readable || Referenced(s.indexes) == {}
  {
    if !s.readable {
      if Referenced(s.indexes) == {} {
        forall p | p in s.indexes && s.indexes[p].status != Foreign ensures s.indexes[p].refs <= {} {
          assert forall k :: k in s.indexes[p].refs ==> k in Referenced(s.indexes);
        }
      } else {
        var k :| k in Referenced(s.indexes);
        var p :| p in s.indexes && s.indexes[p].status != Foreign && k in s.indexes[p].refs;
        assert !(s.indexes[p].refs <= SnapshotStep(s, pid).cache.Keys);
      }
    }
  }

  /** Without the lease the guarantee is lost: a writer that reuses a cached key and publishes
      it after both passes have read its index is left with a dangling reference. */
  lemma LeaselessPublicationCanDangle()
    ensures exists s: State, events: seq<Event> ::
      && Start(s) && (forall e :: e in events ==> Cooperative(e) || e.RoguePublish?)
      && !Published(Run(s, events).cache, Run(s, events).indexes)
  {
    var k: Key := seq(VECTOR_KEY_BYTES, _ => 0);
    var s := State(map[k := Row([1], 1, [])], true, map[], None, {}, map[], map[], []);
    var ready := EmptyEpoch(s, 1);
    UnseenKeyDangles(ready, 1, 3, k);
    hide Step, Run, Published, Start, ReadyToSweep;
    var e1 := [] + [LockForGc(1)];
    RunAppend(s, [], LockForGc(1));
    RunNone(s);
    var e2 := e1 + [Snapshot(1)];
    RunAppend(s, e1, Snapshot(1));
    var e3 := e2 + [Enumerate(1)];
    RunAppend(s, e2, Enumerate(1));
    var e4 := e3 + [Enumerate(1)];
    RunAppend(s, e3, Enumerate(1));
    var e5 := e4 + [RoguePublish(3, {k})];
    RunAppend(s, e4, RoguePublish(3, {k}));
    RunAppend(s, e5, Sweep(1));
    assert Start(s) && !Published(Run(s, e5 + [Sweep(1)]).cache, Run(s, e5 + [Sweep(1)]).indexes);
  }

  /** Publishing an unseen snapshot key between the passes and the sweep dangles it. */
  lemma UnseenKeyDangles(ready: State, pid: Pid, p: Project, k: Key)
    requires ReadyToSweep(ready, pid)
    requires k in ready.cache && k in ready.jobs[pid].initial.value && k !in ready.jobs[pid].live
    ensures var swept := Step(Step(ready, RoguePublish(p, {k})), Sweep(pid));
      !Published(swept.cache, swept.indexes)
  {
    hide Tally, SweepStep;
    var published := Step(ready, RoguePublish(p, {k}));
    assert published.jobs == ready.jobs && published.cache == ready.cache && published.indexes[p].refs == {k};
    SweepTransaction(published, pid);
    var swept := Step(published, Sweep(pid));
    assert k in swept.indexes[p].refs && k !in swept.cache.Keys;
  }

  lemma RunNone(s: State)
    ensures Run(s, []) == s
  {
  }

  /** An epoch over an empty index directory reaches its sweep after two empty passes. */
  lemma EmptyEpoch(s: State, pid: Pid) returns (ready: State)
    requires Start(s) && s.indexes == map[]
    ensures ready == Step(Step(Step(Step(s, LockForGc(pid)), Snapshot(pid)), Enumerate(pid)), Enumerate(pid))
    ensures ready == s.(writer := Some(pid), jobs := map[pid := Collecting(Some(s.cache.Keys), 2, {}, {}, false)])
  {
    var s1 := Step(s, LockForGc(pid));
    assert s1.jobs == map[pid := Collecting(None, 0, {}, {}, false)];
    var s2 := Step(s1, Snapshot(pid));
    assert s2.jobs == map[pid := Collecting(Some(s.cache.Keys), 0, {}, {}, false)];
    assert s.indexes.Keys == {};
    var s3 := Step(s2, Enumerate(pid));
    assert s3.jobs == map[pid := Collecting(Some(s.cache.Keys), 1, {}, {}, false)];
    ready := Step(s3, Enumerate(pid));
    assert ready.jobs == map[pid := Collecting(Some(s.cache.Keys), 2, {}, {}, false)];
  }

  lemma RunAppend(s: State, events: seq<Event>, e: Event)
    ensures Run(s, events + [e]) == Step(Run(s, events), e)
  {
    assert (events + [e])[..|events|] == events;
  }
}
