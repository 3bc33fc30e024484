/** Every interleaving of the discovery services: the actors are the staff page, the runner's polls, any number of
    submissions that are between their two locked sections, and staff editing drafts and sources. */
module DiscoverySystem {
  import opened Options
  import opened EventOutcomes
  import opened DiscoveryTables

  /** A submission that has passed its early check and is on the network. */
  datatype Job =
    | CandidateJob(run: nat, token: string, url: string)
    | DraftJob(run: nat, token: string, url: string)

  /** What the validation between the two locked sections concluded. */
  datatype Verdict = Rejects(stage: string) | Passes

  /** `issued` remembers every lease token ever drawn. */
  datatype System = System(db: Db, now: int, issued: set<string>, jobs: map<nat, Job>)

  datatype Action =
    | Tick(seconds: nat)
    | Beat
    | GoOffline
    | CreateRun
    | Claim(token: string, provider: string)
    | BeginCandidate(job: nat, run: nat, token: string, url: string)
    | EndCandidate(job: nat, verdict: Verdict)
    | RegisterAccount(run: nat, token: string, url: string, verdict: Verdict)
    | BeginDraft(job: nat, run: nat, token: string, url: string)
    | EndDraft(job: nat, racer: Option<string>)
    | Abandon(job: nat)
    | Complete(run: nat, token: string, report: Report, strip: string -> string)
    | ForeignDraft(url: string)
    | ForeignSource(url: string, enabled: bool)
    | EditSource(source: nat, url: string, enabled: bool)
    | DeleteSource(source: nat)

  function SettleCandidate(db: Db, now: int, run: nat, token: string, url: string, verdict: Verdict, enabled: bool): (Db, Reply) {
    match verdict
    case Rejects(stage) => SaveFailedStep(db, now, run, token, url, stage)
    case Passes => PromoteStep(db, now, run, token, url, enabled)
  }

  function Commit(s: System, step: (Db, Reply)): (System, Reply) {
    (s.(db := step.0), step.1)
  }

  function Begin(s: System, job: nat, j: Job, reply: Reply): (System, Reply) {
    (if reply == Proceed then s.(jobs := s.jobs[job := j]) else s, reply)
  }

  /** One atomic step. Steps that cannot happen leave the system alone: a token drawn before (the tokens are random
      UUIDs), a job number in use, or the end of a job that is not running. */
  function Apply(s: System, a: Action): (System, Reply) {
    match a
    case Tick(d) => (s.(now := s.now + d), Done)
    case Beat =>
      var offline := if s.db.heartbeat.Some? then s.db.heartbeat.value.offlineAt else None;
      (s.(db := s.db.(heartbeat := Some(Heartbeat(s.now, offline)))), Done)
    case GoOffline =>
      if s.db.heartbeat.None? then (s, Done)
      else (s.(db := s.db.(heartbeat := Some(s.db.heartbeat.value.(offlineAt := Some(s.now))))), Done)
    case CreateRun => Commit(s, CreateRunStep(s.db, s.now))
    case Claim(token, provider) =>
      if token == "" || token in s.issued then (s, Done)
      else Commit(s.(issued := s.issued + {token}), ClaimStep(s.db, s.now, token, provider))
    case BeginCandidate(job, run, token, url) =>
      if job in s.jobs then (s, Done)
      else Begin(s, job, CandidateJob(run, token, url), EarlyCandidateStep(s.db, s.now, run, token, url))
    case EndCandidate(job, verdict) =>
      if job !in s.jobs || !s.jobs[job].CandidateJob? then (s, Done)
      else
        var j := s.jobs[job];
        Commit(s.(jobs := s.jobs - {job}), SettleCandidate(s.db, s.now, j.run, j.token, j.url, verdict, true))
    case RegisterAccount(run, token, url, verdict) =>
      Commit(s, SettleCandidate(s.db, s.now, run, token, url, verdict, false))
    case BeginDraft(job, run, token, url) =>
      if job in s.jobs then (s, Done)
      else Begin(s, job, DraftJob(run, token, url), EarlyDraftStep(s.db, s.now, run, token))
    case EndDraft(job, racer) =>
      if job !in s.jobs || !s.jobs[job].DraftJob? then (s, Done)
      else
        var j := s.jobs[job];
        Commit(s.(jobs := s.jobs - {job}), SaveDraftStep(s.db, s.now, j.run, j.token, j.url, racer))
    case Abandon(job) => (s.(jobs := s.jobs - {job}), Done)
    case Complete(run, token, report, strip) => Commit(s, CompleteStep(s.db, s.now, run, token, report, strip))
    case ForeignDraft(url) => (s.(db := ForeignDraftStep(s.db, url)), Done)
    case ForeignSource(url, enabled) => (s.(db := ForeignSourceStep(s.db, url, enabled)), Done)
    case EditSource(source, url, enabled) => (s.(db := EditSourceStep(s.db, source, url, enabled)), Done)
    case DeleteSource(source) => (s.(db := DeleteSourceStep(s.db, source)), Done)
  }

  function After(s: System, actions: seq<Action>): System {
    if actions == [] then s
    else Apply(After(s, actions[..|actions| - 1]), actions[|actions| - 1]).0
  }

  function Initial(now: int): System {
    System(Db(None, [], [], [], map[], 0), now, {}, map[])
  }

  // ---------------------------------------------------------------- what every reachable state satisfies

  predicate Terminal(status: RunStatus) {
    status in {Succeeded, PartiallyFailed, Failed, Expired}
  }

  /** The row-level contract of a run. */
  predicate RunOk(r: Run, now: int, issued: set<string>) {
    && (r.leaseToken != "" <==> r.status == Claimed)
    && (r.status == Claimed ==> r.leaseToken in issued && r.leaseExpiresAt.Some?)
    && (r.leaseExpiresAt.Some? ==> r.leaseExpiresAt.value <= now + LEASE_SECONDS)
    && r.leaseCount <= MAX_LEASES
    && (r.status == Pending ==> r.leaseCount < MAX_LEASES)
    && (r.status != Pending ==> 1 <= r.leaseCount)
    && (r.status == Expired ==> r.leaseCount == MAX_LEASES)
    && (r.finishedAt.Some? <==> Terminal(r.status))
    && (r.startedAt.Some? <==> r.leaseCount > 0)
    && (Active(r) || r.status == Expired ==> r.errorSummary == NoError)
  }

  ghost predicate OneActive(runs: seq<Run>) {
    forall i, j | 0 <= i < j < |runs| :: !(Active(runs[i]) && Active(runs[j]))
  }

  ghost predicate RunsInv(runs: seq<Run>, now: int, issued: set<string>) {
    && (forall i | 0 <= i < |runs| :: RunOk(runs[i], now, issued))
    && OneActive(runs)
  }

  ghost predicate Caps(db: Db) {
    && (forall r: nat :: |StatusesOf(db.candidates, r)| <= MAX_CANDIDATES_PER_RUN)
    && (forall r: nat :: DraftCount(db.drafts, r) <= MAX_EVENTS_PER_RUN)
  }

  ghost predicate UniqueCandidates(cs: seq<Candidate>) {
    forall i, j | 0 <= i < j < |cs| :: !(cs[i].run == cs[j].run && cs[i].url == cs[j].url)
  }

  ghost predicate UniqueDrafts(ds: seq<Draft>) {
    forall i, j | 0 <= i < j < |ds| :: ds[i].url != ds[j].url
  }

  ghost predicate UniqueSources(sources: map<nat, Source>) {
    forall x, y | x in sources && y in sources && x != y :: sources[x].url != sources[y].url
  }

  /** Every promotion points at a stored source, and no two at the same one. */
  ghost predicate Promotions(cs: seq<Candidate>, sources: map<nat, Source>) {
    && (forall i | 0 <= i < |cs| && cs[i].promotedSource.Some? ::
          cs[i].status == Promoted && cs[i].promotedSource.value in sources)
    && (forall i, j | 0 <= i < j < |cs| && cs[i].promotedSource.Some? :: cs[i].promotedSource != cs[j].promotedSource)
  }

  /** Foreign keys point at stored runs, and fresh source keys are fresh. */
  ghost predicate LinksOk(db: Db) {
    && (forall x | x in db.sources :: x < db.nextSource)
    && (forall i | 0 <= i < |db.candidates| :: db.candidates[i].run < |db.runs|)
    && (forall i | 0 <= i < |db.drafts| :: db.drafts[i].run.Some? ==> db.drafts[i].run.value < |db.runs|)
  }

  ghost predicate UniqueRows(db: Db) {
    && UniqueCandidates(db.candidates)
    && UniqueDrafts(db.drafts)
    && UniqueSources(db.sources)
    && Promotions(db.candidates, db.sources)
  }

  /** The stored status of a completed run is what its rows and counters say. */
  predicate Explained(db: Db, i: nat)
    requires i < |db.runs|
  {
    var r := db.runs[i];
    var statuses := StatusesOf(db.candidates, i);
    r.status in {Succeeded, PartiallyFailed, Failed} ==>
      match r.errorSummary
      case NoError =>
        r.status == Combine(ClassifyCandidates(statuses),
                            ClassifyEvents(r.eventsAttempted, r.eventsFailed, DraftCount(db.drafts, i)))
      case RunnerFailed(kind) =>
        && r.status == (if Promoted in statuses then PartiallyFailed else Failed)
        && kind in ALLOWED_FAILURE_KINDS + {""}
  }

  ghost predicate AllExplained(db: Db) {
    forall i: nat | i < |db.runs| :: Explained(db, i)
  }

  ghost predicate JobsOk(s: System) {
    forall j | j in s.jobs :: s.jobs[j].token in s.issued && s.jobs[j].run < |s.db.runs|
  }

  ghost predicate Inv(s: System) {
    && RunsInv(s.db.runs, s.now, s.issued)
    && Caps(s.db)
    && UniqueRows(s.db)
    && LinksOk(s.db)
    && AllExplained(s.db)
    && JobsOk(s)
  }
}
