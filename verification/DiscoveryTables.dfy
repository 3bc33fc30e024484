/** The tables behind a discovery run and, for each locked section of the services that write them, the state the
    section commits and the answer it gives (drafts/discovery_runs.py, drafts/candidate_validation.py,
    drafts/agent_drafts.py). A section that raises commits nothing. */
module DiscoveryTables {
  import opened Options
  import opened EventOutcomes

  const HEARTBEAT_FRESH_SECONDS := 120
  const LEASE_SECONDS := 1800
  const MAX_LEASES := 2
  const MAX_CANDIDATES_PER_RUN := 10

  const ALLOWED_FAILURE_KINDS := {"agent_error", "agent_timeout", "invalid_output", "exploration_error", "runner_shutdown"}

  datatype Heartbeat = Heartbeat(lastHeartbeatAt: int, offlineAt: Option<int>)

  /** RunnerFailed keeps the failure kind the runner named when it is on the allow-list, "" otherwise. */
  datatype ErrorSummary = NoError | RunnerFailed(kind: string)

  datatype Run = Run(
    status: RunStatus,
    provider: string,
    leaseToken: string,
    leaseExpiresAt: Option<int>,
    leaseCount: nat,
    createdAt: int,
    startedAt: Option<int>,
    finishedAt: Option<int>,
    eventsAttempted: int,
    eventsFailed: int,
    eventsExcluded: int,
    eventOutcomes: seq<EventOutcome>,
    errorSummary: ErrorSummary)

  datatype Candidate = Candidate(run: nat, url: string, status: CandidateStatus, stage: string, promotedSource: Option<nat>)

  /** `run` is empty for drafts that did not come from a discovery run. */
  datatype Draft = Draft(url: string, run: Option<nat>)

  datatype Source = Source(url: string, enabled: bool)

  /** Runs, candidates and drafts are never deleted, so a row's key is its position. Sources can be deleted by staff. */
  datatype Db = Db(
    heartbeat: Option<Heartbeat>,
    runs: seq<Run>,
    candidates: seq<Candidate>,
    drafts: seq<Draft>,
    sources: map<nat, Source>,
    nextSource: nat)

  datatype Reply =
    | Done
    | RunnerOffline
    | RunActive
    | NothingToClaim
    | RunNotFound
    | LeaseInvalid
    | LimitExceeded
    | IntegrityFailure
    | Proceed
    | Row(index: nat, created: bool)

  datatype Report = Report(
    failed: bool,
    failureKind: string,
    attempted: int,
    failedEvents: int,
    excluded: int,
    outcomes: seq<RawOutcome>)

  // ---------------------------------------------------------------- queries

  predicate Active(run: Run) {
    run.status == Pending || run.status == Claimed
  }

  predicate ValidLease(db: Db, now: int, run: nat, token: string) {
    && run < |db.runs|
    && db.runs[run].status == Claimed
    && db.runs[run].leaseToken == token
    && db.runs[run].leaseExpiresAt.Some?
    && db.runs[run].leaseExpiresAt.value > now
  }

  function StatusesOf(candidates: seq<Candidate>, run: nat): seq<CandidateStatus> {
    if candidates == [] then []
    else
      var last := candidates[|candidates| - 1];
      StatusesOf(candidates[..|candidates| - 1], run) + if last.run == run then [last.status] else []
  }

  function CandidateCount(db: Db, run: nat): nat {
    |StatusesOf(db.candidates, run)|
  }

  function DraftCount(drafts: seq<Draft>, run: nat): nat {
    if drafts == [] then 0
    else
      DraftCount(drafts[..|drafts| - 1], run) + if drafts[|drafts| - 1].run == Some(run) then 1 else 0
  }

  predicate IsCandidateAt(db: Db, run: nat, url: string, i: nat) {
    i < |db.candidates| && db.candidates[i].run == run && db.candidates[i].url == url
  }

  predicate IsDraftAt(db: Db, url: string, i: nat) {
    i < |db.drafts| && db.drafts[i].url == url
  }

  /** The first candidate of the run with that URL. */
  function FindCandidate(db: Db, run: nat, url: string, from: nat := 0): (r: Option<nat>)
    requires from <= |db.candidates|
    ensures r.Some? ==> from <= r.value && IsCandidateAt(db, run, url, r.value)
    ensures r.Some? ==> forall i | from <= i < r.value :: !IsCandidateAt(db, run, url, i)
    ensures r.None? ==> forall i | from <= i < |db.candidates| :: !IsCandidateAt(db, run, url, i)
    decreases |db.candidates| - from
  {
    if from == |db.candidates| then None
    else if IsCandidateAt(db, run, url, from) then Some(from)
    else FindCandidate(db, run, url, from + 1)
  }

  function FindDraft(db: Db, url: string, from: nat := 0): (r: Option<nat>)
    requires from <= |db.drafts|
    ensures r.Some? ==> from <= r.value && IsDraftAt(db, url, r.value)
    ensures r.Some? ==> forall i | from <= i < r.value :: !IsDraftAt(db, url, i)
    ensures r.None? ==> forall i | from <= i < |db.drafts| :: !IsDraftAt(db, url, i)
    decreases |db.drafts| - from
  {
    if from == |db.drafts| then None
    else if IsDraftAt(db, url, from) then Some(from)
    else FindDraft(db, url, from + 1)
  }

  predicate SourceUrlTaken(db: Db, url: string) {
    exists s | s in db.sources :: db.sources[s].url == url
  }

  function CreatedUrls(db: Db, run: nat): set<string> {
    set d | d in db.drafts && d.run == Some(run) :: d.url
  }

  predicate RunnerOnline(heartbeat: Option<Heartbeat>, now: int) {
    && heartbeat.Some?
    && heartbeat.value.lastHeartbeatAt >= now - HEARTBEAT_FRESH_SECONDS
    && (heartbeat.value.offlineAt.None? || heartbeat.value.offlineAt.value < heartbeat.value.lastHeartbeatAt)
  }

  // ---------------------------------------------------------------- runs and leases

  function NewRun(now: int): Run {
    Run(Pending, "", "", None, 0, now, None, None, 0, 0, 0, [], NoError)
  }

  function CreateRunStep(db: Db, now: int): (Db, Reply) {
    if !RunnerOnline(db.heartbeat, now) then (db, RunnerOffline)
    else if exists r | r in db.runs :: Active(r) then (db, RunActive)
    else (db.(runs := db.runs + [NewRun(now)]), Row(|db.runs|, true))
  }

  /** What the next claim makes of a run whose lease has run out. */
  function Requeued(run: Run, now: int): Run {
    if run.status != Claimed || run.leaseExpiresAt.None? || run.leaseExpiresAt.value >= now then run
    else if run.leaseCount >= MAX_LEASES then run.(status := Expired, finishedAt := Some(now), leaseToken := "")
    else run.(status := Pending, leaseToken := "")
  }

  function AllRequeued(runs: seq<Run>, now: int): (r: seq<Run>)
    ensures |r| == |runs|
    ensures forall i | 0 <= i < |runs| :: r[i] == Requeued(runs[i], now)
  {
    seq(|runs|, i requires 0 <= i < |runs| => Requeued(runs[i], now))
  }

  /** The position of the oldest waiting run. */
  function OldestPending(runs: seq<Run>): (r: Option<nat>)
    ensures r.Some? ==>
              && r.value < |runs| && runs[r.value].status == Pending
              && forall i | 0 <= i < |runs| && runs[i].status == Pending :: runs[r.value].createdAt <= runs[i].createdAt
    ensures r.None? ==> forall i | 0 <= i < |runs| :: runs[i].status != Pending
  {
    if runs == [] then None
    else
      var n := |runs| - 1;
      var earlier := OldestPending(runs[..n]);
      if runs[n].status == Pending && (earlier.None? || runs[n].createdAt < runs[earlier.value].createdAt) then Some(n)
      else earlier
  }

  function Leased(run: Run, now: int, token: string, provider: string): Run {
    run.(status := Claimed, provider := provider, leaseToken := token, leaseExpiresAt := Some(now + LEASE_SECONDS),
         leaseCount := run.leaseCount + 1, startedAt := if run.startedAt.None? then Some(now) else run.startedAt)
  }

  function ClaimStep(db: Db, now: int, token: string, provider: string): (Db, Reply) {
    var runs := AllRequeued(db.runs, now);
    match OldestPending(runs)
    case None => (db.(runs := runs), NothingToClaim)
    case Some(i) => (db.(runs := runs[i := Leased(runs[i], now, token, provider)]), Row(i, false))
  }

  function Renewed(db: Db, now: int, run: nat): Db
    requires run < |db.runs|
  {
    db.(runs := db.runs[run := db.runs[run].(leaseExpiresAt := Some(now + LEASE_SECONDS))])
  }

  function Clamp(x: int, top: int): int {
    var capped := if x < top then x else top;
    if capped < 0 then 0 else capped
  }

  function Finished(db: Db, now: int, run: nat, report: Report, strip: string -> string): Run
    requires run < |db.runs|
  {
    var statuses := StatusesOf(db.candidates, run);
    var attempted := Clamp(report.attempted, MAX_EVENTS_PER_RUN);
    var failed := Clamp(report.failedEvents, attempted);
    var status :=
      if report.failed then if Promoted in statuses then PartiallyFailed else Failed
      else Combine(ClassifyCandidates(statuses), ClassifyEvents(attempted, failed, DraftCount(db.drafts, run)));
    db.runs[run].(
    status := status,
    errorSummary :=
      if !report.failed then db.runs[run].errorSummary
      else RunnerFailed(if report.failureKind in ALLOWED_FAILURE_KINDS then report.failureKind else ""),
    finishedAt := Some(now),
    leaseToken := "",
    eventsAttempted := attempted,
    eventsFailed := failed,
    eventsExcluded := Clamp(report.excluded, MAX_EVENTS_PER_RUN),
    eventOutcomes := CleanOutcomes(report.outcomes, CreatedUrls(db, run), strip))
  }

  function CompleteStep(db: Db, now: int, run: nat, token: string, report: Report, strip: string -> string): (Db, Reply) {
    if run >= |db.runs| then (db, RunNotFound)
    else if !ValidLease(db, now, run, token) then (db, LeaseInvalid)
    else (db.(runs := db.runs[run := Finished(db, now, run, report, strip)]), Done)
  }

  // ---------------------------------------------------------------- candidates

  /** The early check of `submit_candidate`, before any network access. */
  function EarlyCandidateStep(db: Db, now: int, run: nat, token: string, url: string): Reply {
    if run >= |db.runs| then RunNotFound
    else if !ValidLease(db, now, run, token) then LeaseInvalid
    else match FindCandidate(db, run, url)
      case Some(i) => Row(i, false)
      case None => if CandidateCount(db, run) >= MAX_CANDIDATES_PER_RUN then LimitExceeded else Proceed
  }

  /** `_save_failed_candidate`: the lease is renewed, but a submission over the cap raises and takes that back. */
  function SaveFailedStep(db: Db, now: int, run: nat, token: string, url: string, stage: string): (Db, Reply) {
    if run >= |db.runs| then (db, RunNotFound)
    else if !ValidLease(db, now, run, token) then (db, LeaseInvalid)
    else if CandidateCount(db, run) >= MAX_CANDIDATES_PER_RUN then (db, LimitExceeded)
    else
      var renewed := Renewed(db, now, run);
      match FindCandidate(db, run, url)
      case Some(i) => (renewed, Row(i, false))
      case None =>
        (renewed.(candidates := db.candidates + [Candidate(run, url, Rejected, stage, None)]), Row(|db.candidates|, true))
  }

  /** The promoting section of `submit_candidate` and of `register_account_source`. When the source URL is taken the
      candidate is saved as a rejected duplicate in the same transaction; when the candidate itself already exists the
      second insert fails and undoes the source as well. */
  function PromoteStep(db: Db, now: int, run: nat, token: string, url: string, enabled: bool): (Db, Reply) {
    if run >= |db.runs| then (db, RunNotFound)
    else if !ValidLease(db, now, run, token) then (db, LeaseInvalid)
    else if CandidateCount(db, run) >= MAX_CANDIDATES_PER_RUN then (db, LimitExceeded)
    else if SourceUrlTaken(db, url) then SaveFailedStep(db, now, run, token, url, "duplicate")
    else if FindCandidate(db, run, url).Some? then (db, IntegrityFailure)
    else
      (Renewed(db, now, run).(
       sources := db.sources[db.nextSource := Source(url, enabled)],
       nextSource := db.nextSource + 1,
       candidates := db.candidates + [Candidate(run, url, Promoted, "", Some(db.nextSource))]),
       Row(|db.candidates|, true))
  }

  // ---------------------------------------------------------------- drafts and sources of other origin

  function EarlyDraftStep(db: Db, now: int, run: nat, token: string): Reply {
    if run >= |db.runs| then RunNotFound
    else if !ValidLease(db, now, run, token) then LeaseInvalid
    else Proceed
  }

  function ForeignDraftStep(db: Db, url: string): Db {
    if FindDraft(db, url).Some? then db else db.(drafts := db.drafts + [Draft(url, None)])
  }

  /** The second locked section of `submit_agent_draft`. Staff can insert drafts without the run lock, so one more
      insert, of `racer`, may commit between the search for an existing draft and the insert. */
  function SaveDraftStep(db: Db, now: int, run: nat, token: string, url: string, racer: Option<string>): (Db, Reply) {
    if run >= |db.runs| then (db, RunNotFound)
    else if !ValidLease(db, now, run, token) then (db, LeaseInvalid)
    else if FindDraft(db, url).Some? then (Renewed(db, now, run), Row(FindDraft(db, url).value, false))
    else if DraftCount(db.drafts, run) >= MAX_EVENTS_PER_RUN then (db, LimitExceeded)
    else
      var raced := if racer.None? then db else ForeignDraftStep(db, racer.value);
      var renewed := Renewed(raced, now, run);
      match FindDraft(raced, url)
      case Some(i) => (renewed, Row(i, false))
      case None => (renewed.(drafts := raced.drafts + [Draft(url, Some(run))]), Row(|raced.drafts|, true))
  }

  function ForeignSourceStep(db: Db, url: string, enabled: bool): Db {
    if SourceUrlTaken(db, url) then db
    else db.(sources := db.sources[db.nextSource := Source(url, enabled)], nextSource := db.nextSource + 1)
  }

  /** Staff change a source in the admin; its URL stays unique. */
  function EditSourceStep(db: Db, source: nat, url: string, enabled: bool): Db {
    if source !in db.sources || SourceUrlTaken(db.(sources := db.sources - {source}), url) then db
    else db.(sources := db.sources[source := Source(url, enabled)])
  }

  function Detached(c: Candidate, source: nat): Candidate {
    if c.promotedSource == Some(source) then c.(promotedSource := None) else c
  }

  /** Deleting a source clears the links to it. */
  function DeleteSourceStep(db: Db, source: nat): Db {
    db.(sources := db.sources - {source},
        candidates := seq(|db.candidates|, i requires 0 <= i < |db.candidates| => Detached(db.candidates[i], source)))
  }

  // Lookups read one table only.

  lemma {:induction false} FindIgnoresRuns(a: Db, b: Db, run: nat, url: string, from: nat)
    requires a.candidates == b.candidates && from <= |a.candidates|
    ensures FindCandidate(a, run, url, from) == FindCandidate(b, run, url, from)
    decreases |a.candidates| - from
  {
    if from < |a.candidates| {
      FindIgnoresRuns(a, b, run, url, from + 1);
    }
  }

  lemma {:induction false} FindDraftIgnoresRuns(a: Db, b: Db, url: string, from: nat)
    requires a.drafts == b.drafts && from <= |a.drafts|
    ensures FindDraft(a, url, from) == FindDraft(b, url, from)
    decreases |a.drafts| - from
  {
    if from < |a.drafts| {
      FindDraftIgnoresRuns(a, b, url, from + 1);
    }
  }
}
