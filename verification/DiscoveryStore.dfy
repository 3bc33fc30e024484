/** The services themselves, updating the tables in place. Each method commits exactly the step that
    DiscoveryTables describes. */
module DiscoveryStore {
  import opened Options
  import opened EventOutcomes
  import opened DiscoveryTables

  class Store {
    var heartbeat: Option<Heartbeat>
    var runs: seq<Run>
    var candidates: seq<Candidate>
    var drafts: seq<Draft>
    var sources: map<nat, Source>
    var nextSource: nat

    ghost function Tables(): Db
      reads this
    {
      Db(heartbeat, runs, candidates, drafts, sources, nextSource)
    }

    constructor ()
      ensures Tables() == Db(None, [], [], [], map[], 0)
    {
      heartbeat, runs, candidates, drafts, sources, nextSource := None, [], [], [], map[], 0;
    }

    method CreateRun(now: int) returns (reply: Reply)
      modifies this`runs
      ensures (Tables(), reply) == CreateRunStep(old(Tables()), now)
    {
      if !RunnerOnline(heartbeat, now) {
        return RunnerOffline;
      }
      if exists r | r in runs :: Active(r) {
        return RunActive;
      }
      runs := runs + [NewRun(now)];
      reply := Row(|runs| - 1, true);
    }

    /** Lapsed leases are cleaned up one row at a time, then the oldest waiting run is leased. */
    method Claim(now: int, token: string, provider: string) returns (reply: Reply)
      modifies this`runs
      ensures (Tables(), reply) == ClaimStep(old(Tables()), now, token, provider)
    {
      for i := 0 to |runs|
        invariant |runs| == |old(runs)|
        invariant forall j | 0 <= j < i :: runs[j] == Requeued(old(runs)[j], now)
        invariant forall j | i <= j < |runs| :: runs[j] == old(runs)[j]
      {
        var run := runs[i];
        if run.status == Claimed && run.leaseExpiresAt.Some? && run.leaseExpiresAt.value < now {
          if run.leaseCount >= MAX_LEASES {
            run := run.(status := Expired, finishedAt := Some(now), leaseToken := "");
          } else {
            run := run.(status := Pending, leaseToken := "");
          }
          runs := runs[i := run];
        }
      }
      assert runs == AllRequeued(old(runs), now);
      var oldest := OldestPending(runs);
      if oldest.None? {
        return NothingToClaim;
      }
      var run := runs[oldest.value];
      run := run.(status := Claimed, provider := provider, leaseToken := token);
      run := run.(leaseExpiresAt := Some(now + LEASE_SECONDS), leaseCount := run.leaseCount + 1);
      if run.startedAt.None? {
        run := run.(startedAt := Some(now));
      }
      runs := runs[oldest.value := run];
      reply := Row(oldest.value, false);
    }

    /** Done stands for the locked run that the caller goes on to use. */
    method LockedRunWithValidLease(run: nat, token: string, now: int) returns (reply: Reply)
      ensures reply == if run >= |runs| then RunNotFound else if ValidLease(Tables(), now, run, token) then Done else LeaseInvalid
    {
      if run >= |runs| {
        return RunNotFound;
      }
      if runs[run].status != Claimed {
        return LeaseInvalid;
      }
      if runs[run].leaseToken != token {
        return LeaseInvalid;
      }
      if runs[run].leaseExpiresAt.None? || runs[run].leaseExpiresAt.value <= now {
        return LeaseInvalid;
      }
      reply := Done;
    }

    method RenewLease(run: nat, now: int)
      requires run < |runs|
      modifies this`runs
      ensures Tables() == Renewed(old(Tables()), now, run)
    {
      runs := runs[run := runs[run].(leaseExpiresAt := Some(now + LEASE_SECONDS))];
    }

    method CandidateRow(run: nat, url: string) returns (found: Option<nat>)
      ensures found == FindCandidate(Tables(), run, url)
    {
      found := None;
      for i := |candidates| downto 0
        invariant found == FindCandidate(Tables(), run, url, i)
      {
        if candidates[i].run == run && candidates[i].url == url {
          found := Some(i);
        }
      }
    }

    method DraftRow(url: string) returns (found: Option<nat>)
      ensures found == FindDraft(Tables(), url)
    {
      found := None;
      for i := |drafts| downto 0
        invariant found == FindDraft(Tables(), url, i)
      {
        if drafts[i].url == url {
          found := Some(i);
        }
      }
    }

    method CountCandidates(run: nat) returns (count: nat)
      ensures count == CandidateCount(Tables(), run)
    {
      count := 0;
      for i := 0 to |candidates|
        invariant count == |StatusesOf(candidates[..i], run)|
      {
        assert candidates[..i + 1][..i] == candidates[..i];
        if candidates[i].run == run {
          count := count + 1;
        }
      }
      assert candidates[..|candidates|] == candidates;
    }

    method CountDrafts(run: nat) returns (count: nat)
      ensures count == DraftCount(drafts, run)
    {
      count := 0;
      for i := 0 to |drafts|
        invariant count == DraftCount(drafts[..i], run)
      {
        assert drafts[..i + 1][..i] == drafts[..i];
        if drafts[i].run == Some(run) {
          count := count + 1;
        }
      }
      assert drafts[..|drafts|] == drafts;
    }

    method SubmitCandidateEarly(run: nat, token: string, url: string, now: int) returns (reply: Reply)
      ensures reply == EarlyCandidateStep(Tables(), now, run, token, url)
    {
      reply := LockedRunWithValidLease(run, token, now);
      if reply != Done {
        return;
      }
      var existing := CandidateRow(run, url);
      if existing.Some? {
        return Row(existing.value, false);
      }
      var count := CountCandidates(run);
      reply := if count >= MAX_CANDIDATES_PER_RUN then LimitExceeded else Proceed;
    }

    method SaveFailedCandidate(run: nat, token: string, url: string, stage: string, now: int) returns (reply: Reply)
      modifies this`runs, this`candidates
      ensures (Tables(), reply) == SaveFailedStep(old(Tables()), now, run, token, url, stage)
    {
      var savepoint := runs;
      reply := LockedRunWithValidLease(run, token, now);
      if reply != Done {
        return;
      }
      RenewLease(run, now);
      var count := CountCandidates(run);
      if count >= MAX_CANDIDATES_PER_RUN {
        runs := savepoint;
        return LimitExceeded;
      }
      var existing := CandidateRow(run, url);
      FindIgnoresRuns(old(Tables()), Tables(), run, url, 0);
      if existing.Some? {
        return Row(existing.value, false);
      }
      candidates := candidates + [Candidate(run, url, Rejected, stage, None)];
      reply := Row(|candidates| - 1, true);
    }

    method PromoteCandidate(run: nat, token: string, url: string, enabled: bool, now: int) returns (reply: Reply)
      modifies this`runs, this`candidates, this`sources, this`nextSource
      ensures (Tables(), reply) == PromoteStep(old(Tables()), now, run, token, url, enabled)
    {
      var savepoint := (runs, sources, nextSource);
      reply := LockedRunWithValidLease(run, token, now);
      if reply != Done {
        return;
      }
      RenewLease(run, now);
      var count := CountCandidates(run);
      if count >= MAX_CANDIDATES_PER_RUN {
        runs := savepoint.0;
        return LimitExceeded;
      }
      if exists s | s in sources :: sources[s].url == url {
        RenewalIsIdempotent(old(Tables()), run, token, url, "duplicate", now);
        reply := SaveFailedCandidate(run, token, url, "duplicate", now);
        return;
      }
      var source := nextSource;
      sources, nextSource := sources[source := Source(url, enabled)], source + 1;
      var existing := CandidateRow(run, url);
      FindIgnoresRuns(old(Tables()), Tables(), run, url, 0);
      if existing.Some? {
        runs, sources, nextSource := savepoint.0, savepoint.1, savepoint.2;
        return IntegrityFailure;
      }
      candidates := candidates + [Candidate(run, url, Promoted, "", Some(source))];
      reply := Row(|candidates| - 1, true);
    }

    method InsertForeignDraft(url: string)
      modifies this`drafts
      ensures Tables() == ForeignDraftStep(old(Tables()), url)
    {
      var existing := DraftRow(url);
      if existing.None? {
        drafts := drafts + [Draft(url, None)];
      }
    }

    method SubmitAgentDraftLocked(run: nat, token: string, url: string, racer: Option<string>, now: int) returns (reply: Reply)
      modifies this`runs, this`drafts
      ensures (Tables(), reply) == SaveDraftStep(old(Tables()), now, run, token, url, racer)
    {
      var savepoint := runs;
      reply := LockedRunWithValidLease(run, token, now);
      if reply != Done {
        return;
      }
      RenewLease(run, now);
      var existing := DraftRow(url);
      FindDraftIgnoresRuns(old(Tables()), Tables(), url, 0);
      if existing.Some? {
        return Row(existing.value, false);
      }
      var count := CountDrafts(run);
      if count >= MAX_EVENTS_PER_RUN {
        runs := savepoint;
        return LimitExceeded;
      }
      ghost var raced := if racer.None? then old(Tables()) else ForeignDraftStep(old(Tables()), racer.value);
      if racer.Some? {
        FindDraftIgnoresRuns(old(Tables()), Tables(), racer.value, 0);
        InsertForeignDraft(racer.value);
      }
      assert Tables() == Renewed(raced, now, run);
      existing := DraftRow(url);
      FindDraftIgnoresRuns(raced, Tables(), url, 0);
      if existing.Some? {
        return Row(existing.value, false);
      }
      drafts := drafts + [Draft(url, Some(run))];
      reply := Row(|drafts| - 1, true);
    }

    method CompleteRun(run: nat, token: string, report: Report, strip: string -> string, now: int) returns (reply: Reply)
      modifies this`runs
      ensures (Tables(), reply) == CompleteStep(old(Tables()), now, run, token, report, strip)
    {
      var attempted := Clamp(report.attempted, MAX_EVENTS_PER_RUN);
      var failed := Clamp(report.failedEvents, attempted);
      var excluded := Clamp(report.excluded, MAX_EVENTS_PER_RUN);
      reply := LockedRunWithValidLease(run, token, now);
      if reply != Done {
        return;
      }
      var row := runs[run];
      var statuses := StatusesOf(candidates, run);
      if report.failed {
        row := row.(status := if Promoted in statuses then PartiallyFailed else Failed,
        errorSummary := RunnerFailed(if report.failureKind in ALLOWED_FAILURE_KINDS then report.failureKind else ""));
      } else {
        var created := CountDrafts(run);
        row := row.(status := Combine(ClassifyCandidates(statuses), ClassifyEvents(attempted, failed, created)));
      }
      row := row.(finishedAt := Some(now), leaseToken := "");
      row := row.(eventsAttempted := attempted, eventsFailed := failed, eventsExcluded := excluded);
      var known := set d | d in drafts && d.run == Some(run) :: d.url;
      var outcomes, dropped := CleanEventOutcomes(report.outcomes, known, strip);
      runs := runs[run := row.(eventOutcomes := outcomes)];
      reply := Done;
    }
  }

  /** A section nested in one that has renewed the lease already commits the same state. */
  lemma RenewalIsIdempotent(db: Db, run: nat, token: string, url: string, stage: string, now: int)
    requires ValidLease(db, now, run, token)
    requires CandidateCount(db, run) < MAX_CANDIDATES_PER_RUN
    ensures SaveFailedStep(Renewed(db, now, run), now, run, token, url, stage) == SaveFailedStep(db, now, run, token, url, stage)
  {
    var renewed := Renewed(db, now, run);
    FindIgnoresRuns(db, renewed, run, url, 0);
    assert Renewed(renewed, now, run).runs == renewed.runs;
  }
}
