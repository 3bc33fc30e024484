/** What each call of the discovery services does and answers, said of the rows before and after it. The conditions are
    spelled out here, with the numbers in figures, so that these lemmas do not lean on the definitions they are about. */
module DiscoveryEffects {
  import opened Options
  import opened EventOutcomes
  import opened DiscoveryTables
  import opened DiscoverySystem
  import opened DiscoveryTheorems

  // ---------------------------------------------------------------- what is on the table

  predicate Holds(r: Run, token: string, now: int) {
    r.status == Claimed && r.leaseToken == token && r.leaseExpiresAt.Some? && now < r.leaseExpiresAt.value
  }

  /** The caller shows the token of the run's unexpired lease. */
  predicate Admitted(s: System, run: nat, token: string) {
    run < |s.db.runs| && Holds(s.db.runs[run], token, s.now)
  }

  function RowsOf(candidates: seq<Candidate>, run: nat): set<int> {
    set i | 0 <= i < |candidates| && candidates[i].run == run
  }

  function EventsOf(drafts: seq<Draft>, run: nat): set<int> {
    set i | 0 <= i < |drafts| && drafts[i].run == Some(run)
  }

  predicate HasCandidate(candidates: seq<Candidate>, run: nat, url: string) {
    exists i | 0 <= i < |candidates| :: candidates[i].run == run && candidates[i].url == url
  }

  predicate HasDraft(drafts: seq<Draft>, url: string) {
    exists i | 0 <= i < |drafts| :: drafts[i].url == url
  }

  predicate HasSource(sources: map<nat, Source>, url: string) {
    exists k | k in sources :: sources[k].url == url
  }

  lemma {:induction false} StatusesCountRows(candidates: seq<Candidate>, run: nat)
    ensures |StatusesOf(candidates, run)| == |RowsOf(candidates, run)|
  {
    if candidates != [] {
      var n := |candidates| - 1;
      StatusesCountRows(candidates[..n], run);
      assert RowsOf(candidates, run) == RowsOf(candidates[..n], run) + if candidates[n].run == run then {n} else {};
    }
  }

  lemma {:induction false} DraftCountCountsRows(drafts: seq<Draft>, run: nat)
    ensures DraftCount(drafts, run) == |EventsOf(drafts, run)|
  {
    if drafts != [] {
      var n := |drafts| - 1;
      DraftCountCountsRows(drafts[..n], run);
      assert EventsOf(drafts, run) == EventsOf(drafts[..n], run) + if drafts[n].run == Some(run) then {n} else {};
    }
  }

  lemma SearchesTell(db: Db, run: nat, url: string)
    ensures FindCandidate(db, run, url).Some? <==> HasCandidate(db.candidates, run, url)
    ensures FindDraft(db, url).Some? <==> HasDraft(db.drafts, url)
  {
    var c, d := FindCandidate(db, run, url), FindDraft(db, url);
    if HasCandidate(db.candidates, run, url) {
      var i: nat :| i < |db.candidates| && db.candidates[i].run == run && db.candidates[i].url == url;
      assert IsCandidateAt(db, run, url, i);
    }
    if HasDraft(db.drafts, url) {
      var i: nat :| i < |db.drafts| && db.drafts[i].url == url;
      assert IsDraftAt(db, url, i);
    }
  }

  /** The lease of the run, and nothing else of it, runs 1800 seconds from now. */
  predicate OnlyRenews(runs: seq<Run>, later: seq<Run>, run: nat, now: int) {
    run < |runs| && later == runs[run := runs[run].(leaseExpiresAt := Some(now + 1800))]
  }

  // ---------------------------------------------------------------- candidates

  /** The end of a submission of a candidate, and the one call that registers an account; they differ in whether the
      source is enabled. */
  predicate Settles(s: System, a: Action, run: nat, token: string, url: string, verdict: Verdict, enabled: bool) {
    || (a == RegisterAccount(run, token, url, verdict) && !enabled)
    || (a.EndCandidate? && a.verdict == verdict && a.job in s.jobs && s.jobs[a.job] == CandidateJob(run, token, url) && enabled)
  }

  lemma SettledCandidate(db: Db, now: int, run: nat, token: string, url: string, verdict: Verdict, enabled: bool)
    requires Caps(db)
    ensures var (t, reply) := SettleCandidate(db, now, run, token, url, verdict, enabled);
            var admitted := run < |db.runs| && Holds(db.runs[run], token, now);
            && (!admitted ==> t == db && reply == if run < |db.runs| then LeaseInvalid else RunNotFound)
            && (admitted ==> (reply == Row(|db.candidates|, true) <==>
                                |RowsOf(db.candidates, run)| < 10 && !HasCandidate(db.candidates, run, url)))
            && (reply.Row? && reply.created ==> reply.index == |db.candidates|)
            && (reply.Row? ==> OnlyRenews(db.runs, t.runs, run, now))
            && (!reply.Row? ==> t == db)
            && t.drafts == db.drafts && t.heartbeat == db.heartbeat
  {
    StatusesCountRows(db.candidates, run);
    SearchesTell(db, run, url);
    if run < |db.runs| {
      SearchesTell(Renewed(db, now, run), run, url);
      FindIgnoresRuns(db, Renewed(db, now, run), run, url, 0);
    }
  }

  /** Without the lease nothing is written. With it, a new candidate is stored exactly if the run has fewer than ten and
      none with this URL. */
  lemma CandidateIsStored(s: System, a: Action, run: nat, token: string, url: string, verdict: Verdict, enabled: bool)
    requires Inv(s) && Settles(s, a, run, token, url, verdict, enabled)
    ensures var (t, reply) := Apply(s, a);
            var room := |RowsOf(s.db.candidates, run)| < 10 && !HasCandidate(s.db.candidates, run, url);
            && (!Admitted(s, run, token) ==> t.db == s.db && reply == if run < |s.db.runs| then LeaseInvalid else RunNotFound)
            && (Admitted(s, run, token) ==> (reply == Row(|s.db.candidates|, true) <==> room))
            && (reply.Row? && reply.created ==> reply.index == |s.db.candidates|)
            && (reply.Row? ==> OnlyRenews(s.db.runs, t.db.runs, run, s.now))
            && (!reply.Row? ==> t.db == s.db)
            && t.db.drafts == s.db.drafts && t.db.heartbeat == s.db.heartbeat && t.now == s.now
  {
    SettledCandidate(s.db, s.now, run, token, url, verdict, enabled);
  }

  lemma SettledRow(db: Db, now: int, run: nat, token: string, url: string, verdict: Verdict, enabled: bool)
    requires forall k | k in db.sources :: k < db.nextSource
    ensures var (t, reply) := SettleCandidate(db, now, run, token, url, verdict, enabled);
            StoredRightly(db, t, reply, run, url, verdict, enabled)
  {
  }

  /** A candidate that passed and whose URL no source had is promoted and linked to the one new source; any other is
      rejected, unlinked, and no source changes. */
  predicate StoredRightly(db: Db, t: Db, reply: Reply, run: nat, url: string, verdict: Verdict, enabled: bool) {
    if reply.Row? && reply.created then
      && |t.candidates| == |db.candidates| + 1 && t.candidates[..|db.candidates|] == db.candidates
      && var c := t.candidates[|db.candidates|];
         && c.run == run && c.url == url
         && if verdict.Passes? && !HasSource(db.sources, url) then
              && c.status == Promoted && c.stage == "" && c.promotedSource.Some?
              && c.promotedSource.value !in db.sources
              && t.sources == db.sources[c.promotedSource.value := Source(url, enabled)]
            else
              && c.status == Rejected && c.promotedSource.None? && t.sources == db.sources
              && c.stage == if verdict.Rejects? then verdict.stage else "duplicate"
    else t.candidates == db.candidates && t.sources == db.sources
  }

  lemma StoredCandidateIsRight(s: System, a: Action, run: nat, token: string, url: string, verdict: Verdict, enabled: bool)
    requires Inv(s) && Settles(s, a, run, token, url, verdict, enabled)
    ensures StoredRightly(s.db, Apply(s, a).0.db, Apply(s, a).1, run, url, verdict, enabled)
  {
    SettledRow(s.db, s.now, run, token, url, verdict, enabled);
  }

  /** The early check: a job starts exactly if the lease is live, the run has no such candidate and fewer than ten. A
      candidate that is there is answered with its row. */
  lemma CandidateSubmissionBegins(s: System, job: nat, run: nat, token: string, url: string)
    requires job !in s.jobs
    ensures var (t, reply) := Apply(s, BeginCandidate(job, run, token, url));
            && t.db == s.db
            && (if !Admitted(s, run, token) then reply == if run < |s.db.runs| then LeaseInvalid else RunNotFound
                else if HasCandidate(s.db.candidates, run, url) then
                  && reply.Row? && !reply.created && reply.index < |s.db.candidates|
                  && s.db.candidates[reply.index].run == run && s.db.candidates[reply.index].url == url
                else reply == if |RowsOf(s.db.candidates, run)| < 10 then Proceed else LimitExceeded)
            && t.jobs == if reply == Proceed then s.jobs[job := CandidateJob(run, token, url)] else s.jobs
  {
    StatusesCountRows(s.db.candidates, run);
    SearchesTell(s.db, run, url);
  }

  // ---------------------------------------------------------------- events

  lemma DraftSubmissionBegins(s: System, job: nat, run: nat, token: string, url: string)
    requires job !in s.jobs
    ensures var (t, reply) := Apply(s, BeginDraft(job, run, token, url));
            && t.db == s.db
            && (reply == Proceed <==> Admitted(s, run, token))
            && t.jobs == if reply == Proceed then s.jobs[job := DraftJob(run, token, url)] else s.jobs
  {
  }

  /** What staff insert on their own between the search for a draft and its insertion. */
  function Foreign(drafts: seq<Draft>, racer: Option<string>): seq<Draft> {
    if racer.Some? && !HasDraft(drafts, racer.value) then drafts + [Draft(racer.value, None)] else drafts
  }

  /** The second section of an event's submission: an existing draft with the URL is returned, then the cap of twenty is
      looked at, then the draft is inserted for the run, unless staff insert one with that URL first. */
  predicate EventStoredRightly(db: Db, t: Db, reply: Reply, run: nat, url: string, racer: Option<string>, now: int) {
    if HasDraft(db.drafts, url) then
      && t.drafts == db.drafts && OnlyRenews(db.runs, t.runs, run, now)
      && reply.Row? && !reply.created && reply.index < |db.drafts| && db.drafts[reply.index].url == url
    else if |EventsOf(db.drafts, run)| >= 20 then t == db && reply == LimitExceeded
    else if racer == Some(url) then
      && t.drafts == db.drafts + [Draft(url, None)] && OnlyRenews(db.runs, t.runs, run, now)
      && reply == Row(|db.drafts|, false)
    else
      && t.drafts == Foreign(db.drafts, racer) + [Draft(url, Some(run))] && OnlyRenews(db.runs, t.runs, run, now)
      && reply == Row(|Foreign(db.drafts, racer)|, true)
  }

  lemma SavedEvent(db: Db, now: int, run: nat, token: string, url: string, racer: Option<string>)
    requires ValidLease(db, now, run, token)
    ensures var (t, reply) := SaveDraftStep(db, now, run, token, url, racer);
            t.candidates == db.candidates && t.sources == db.sources && EventStoredRightly(db, t, reply, run, url, racer, now)
  {
    DraftCountCountsRows(db.drafts, run);
    SearchesTell(db, run, url);
    if racer.Some? && !HasDraft(db.drafts, url) {
      SearchesTell(db, run, racer.value);
      ForeignTells(db, racer.value, url);
    }
  }

  lemma ForeignTells(db: Db, racer: string, url: string)
    requires !HasDraft(db.drafts, url)
    ensures var raced := ForeignDraftStep(db, racer);
            && raced.drafts == Foreign(db.drafts, Some(racer)) && raced.runs == db.runs
            && FindDraft(raced, url) == if racer == url then Some(|db.drafts|) else None
  {
    var raced := ForeignDraftStep(db, racer);
    SearchesTell(db, 0, racer);
    var found := FindDraft(raced, url);
    if racer == url {
      assert IsDraftAt(raced, url, |db.drafts|);
    }
    assert found.Some? ==> raced.drafts[found.value].url == url;
    assert forall i | 0 <= i < |db.drafts| :: db.drafts[i].url != url && raced.drafts[i] == db.drafts[i];
  }

  lemma EventIsStored(s: System, job: nat, run: nat, token: string, url: string, racer: Option<string>)
    requires Inv(s) && job in s.jobs && s.jobs[job] == DraftJob(run, token, url)
    ensures var (t, reply) := Apply(s, EndDraft(job, racer));
            && t.db.candidates == s.db.candidates && t.db.sources == s.db.sources && t.jobs == s.jobs - {job}
            && if Admitted(s, run, token) then EventStoredRightly(s.db, t.db, reply, run, url, racer, s.now)
               else t.db == s.db && reply == LeaseInvalid
  {
    if Admitted(s, run, token) {
      SavedEvent(s.db, s.now, run, token, url, racer);
    }
  }

  // ---------------------------------------------------------------- creating and claiming runs

  /** A sign of life records its time and keeps the last farewell; a farewell is recorded only of a runner that was seen. */
  lemma HeartbeatIsRecorded(s: System)
    ensures var beat, bye := Apply(s, Beat).0, Apply(s, GoOffline).0;
            && beat.db.heartbeat.Some? && beat.db.heartbeat.value.lastHeartbeatAt == s.now
            && beat.db.heartbeat.value.offlineAt == (if s.db.heartbeat.Some? then s.db.heartbeat.value.offlineAt else None)
            && beat == s.(db := s.db.(heartbeat := beat.db.heartbeat))
            && bye == if s.db.heartbeat.None? then s
                      else s.(db := s.db.(heartbeat := Some(Heartbeat(s.db.heartbeat.value.lastHeartbeatAt, Some(s.now)))))
  {
  }

  /** A run is created exactly if the runner was heard of within 120 seconds, has not gone offline since, and no run waits
      or is at work. */
  lemma RunIsCreated(s: System)
    ensures var (t, reply) := Apply(s, CreateRun);
            var online := && s.db.heartbeat.Some? && s.now - s.db.heartbeat.value.lastHeartbeatAt <= 120
                          && (s.db.heartbeat.value.offlineAt.Some? ==>
                                s.db.heartbeat.value.offlineAt.value < s.db.heartbeat.value.lastHeartbeatAt);
            var busy := exists i | 0 <= i < |s.db.runs| :: s.db.runs[i].status in {Pending, Claimed};
            if !online then t == s && reply == RunnerOffline
            else if busy then t == s && reply == RunActive
            else
              && reply == Row(|s.db.runs|, true)
              && t == s.(db := s.db.(runs := s.db.runs + [Run(Pending, "", "", None, 0, s.now, None, None, 0, 0, 0, [], NoError)]))
  {
    assert forall i | 0 <= i < |s.db.runs| :: s.db.runs[i] in s.db.runs;
  }

  /** Waiting, or leased to somebody whose time is up, for the first time. */
  predicate Claimable(r: Run, now: int) {
    r.status == Pending || (r.status == Claimed && r.leaseExpiresAt.Some? && r.leaseExpiresAt.value < now && r.leaseCount < 2)
  }

  /** What a claim makes of a run that it does not lease. */
  predicate TidiedUp(r: Run, t: Run, now: int) {
    if r.status == Claimed && r.leaseExpiresAt.Some? && r.leaseExpiresAt.value < now then
      t == if r.leaseCount < 2 then r.(status := Pending, leaseToken := "")
           else r.(status := Expired, finishedAt := Some(now), leaseToken := "")
    else t == r
  }

  /** The claimed run: the oldest of those that can be claimed, under the given token for 1800 seconds. */
  predicate ClaimedRightly(runs: seq<Run>, later: seq<Run>, i: nat, token: string, provider: string, now: int) {
    && i < |runs| && Claimable(runs[i], now)
    && (forall j | 0 <= j < |runs| && Claimable(runs[j], now) :: runs[i].createdAt <= runs[j].createdAt)
    && |later| == |runs|
    && later[i] == runs[i].(status := Claimed, provider := provider, leaseToken := token, leaseExpiresAt := Some(now + 1800),
                            leaseCount := runs[i].leaseCount + 1,
                            startedAt := if runs[i].startedAt.Some? then runs[i].startedAt else Some(now))
    && forall j | 0 <= j < |runs| && j != i :: TidiedUp(runs[j], later[j], now)
  }

  lemma RequeuedIsClaimable(r: Run, now: int)
    ensures Requeued(r, now).status == Pending <==> Claimable(r, now)
    ensures TidiedUp(r, Requeued(r, now), now) && Requeued(r, now).createdAt == r.createdAt
    ensures Requeued(r, now).leaseCount == r.leaseCount && Requeued(r, now).startedAt == r.startedAt
  {
  }

  /** A claim with a fresh token answers that there is nothing to do exactly if no run can be claimed; otherwise it answers
      with the run it has leased. */
  lemma RunIsClaimed(s: System, token: string, provider: string)
    requires token != "" && token !in s.issued
    ensures var (t, reply) := Apply(s, Claim(token, provider));
            && t == s.(issued := s.issued + {token}, db := s.db.(runs := t.db.runs))
            && (reply == NothingToClaim <==> forall i | 0 <= i < |s.db.runs| :: !Claimable(s.db.runs[i], s.now))
            && if reply == NothingToClaim then
                 |t.db.runs| == |s.db.runs| && forall i | 0 <= i < |s.db.runs| :: TidiedUp(s.db.runs[i], t.db.runs[i], s.now)
               else
                 && reply.Row? && !reply.created
                 && ClaimedRightly(s.db.runs, t.db.runs, reply.index, token, provider, s.now)
                 && Admitted(t, reply.index, token)
  {
    forall i | 0 <= i < |s.db.runs|
      ensures Requeued(s.db.runs[i], s.now).status == Pending <==> Claimable(s.db.runs[i], s.now)
      ensures TidiedUp(s.db.runs[i], Requeued(s.db.runs[i], s.now), s.now)
      ensures Requeued(s.db.runs[i], s.now).createdAt == s.db.runs[i].createdAt
    {
      RequeuedIsClaimable(s.db.runs[i], s.now);
    }
    var runs := AllRequeued(s.db.runs, s.now);
    var oldest := OldestPending(runs);
    if oldest.Some? {
      RequeuedIsClaimable(s.db.runs[oldest.value], s.now);
    }
  }

  /** From the first claim on: a run whose holder then goes silent is expired within twice the lease and the polling gap. */
  lemma ClaimedAndAbandonedRunExpires(s: System, token: string, provider: string, run: nat, actions: seq<Action>, gap: nat)
    requires Inv(s) && token != "" && token !in s.issued
    requires Apply(s, Claim(token, provider)).1 == Row(run, false) && run < |s.db.runs| && s.db.runs[run].leaseCount == 0
    requires Abandoned(Apply(s, Claim(token, provider)).0, actions, run, gap)
    requires After(Apply(s, Claim(token, provider)).0, actions).now > s.now + 2 * (1800 + gap)
    ensures var t := After(Apply(s, Claim(token, provider)).0, actions);
            && run < |t.db.runs| && t.db.runs[run].status == Expired
            && t.db.runs[run].finishedAt.Some? && t.db.runs[run].finishedAt.value <= s.now + 2 * (1800 + gap)
  {
    ApplyKeeps(s, Claim(token, provider));
    RunIsClaimed(s, token, provider);
    AbandonedRunExpiresInTime(Apply(s, Claim(token, provider)).0, run, actions, gap);
  }

  // ---------------------------------------------------------------- staff

  /** Staff keep URLs unique: a draft or source with a taken URL is not added, nor is a source moved to one. */
  lemma StaffAddRows(s: System, url: string, enabled: bool)
    requires Inv(s)
    ensures Apply(s, ForeignDraft(url)).0 ==
            if HasDraft(s.db.drafts, url) then s else s.(db := s.db.(drafts := s.db.drafts + [Draft(url, None)]))
    ensures var t := Apply(s, ForeignSource(url, enabled)).0;
            if HasSource(s.db.sources, url) then t == s
            else
              && s.db.nextSource !in s.db.sources
              && t == s.(db := s.db.(sources := s.db.sources[s.db.nextSource := Source(url, enabled)], nextSource := t.db.nextSource))
  {
    SearchesTell(s.db, 0, url);
  }

  lemma StaffEditSources(s: System, key: nat, url: string, enabled: bool)
    ensures Apply(s, EditSource(key, url, enabled)).0 ==
            if key in s.db.sources && (forall k | k in s.db.sources && k != key :: s.db.sources[k].url != url)
            then s.(db := s.db.(sources := s.db.sources[key := Source(url, enabled)])) else s
  {
    EditAsksTheOthers(s.db, key, url);
  }

  /** Deleting a source only clears the links to it. */
  lemma StaffDeleteSources(s: System, key: nat)
    ensures var t := Apply(s, DeleteSource(key)).0;
            && t == s.(db := s.db.(sources := s.db.sources - {key}, candidates := t.db.candidates))
            && |t.db.candidates| == |s.db.candidates|
            && forall i | 0 <= i < |s.db.candidates| ::
                 t.db.candidates[i] == s.db.candidates[i].(promotedSource :=
                   if s.db.candidates[i].promotedSource == Some(key) then None else s.db.candidates[i].promotedSource)
  {
  }

  lemma EditAsksTheOthers(db: Db, key: nat, url: string)
    ensures SourceUrlTaken(db.(sources := db.sources - {key}), url) <==> exists k | k in db.sources && k != key :: db.sources[k].url == url
  {
    var others := db.sources - {key};
    assert forall k | k in db.sources && k != key :: k in others && others[k] == db.sources[k];
  }

  // ---------------------------------------------------------------- completion

  /** A completion writes its own run and nothing else, under the live lease only; counters are cut to what is possible. */
  lemma RunIsCompleted(s: System, run: nat, token: string, report: Report, strip: string -> string)
    ensures var (t, reply) := Apply(s, Complete(run, token, report, strip));
            && t == s.(db := s.db.(runs := t.db.runs))
            && (reply == Done <==> Admitted(s, run, token))
            && if !Admitted(s, run, token) then t == s && reply == if run < |s.db.runs| then LeaseInvalid else RunNotFound
               else
                 && |t.db.runs| == |s.db.runs| && (forall i | 0 <= i < |s.db.runs| && i != run :: t.db.runs[i] == s.db.runs[i])
                 && var r, u := s.db.runs[run], t.db.runs[run];
                    && u == r.(status := u.status, errorSummary := u.errorSummary, finishedAt := Some(s.now), leaseToken := "",
                               eventsAttempted := u.eventsAttempted, eventsFailed := u.eventsFailed,
                               eventsExcluded := u.eventsExcluded, eventOutcomes := u.eventOutcomes)
                    && CutTo(u.eventsAttempted, report.attempted, 20) && CutTo(u.eventsExcluded, report.excluded, 20)
                    && CutTo(u.eventsFailed, report.failedEvents, u.eventsAttempted)
                    && (!report.failed ==> u.errorSummary == r.errorSummary)
                    && (report.failed ==> u.errorSummary == RunnerFailed(
                          if report.failureKind in {"agent_error", "agent_timeout", "invalid_output", "exploration_error", "runner_shutdown"}
                          then report.failureKind else ""))
  {
  }

  /** `x`, or the nearest number from 0 to `top`. */
  predicate CutTo(cut: int, x: int, top: int) {
    cut == if x < 0 then 0 else if x > top then top else x
  }
}
