/** What holds over whole runs of the discovery protocol. */
module DiscoveryTheorems {
  import opened Options
  import opened EventOutcomes
  import opened DiscoveryTables
  import opened DiscoverySystem
  import opened DiscoverySafety

  // ---------------------------------------------------------------- the invariant

  lemma SettleKeeps(db: Db, now: int, issued: set<string>, run: nat, token: string, url: string, verdict: Verdict, enabled: bool)
    requires RowsInv(db) && RunsInv(db.runs, now, issued)
    ensures var after := SettleCandidate(db, now, run, token, url, verdict, enabled).0;
            RowsInv(after) && RunsInv(after.runs, now, issued) && |after.runs| == |db.runs|
  {
    if ValidLease(db, now, run, token) {
      RenewKeepsRuns(db, now, issued, run, token);
    }
    match verdict
    case Rejects(stage) => SaveFailedKeepsRows(db, now, run, token, url, stage);
    case Passes => PromoteKeepsRows(db, now, run, token, url, enabled);
  }

  lemma SaveDraftKeeps(db: Db, now: int, issued: set<string>, run: nat, token: string, url: string, racer: Option<string>)
    requires RowsInv(db) && RunsInv(db.runs, now, issued)
    ensures var after := SaveDraftStep(db, now, run, token, url, racer).0;
            RowsInv(after) && RunsInv(after.runs, now, issued) && |after.runs| == |db.runs|
  {
    if ValidLease(db, now, run, token) {
      RenewKeepsRuns(db, now, issued, run, token);
    }
    SaveDraftKeepsRows(db, now, run, token, url, racer);
  }

  predicate Bystands(a: Action) {
    a.Tick? || a.Beat? || a.GoOffline? || a.ForeignDraft? || a.ForeignSource? || a.EditSource? || a.DeleteSource?
  }

  lemma BystandersKeepTables(s: System, a: Action)
    requires Inv(s) && Bystands(a)
    ensures var t := Apply(s, a).0;
            RowsInv(t.db) && RunsInv(t.db.runs, t.now, t.issued) && |t.db.runs| >= |s.db.runs| && t.issued >= s.issued
  {
    match a
    case Tick(d) => assert forall i | 0 <= i < |s.db.runs| :: RunOk(s.db.runs[i], s.now + d, s.issued);
    case ForeignDraft(url) => ForeignDraftKeepsRows(s.db, url);
    case ForeignSource(url, enabled) => ForeignSourceKeepsRows(s.db, url, enabled);
    case EditSource(source, url, enabled) => EditSourceKeepsRows(s.db, source, url, enabled);
    case DeleteSource(source) => DeleteSourceKeepsRows(s.db, source);
    case _ => HeartbeatKeepsRows(s.db, Apply(s, a).0.db.heartbeat);
  }

  lemma ApplyKeepsTables(s: System, a: Action)
    requires Inv(s)
    ensures var t := Apply(s, a).0;
            RowsInv(t.db) && RunsInv(t.db.runs, t.now, t.issued) && |t.db.runs| >= |s.db.runs| && t.issued >= s.issued
  {
    match a
    case CreateRun =>
      CreateKeepsRuns(s.db, s.now, s.issued);
      CreateKeepsRows(s.db, s.now);
    case Claim(token, provider) =>
      if token != "" {
        ClaimKeepsRuns(s.db, s.now, s.issued, token, provider);
        ClaimKeepsRows(s.db, s.now, s.issued, token, provider);
      }
    case BeginCandidate(job, run, token, url) =>
    case EndCandidate(job, verdict) =>
      if job in s.jobs {
        SettleKeeps(s.db, s.now, s.issued, s.jobs[job].run, s.jobs[job].token, s.jobs[job].url, verdict, true);
      }
    case RegisterAccount(run, token, url, verdict) => SettleKeeps(s.db, s.now, s.issued, run, token, url, verdict, false);
    case BeginDraft(job, run, token, url) =>
    case EndDraft(job, racer) =>
      if job in s.jobs {
        SaveDraftKeeps(s.db, s.now, s.issued, s.jobs[job].run, s.jobs[job].token, s.jobs[job].url, racer);
      }
    case Abandon(job) =>
    case Complete(run, token, report, strip) =>
      CompleteKeepsRuns(s.db, s.now, s.issued, run, token, report, strip);
      CompleteKeepsRows(s.db, s.now, s.issued, run, token, report, strip);
    case _ => BystandersKeepTables(s, a);
  }

  /** A job that starts has just shown the token of a live lease. */
  lemma NewJobIsKnown(s: System, a: Action, j: nat)
    requires Inv(s) && j in Apply(s, a).0.jobs
    ensures var job := Apply(s, a).0.jobs[j];
            if j in s.jobs then job == s.jobs[j]
            else job.run < |s.db.runs| && s.db.runs[job.run].status == Claimed && job.token in s.issued
  {
    if a.BeginCandidate? && j !in s.jobs {
      assert RunOk(s.db.runs[a.run], s.now, s.issued);
    }
    if a.BeginDraft? && j !in s.jobs {
      assert RunOk(s.db.runs[a.run], s.now, s.issued);
    }
  }

  lemma ApplyKeeps(s: System, a: Action)
    requires Inv(s)
    ensures Inv(Apply(s, a).0)
  {
    ApplyKeepsTables(s, a);
    var t := Apply(s, a).0;
    forall j | j in t.jobs
      ensures t.jobs[j].token in t.issued && t.jobs[j].run < |t.db.runs|
    {
      NewJobIsKnown(s, a, j);
    }
  }

  /** Every reachable state satisfies the invariant: one active run at most, the lease contract of every run, at most
      10 candidates and 20 events a run, unique rows, single promotion, and explained statuses. */
  lemma {:induction false} EveryReachableStateIsSafe(s: System, actions: seq<Action>)
    requires Inv(s)
    ensures Inv(After(s, actions))
  {
    if actions != [] {
      EveryReachableStateIsSafe(s, actions[..|actions| - 1]);
      ApplyKeeps(After(s, actions[..|actions| - 1]), actions[|actions| - 1]);
    }
  }

  lemma TheEmptyDatabaseIsSafe(now: int)
    ensures Inv(Initial(now))
  {
  }

  // ---------------------------------------------------------------- fencing

  /** "Valid" and "to be re-queued" never overlap. */
  lemma LiveLeaseIsNotRequeued(db: Db, now: int, run: nat, token: string)
    requires ValidLease(db, now, run, token)
    ensures AllRequeued(db.runs, now)[run] == db.runs[run]
  {
  }

  function TokenOf(s: System, a: Action): string {
    match a
    case EndCandidate(job, _) => if job in s.jobs then s.jobs[job].token else ""
    case EndDraft(job, _) => if job in s.jobs then s.jobs[job].token else ""
    case RegisterAccount(_, token, _, _) => token
    case _ => ""
  }

  lemma SettlingIsFenced(db: Db, now: int, run: nat, token: string, url: string, verdict: Verdict, enabled: bool)
    ensures var t := SettleCandidate(db, now, run, token, url, verdict, enabled).0;
            && t.drafts == db.drafts
            && (t.candidates == db.candidates
                || (|t.candidates| == |db.candidates| + 1 && t.candidates[..|db.candidates|] == db.candidates
                    && t.candidates[|db.candidates|].run == run && ValidLease(db, now, run, token)))
  {
  }

  lemma SavingIsFenced(db: Db, now: int, run: nat, token: string, url: string, racer: Option<string>)
    ensures var t := SaveDraftStep(db, now, run, token, url, racer).0;
            && t.candidates == db.candidates
            && db.drafts <= t.drafts
            && forall i | |db.drafts| <= i < |t.drafts| && t.drafts[i].run.Some? ::
                 t.drafts[i].run.value == run && ValidLease(db, now, run, token)
  {
  }

  /** A step adds at most one candidate row, and only under the live lease of the row's run. */
  lemma CandidateWritesAreFenced(s: System, a: Action)
    ensures var old_, new_ := s.db.candidates, Apply(s, a).0.db.candidates;
            && |old_| <= |new_| <= |old_| + 1
            && (forall i | 0 <= i < |old_| :: new_[i].run == old_[i].run && new_[i].url == old_[i].url && new_[i].status == old_[i].status)
            && (|new_| == |old_| + 1 ==> ValidLease(s.db, s.now, new_[|old_|].run, TokenOf(s, a)))
  {
    match a
    case EndCandidate(job, verdict) =>
      if job in s.jobs {
        SettlingIsFenced(s.db, s.now, s.jobs[job].run, s.jobs[job].token, s.jobs[job].url, verdict, true);
      }
    case RegisterAccount(run, token, url, verdict) => SettlingIsFenced(s.db, s.now, run, token, url, verdict, false);
    case EndDraft(job, racer) =>
      if job in s.jobs {
        SavingIsFenced(s.db, s.now, s.jobs[job].run, s.jobs[job].token, s.jobs[job].url, racer);
      }
    case _ =>
  }

  /** Likewise for drafts that belong to a run. */
  lemma DraftWritesAreFenced(s: System, a: Action)
    ensures var old_, new_ := s.db.drafts, Apply(s, a).0.db.drafts;
            && old_ <= new_
            && (forall i | |old_| <= i < |new_| && new_[i].run.Some? ::
                  ValidLease(s.db, s.now, new_[i].run.value, TokenOf(s, a)))
  {
    match a
    case EndCandidate(job, verdict) =>
      if job in s.jobs {
        SettlingIsFenced(s.db, s.now, s.jobs[job].run, s.jobs[job].token, s.jobs[job].url, verdict, true);
      }
    case RegisterAccount(run, token, url, verdict) => SettlingIsFenced(s.db, s.now, run, token, url, verdict, false);
    case EndDraft(job, racer) =>
      if job in s.jobs {
        SavingIsFenced(s.db, s.now, s.jobs[job].run, s.jobs[job].token, s.jobs[job].url, racer);
      }
    case _ =>
  }

  /** Step `n` of the run of steps wrote candidate `i`, of run `run`, under the token current and unexpired at that step. */
  ghost predicate WroteCandidate(s: System, actions: seq<Action>, n: nat, i: nat, run: nat)
    requires n < |actions|
  {
    var before := After(s, actions[..n]);
    && |before.db.candidates| == i < |After(s, actions[..n + 1]).db.candidates|
    && ValidLease(before.db, before.now, run, TokenOf(before, actions[n]))
  }

  ghost predicate WroteDraft(s: System, actions: seq<Action>, n: nat, i: nat, run: nat)
    requires n < |actions|
  {
    var before := After(s, actions[..n]);
    && |before.db.drafts| <= i < |After(s, actions[..n + 1]).db.drafts|
    && ValidLease(before.db, before.now, run, TokenOf(before, actions[n]))
  }

  lemma WritesInPrefix(s: System, actions: seq<Action>, last: nat, n: nat, i: nat, run: nat)
    requires n < last <= |actions|
    ensures WroteCandidate(s, actions[..last], n, i, run) <==> WroteCandidate(s, actions, n, i, run)
    ensures WroteDraft(s, actions[..last], n, i, run) <==> WroteDraft(s, actions, n, i, run)
  {
    assert actions[..last][..n] == actions[..n] && actions[..last][..n + 1] == actions[..n + 1];
  }

  /** Each candidate row of any reachable state was written in one step, under the token that was current and
      unexpired at that step. */
  lemma {:induction false} EveryCandidateWasFenced(s: System, actions: seq<Action>, i: nat)
    requires |s.db.candidates| <= i < |After(s, actions).db.candidates|
    ensures exists n: nat | n < |actions| :: WroteCandidate(s, actions, n, i, After(s, actions).db.candidates[i].run)
  {
    var last := |actions| - 1;
    var before := After(s, actions[..last]);
    CandidateWritesAreFenced(before, actions[last]);
    if i < |before.db.candidates| {
      EveryCandidateWasFenced(s, actions[..last], i);
      var n: nat :| n < last && WroteCandidate(s, actions[..last], n, i, before.db.candidates[i].run);
      WritesInPrefix(s, actions, last, n, i, before.db.candidates[i].run);
    } else {
      assert actions[..last + 1] == actions;
      assert WroteCandidate(s, actions, last, i, After(s, actions).db.candidates[i].run);
    }
  }

  /** Likewise for the drafts of a run. */
  lemma {:induction false} EveryEventWasFenced(s: System, actions: seq<Action>, i: nat)
    requires |s.db.drafts| <= i < |After(s, actions).db.drafts| && After(s, actions).db.drafts[i].run.Some?
    ensures exists n: nat | n < |actions| :: WroteDraft(s, actions, n, i, After(s, actions).db.drafts[i].run.value)
  {
    var last := |actions| - 1;
    var before := After(s, actions[..last]);
    DraftWritesAreFenced(before, actions[last]);
    if i < |before.db.drafts| {
      EveryEventWasFenced(s, actions[..last], i);
      var n: nat :| n < last && WroteDraft(s, actions[..last], n, i, before.db.drafts[i].run.value);
      WritesInPrefix(s, actions, last, n, i, before.db.drafts[i].run.value);
    } else {
      assert actions[..last + 1] == actions;
      assert WroteDraft(s, actions, last, i, After(s, actions).db.drafts[i].run.value);
    }
  }

  // ---------------------------------------------------------------- how a run evolves

  /** Steps a run can still take: two for each lease that is left, one more while it is leased. */
  function Measure(r: Run): nat
    requires r.leaseCount <= MAX_LEASES
  {
    match r.status
    case Pending => 1 + 2 * (MAX_LEASES - r.leaseCount)
    case Claimed => 2 + 2 * (MAX_LEASES - r.leaseCount)
    case _ => 0
  }

  /** What any sequence of steps may do to one run: a finished run keeps every field, a lease's expiry never moves
      back, and the run either keeps its place in its life cycle or moves strictly nearer to the end. */
  predicate Evolves(r: Run, t: Run) {
    && (Terminal(r.status) ==> t == r)
    && (r.leaseExpiresAt.Some? ==> t.leaseExpiresAt.Some? && r.leaseExpiresAt.value <= t.leaseExpiresAt.value)
    && (r.startedAt.Some? ==> t.startedAt == r.startedAt)
    && r.leaseCount <= t.leaseCount <= MAX_LEASES
    && ((t.status == r.status && t.leaseCount == r.leaseCount && t.leaseToken == r.leaseToken) || Measure(t) < Measure(r))
  }

  lemma ClaimEvolves(db: Db, now: int, issued: set<string>, token: string, provider: string, i: nat)
    requires i < |db.runs| && RunOk(db.runs[i], now, issued)
    ensures Evolves(db.runs[i], ClaimStep(db, now, token, provider).0.runs[i])
  {
  }

  lemma CompleteEvolves(db: Db, now: int, issued: set<string>, run: nat, token: string, report: Report, strip: string -> string, i: nat)
    requires i < |db.runs| && RunOk(db.runs[i], now, issued)
    ensures Evolves(db.runs[i], CompleteStep(db, now, run, token, report, strip).0.runs[i])
  {
  }

  predicate LeaseRuns(r: Run, now: int) {
    r.status == Claimed && r.leaseExpiresAt.Some? && r.leaseExpiresAt.value > now
  }

  predicate OnlyRenewed(r: Run, t: Run, now: int) {
    t == r || (LeaseRuns(r, now) && t == r.(leaseExpiresAt := Some(now + LEASE_SECONDS)))
  }

  lemma SettlingOnlyRenews(db: Db, now: int, run: nat, token: string, url: string, verdict: Verdict, enabled: bool, i: nat)
    requires i < |db.runs|
    ensures var t := SettleCandidate(db, now, run, token, url, verdict, enabled).0;
            |t.runs| == |db.runs| && OnlyRenewed(db.runs[i], t.runs[i], now)
  {
  }

  lemma SavingOnlyRenews(db: Db, now: int, run: nat, token: string, url: string, racer: Option<string>, i: nat)
    requires i < |db.runs|
    ensures var t := SaveDraftStep(db, now, run, token, url, racer).0;
            |t.runs| == |db.runs| && OnlyRenewed(db.runs[i], t.runs[i], now)
  {
  }

  /** Submissions only renew the lease they hold; everything else leaves runs alone. */
  lemma OtherStepsOnlyRenew(s: System, a: Action, i: nat)
    requires i < |s.db.runs| && !a.Claim? && !a.Complete?
    ensures i < |Apply(s, a).0.db.runs| && OnlyRenewed(s.db.runs[i], Apply(s, a).0.db.runs[i], s.now)
  {
    match a
    case EndCandidate(job, verdict) =>
      if job in s.jobs {
        SettlingOnlyRenews(s.db, s.now, s.jobs[job].run, s.jobs[job].token, s.jobs[job].url, verdict, true, i);
      }
    case RegisterAccount(run, token, url, verdict) => SettlingOnlyRenews(s.db, s.now, run, token, url, verdict, false, i);
    case EndDraft(job, racer) =>
      if job in s.jobs {
        SavingOnlyRenews(s.db, s.now, s.jobs[job].run, s.jobs[job].token, s.jobs[job].url, racer, i);
      }
    case _ =>
  }

  lemma RenewedEvolves(r: Run, t: Run, now: int, issued: set<string>)
    requires RunOk(r, now, issued) && OnlyRenewed(r, t, now)
    ensures Evolves(r, t)
  {
  }

  lemma StepEvolves(s: System, a: Action, i: nat)
    requires Inv(s) && i < |s.db.runs|
    ensures i < |Apply(s, a).0.db.runs| && Evolves(s.db.runs[i], Apply(s, a).0.db.runs[i])
  {
    assert RunOk(s.db.runs[i], s.now, s.issued);
    match a
    case Claim(token, provider) => ClaimEvolves(s.db, s.now, s.issued, token, provider, i);
    case Complete(run, token, report, strip) => CompleteEvolves(s.db, s.now, s.issued, run, token, report, strip, i);
    case _ =>
      OtherStepsOnlyRenew(s, a, i);
      RenewedEvolves(s.db.runs[i], Apply(s, a).0.db.runs[i], s.now, s.issued);
  }

  lemma {:induction false} RunsEvolve(s: System, actions: seq<Action>, i: nat)
    requires Inv(s) && i < |s.db.runs|
    ensures i < |After(s, actions).db.runs| && Evolves(s.db.runs[i], After(s, actions).db.runs[i])
  {
    assert RunOk(s.db.runs[i], s.now, s.issued);
    if actions != [] {
      var before := After(s, actions[..|actions| - 1]);
      RunsEvolve(s, actions[..|actions| - 1], i);
      EveryReachableStateIsSafe(s, actions[..|actions| - 1]);
      StepEvolves(before, actions[|actions| - 1], i);
    }
  }

  // ---------------------------------------------------------------- lapsed submitters

  /** A claim re-queues, or leases under a token never seen before. */
  lemma ClaimTakesNoOldToken(db: Db, now: int, issued: set<string>, token: string, provider: string, i: nat, earlier: string)
    requires i < |db.runs| && RunOk(db.runs[i], now, issued) && earlier in issued && token !in issued
    requires !ValidLease(db, now, i, earlier)
    ensures !ValidLease(ClaimStep(db, now, token, provider).0, now, i, earlier)
  {
  }

  lemma CompletionEndsLeases(db: Db, now: int, run: nat, token: string, report: Report, strip: string -> string, i: nat, earlier: string)
    requires !ValidLease(db, now, i, earlier)
    ensures !ValidLease(CompleteStep(db, now, run, token, report, strip).0, now, i, earlier)
  {
  }

  lemma LapsedLeaseStaysLapsed(s: System, a: Action, run: nat, token: string)
    requires Inv(s) && run < |s.db.runs| && token in s.issued && !ValidLease(s.db, s.now, run, token)
    ensures !ValidLease(Apply(s, a).0.db, Apply(s, a).0.now, run, token)
  {
    assert RunOk(s.db.runs[run], s.now, s.issued);
    match a
    case Claim(drawn, provider) =>
      if drawn !in s.issued {
        ClaimTakesNoOldToken(s.db, s.now, s.issued, drawn, provider, run, token);
      }
    case Complete(other, shown, report, strip) => CompletionEndsLeases(s.db, s.now, other, shown, report, strip, run, token);
    case _ => OtherStepsOnlyRenew(s, a, run);
  }

  lemma {:induction false} LapsedLeaseNeverRevives(s: System, actions: seq<Action>, run: nat, token: string)
    requires Inv(s) && run < |s.db.runs| && token in s.issued && !ValidLease(s.db, s.now, run, token)
    ensures var t := After(s, actions); token in t.issued && run < |t.db.runs| && !ValidLease(t.db, t.now, run, token)
  {
    if actions != [] {
      var before := After(s, actions[..|actions| - 1]);
      LapsedLeaseNeverRevives(s, actions[..|actions| - 1], run, token);
      EveryReachableStateIsSafe(s, actions[..|actions| - 1]);
      ApplyKeepsTables(before, actions[|actions| - 1]);
      LapsedLeaseStaysLapsed(before, actions[|actions| - 1], run, token);
    }
  }

  /** A submission whose lease has lapsed, been taken over or ended while it was on the network writes nothing,
      whatever happened since. */
  lemma LapsedSubmitterWritesNothing(s: System, later: seq<Action>, job: nat, verdict: Verdict, racer: Option<string>)
    requires Inv(s) && job in s.jobs && !ValidLease(s.db, s.now, s.jobs[job].run, s.jobs[job].token)
    requires job in After(s, later).jobs && After(s, later).jobs[job] == s.jobs[job]
    ensures var t := After(s, later);
            && Apply(t, EndCandidate(job, verdict)).0.db == t.db
            && Apply(t, EndDraft(job, racer)).0.db == t.db
            && Apply(t, if s.jobs[job].CandidateJob? then EndCandidate(job, verdict) else EndDraft(job, racer)).1 == LeaseInvalid
  {
    LapsedLeaseNeverRevives(s, later, s.jobs[job].run, s.jobs[job].token);
  }

  // ---------------------------------------------------------------- live leases

  predicate CompletesRun(a: Action, run: nat, token: string) {
    a.Complete? && a.run == run && a.token == token
  }

  /** A lease that runs until `until` at least. */
  predicate LeasedUntil(db: Db, run: nat, token: string, until: int) {
    && run < |db.runs| && db.runs[run].status == Claimed && db.runs[run].leaseToken == token
    && db.runs[run].leaseExpiresAt.Some? && db.runs[run].leaseExpiresAt.value >= until
  }

  lemma StepLeavesLiveLease(s: System, a: Action, run: nat, token: string, until: int)
    requires Inv(s) && LeasedUntil(s.db, run, token, until) && s.now <= until && !CompletesRun(a, run, token)
    ensures LeasedUntil(Apply(s, a).0.db, run, token, until)
  {
    assert RunOk(s.db.runs[run], s.now, s.issued);
    match a
    case Claim(drawn, provider) => assert AllRequeued(s.db.runs, s.now)[run] == s.db.runs[run];
    case Complete(other, shown, report, strip) =>
    case _ => OtherStepsOnlyRenew(s, a, run);
  }

  /** Nobody but its holder ends a lease before its time: until then, whatever others do, the token stays valid. */
  lemma {:induction false} LiveLeaseIsKept(s: System, actions: seq<Action>, run: nat, token: string, until: int)
    requires Inv(s) && LeasedUntil(s.db, run, token, until) && After(s, actions).now <= until
    requires forall i | 0 <= i < |actions| :: !CompletesRun(actions[i], run, token)
    ensures LeasedUntil(After(s, actions).db, run, token, until)
  {
    if actions != [] {
      var before, a := After(s, actions[..|actions| - 1]), actions[|actions| - 1];
      TimeMovesOn(before, a);
      LiveLeaseIsKept(s, actions[..|actions| - 1], run, token, until);
      EveryReachableStateIsSafe(s, actions[..|actions| - 1]);
      StepLeavesLiveLease(before, a, run, token, until);
    }
  }

  lemma TimeMovesOn(s: System, a: Action)
    ensures s.now <= Apply(s, a).0.now
  {
  }

  lemma SettlingRepliesAreTrue(db: Db, now: int, run: nat, token: string, url: string, verdict: Verdict, enabled: bool,
                               i: nat, created: bool)
    requires SettleCandidate(db, now, run, token, url, verdict, enabled).1 == Row(i, created)
    ensures var t := SettleCandidate(db, now, run, token, url, verdict, enabled).0;
            && IsCandidateAt(t, run, url, i)
            && (created <==> i == |db.candidates|) && |t.candidates| == |db.candidates| + (if created then 1 else 0)
            && LeasedUntil(t, run, token, now + LEASE_SECONDS)
  {
  }

  /** What a submission is told is true: the row it names is its own, it is new exactly if it says so, and the lease runs
      the full time from then on. */
  lemma CandidateRepliesAreTrue(s: System, a: Action, run: nat, token: string, url: string, i: nat, created: bool)
    requires || (a.RegisterAccount? && (a.run, a.token, a.url) == (run, token, url))
             || (a.EndCandidate? && a.job in s.jobs && s.jobs[a.job] == CandidateJob(run, token, url))
    requires Apply(s, a).1 == Row(i, created)
    ensures var t := Apply(s, a).0;
            && IsCandidateAt(t.db, run, url, i)
            && (created <==> i == |s.db.candidates|) && |t.db.candidates| == |s.db.candidates| + (if created then 1 else 0)
            && LeasedUntil(t.db, run, token, s.now + LEASE_SECONDS)
  {
    SettlingRepliesAreTrue(s.db, s.now, run, token, url, a.verdict, a.EndCandidate?, i, created);
  }

  lemma DraftRepliesAreTrue(s: System, job: nat, racer: Option<string>, i: nat, created: bool)
    requires job in s.jobs && s.jobs[job].DraftJob? && Apply(s, EndDraft(job, racer)).1 == Row(i, created)
    ensures var t, j := Apply(s, EndDraft(job, racer)).0, s.jobs[job];
            && IsDraftAt(t.db, j.url, i)
            && (created ==> t.db.drafts[i] == Draft(j.url, Some(j.run)) && FindDraft(s.db, j.url).None?)
            && LeasedUntil(t.db, j.run, j.token, s.now + LEASE_SECONDS)
  {
  }

  // ---------------------------------------------------------------- finished runs

  /** Rows that a table gains for other runs do not show. */
  lemma StatusesStay(old_: seq<Candidate>, new_: seq<Candidate>, run: nat)
    requires |old_| <= |new_| <= |old_| + 1
    requires forall i | 0 <= i < |old_| :: new_[i].run == old_[i].run && new_[i].status == old_[i].status
    requires |new_| == |old_| + 1 ==> new_[|old_|].run != run
    ensures StatusesOf(new_, run) == StatusesOf(old_, run)
  {
  }

  lemma {:induction false} DraftCountStays(old_: seq<Draft>, new_: seq<Draft>, run: nat)
    requires old_ <= new_ && forall i | |old_| <= i < |new_| :: new_[i].run != Some(run)
    ensures DraftCount(old_, run) == DraftCount(new_, run)
  {
    if |old_| == |new_| {
      assert old_ == new_;
    } else {
      DraftCountStays(old_, new_[..|new_| - 1], run);
    }
  }

  lemma StepFreezesCandidates(s: System, a: Action, run: nat)
    requires run < |s.db.runs| && !Active(s.db.runs[run])
    ensures StatusesOf(Apply(s, a).0.db.candidates, run) == StatusesOf(s.db.candidates, run)
  {
    CandidateWritesAreFenced(s, a);
    StatusesStay(s.db.candidates, Apply(s, a).0.db.candidates, run);
  }

  lemma StepFreezesEvents(s: System, a: Action, run: nat)
    requires run < |s.db.runs| && !Active(s.db.runs[run])
    ensures DraftCount(Apply(s, a).0.db.drafts, run) == DraftCount(s.db.drafts, run)
  {
    DraftWritesAreFenced(s, a);
    DraftCountStays(s.db.drafts, Apply(s, a).0.db.drafts, run);
  }

  lemma {:induction false} FinishedRunIsFrozen(s: System, later: seq<Action>, run: nat)
    requires Inv(s) && run < |s.db.runs| && Terminal(s.db.runs[run].status)
    ensures var t := After(s, later);
            && run < |t.db.runs| && t.db.runs[run] == s.db.runs[run]
            && StatusesOf(t.db.candidates, run) == StatusesOf(s.db.candidates, run)
            && DraftCount(t.db.drafts, run) == DraftCount(s.db.drafts, run)
  {
    RunsEvolve(s, later, run);
    if later != [] {
      var before := After(s, later[..|later| - 1]);
      FinishedRunIsFrozen(s, later[..|later| - 1], run);
      StepFreezesCandidates(before, later[|later| - 1], run);
      StepFreezesEvents(before, later[|later| - 1], run);
    }
  }

  lemma CompletedRunIsFrozen(s: System, run: nat, token: string, report: Report, strip: string -> string, later: seq<Action>)
    requires Inv(s) && ValidLease(s.db, s.now, run, token)
    ensures var end := After(Apply(s, Complete(run, token, report, strip)).0, later).db;
            && run < |end.runs| && end.runs[run] == Finished(s.db, s.now, run, report, strip)
            && StatusesOf(end.candidates, run) == StatusesOf(s.db.candidates, run)
            && DraftCount(end.drafts, run) == DraftCount(s.db.drafts, run)
  {
    ApplyKeeps(s, Complete(run, token, report, strip));
    FinishedIsTerminal(s.db, s.now, run, report, strip);
    FinishedRunIsFrozen(Apply(s, Complete(run, token, report, strip)).0, later, run);
  }

  /** The status a completion stores is, for ever after, the one recomputed from the run's rows and counters; a run
      whose runner reported failure is partially failed exactly when something was promoted. */
  lemma TerminalStatusStaysExplained(s: System, run: nat, token: string, report: Report, strip: string -> string, later: seq<Action>)
    requires Inv(s) && ValidLease(s.db, s.now, run, token)
    ensures var t := After(Apply(s, Complete(run, token, report, strip)).0, later).db;
            && run < |t.runs| && t.runs[run].finishedAt == Some(s.now)
            && t.runs[run].status ==
               if report.failed then if Promoted in StatusesOf(t.candidates, run) then PartiallyFailed else Failed
               else Combine(ClassifyCandidates(StatusesOf(t.candidates, run)),
                            ClassifyEvents(t.runs[run].eventsAttempted, t.runs[run].eventsFailed, DraftCount(t.drafts, run)))
  {
    CompletedRunIsFrozen(s, run, token, report, strip, later);
  }

  // ---------------------------------------------------------------- retries

  lemma {:induction false} CandidateRowsPersist(s: System, later: seq<Action>, i: nat)
    requires i < |s.db.candidates|
    ensures var cs := After(s, later).db.candidates;
            && i < |cs| && cs[i].run == s.db.candidates[i].run && cs[i].url == s.db.candidates[i].url
            && cs[i].status == s.db.candidates[i].status
  {
    if later != [] {
      CandidateRowsPersist(s, later[..|later| - 1], i);
      CandidateWritesAreFenced(After(s, later[..|later| - 1]), later[|later| - 1]);
    }
  }

  /** A retried `submit_candidate` finds its own row again at once, at the cap as below it, however much later. */
  lemma CandidateRetryReturnsTheRow(s: System, later: seq<Action>, i: nat, token: string)
    requires Inv(s) && i < |s.db.candidates|
    requires ValidLease(After(s, later).db, After(s, later).now, s.db.candidates[i].run, token)
    ensures var t := After(s, later);
            EarlyCandidateStep(t.db, t.now, s.db.candidates[i].run, token, s.db.candidates[i].url) == Row(i, false)
  {
    var t := After(s, later);
    EveryReachableStateIsSafe(s, later);
    CandidateRowsPersist(s, later, i);
    assert IsCandidateAt(t.db, s.db.candidates[i].run, s.db.candidates[i].url, i);
  }

  /** A retried `submit_agent_draft` that reaches its second section returns the stored draft, at the cap as below it. */
  lemma DraftRetryReturnsTheRow(s: System, run: nat, token: string, i: nat, racer: Option<string>)
    requires Inv(s) && ValidLease(s.db, s.now, run, token) && i < |s.db.drafts|
    ensures SaveDraftStep(s.db, s.now, run, token, s.db.drafts[i].url, racer) == (Renewed(s.db, s.now, run), Row(i, false))
  {
    assert IsDraftAt(s.db, s.db.drafts[i].url, i);
  }

  lemma {:induction false} DraftRowsPersist(s: System, later: seq<Action>)
    ensures s.db.drafts <= After(s, later).db.drafts
  {
    if later != [] {
      DraftRowsPersist(s, later[..|later| - 1]);
      DraftWritesAreFenced(After(s, later[..|later| - 1]), later[|later| - 1]);
    }
  }

  /** An event that the server answered "created" is among the run's own URLs from then on, so that the completion
      report can be checked against them. */
  lemma CreatedEventIsKnown(s: System, job: nat, racer: Option<string>, later: seq<Action>, i: nat)
    requires job in s.jobs && Apply(s, EndDraft(job, racer)).1 == Row(i, true)
    ensures s.jobs[job].url in CreatedUrls(After(Apply(s, EndDraft(job, racer)).0, later).db, s.jobs[job].run)
  {
    var t := Apply(s, EndDraft(job, racer)).0;
    DraftRowsPersist(t, later);
    assert t.db.drafts[i] == Draft(s.jobs[job].url, Some(s.jobs[job].run));
    assert After(t, later).db.drafts[i] in After(t, later).db.drafts;
  }

  /** What a settling section answers when the row is there already: it returns the row exactly below the cap and if the
      submission is rejected or the URL is taken by some source. At the cap it is refused although the row exists; and
      below it, with the URL free, the second insert of the candidate fails. */
  lemma SettlingAgain(db: Db, now: int, i: nat, token: string, verdict: Verdict, enabled: bool)
    requires UniqueCandidates(db.candidates) && Caps(db) && i < |db.candidates|
    requires ValidLease(db, now, db.candidates[i].run, token)
    ensures var c := db.candidates[i];
            var reply := SettleCandidate(db, now, c.run, token, c.url, verdict, enabled).1;
            var atCap := CandidateCount(db, c.run) == MAX_CANDIDATES_PER_RUN;
            && (reply == Row(i, false) <==> !atCap && (verdict.Rejects? || SourceUrlTaken(db, c.url)))
            && (reply == LimitExceeded <==> atCap)
            && (reply == IntegrityFailure <==> !atCap && verdict.Passes? && !SourceUrlTaken(db, c.url))
  {
    var c := db.candidates[i];
    assert IsCandidateAt(db, c.run, c.url, i);
    assert |StatusesOf(db.candidates, c.run)| <= MAX_CANDIDATES_PER_RUN;
  }

  /** `register_account_source` has no early check, so this is what its retry is told: the stored row only below the cap,
      and only if the retry is rejected or the source is still there under its URL. */
  lemma AccountRetry(s: System, i: nat, token: string, verdict: Verdict)
    requires Inv(s) && i < |s.db.candidates| && ValidLease(s.db, s.now, s.db.candidates[i].run, token)
    ensures var c := s.db.candidates[i];
            var reply := Apply(s, RegisterAccount(c.run, token, c.url, verdict)).1;
            var atCap := CandidateCount(s.db, c.run) == MAX_CANDIDATES_PER_RUN;
            && (reply == Row(i, false) <==> !atCap && (verdict.Rejects? || SourceUrlTaken(s.db, c.url)))
            && (reply == LimitExceeded <==> atCap)
            && (reply == IntegrityFailure <==> !atCap && verdict.Passes? && !SourceUrlTaken(s.db, c.url))
  {
    SettlingAgain(s.db, s.now, i, token, verdict, false);
  }

  /** And what a second `submit_candidate` is told that was on the network already when the row was written. */
  lemma OvertakenSubmission(s: System, i: nat, job: nat, verdict: Verdict)
    requires Inv(s) && i < |s.db.candidates| && job in s.jobs && s.jobs[job].CandidateJob?
    requires s.jobs[job].run == s.db.candidates[i].run && s.jobs[job].url == s.db.candidates[i].url
    requires ValidLease(s.db, s.now, s.jobs[job].run, s.jobs[job].token)
    ensures var c := s.db.candidates[i];
            var reply := Apply(s, EndCandidate(job, verdict)).1;
            var atCap := CandidateCount(s.db, c.run) == MAX_CANDIDATES_PER_RUN;
            && (reply == Row(i, false) <==> !atCap && (verdict.Rejects? || SourceUrlTaken(s.db, c.url)))
            && (reply == LimitExceeded <==> atCap)
            && (reply == IntegrityFailure <==> !atCap && verdict.Passes? && !SourceUrlTaken(s.db, c.url))
  {
    SettlingAgain(s.db, s.now, i, s.jobs[job].token, verdict, true);
  }

  /** The failing case is reached: a promoted source that staff delete. */
  lemma RetryAfterDeletedSource(s: System, i: nat, source: nat, token: string)
    requires Inv(s) && i < |s.db.candidates| && s.db.candidates[i].promotedSource == Some(source)
    requires s.db.sources[source].url == s.db.candidates[i].url
    requires ValidLease(s.db, s.now, s.db.candidates[i].run, token) && CandidateCount(s.db, s.db.candidates[i].run) < MAX_CANDIDATES_PER_RUN
    ensures var c := s.db.candidates[i];
            Apply(Apply(s, DeleteSource(source)).0, RegisterAccount(c.run, token, c.url, Passes)).1 == IntegrityFailure
  {
    var c, t := s.db.candidates[i], Apply(s, DeleteSource(source)).0;
    ApplyKeeps(s, DeleteSource(source));
    StatusesSurviveDetaching(t.db.candidates, s.db.candidates, c.run);
    assert t.db.candidates[i].url == c.url && t.db.candidates[i].run == c.run;
    AccountRetry(t, i, token, Passes);
  }

  // ---------------------------------------------------------------- bounded leases

  /** When claims were last polled; the first claim itself starts the count. */
  function LastPoll(s: System, actions: seq<Action>): int {
    if actions == [] then s.now
    else if actions[|actions| - 1].Claim? then After(s, actions[..|actions| - 1]).now
    else LastPoll(s, actions[..|actions| - 1])
  }

  /** A schedule after the first claim of `run`: claims are polled at gaps of at most `gap` seconds, and the holder
      neither renews nor completes, so that only claims change the run. */
  ghost predicate Abandoned(s: System, actions: seq<Action>, run: nat, gap: nat) {
    actions == [] ||
    var earlier, a := actions[..|actions| - 1], actions[|actions| - 1];
    var before, after := After(s, earlier), After(s, actions);
    && Abandoned(s, earlier, run, gap)
    && after.now - LastPoll(s, earlier) <= gap
    && run < |before.db.runs| && run < |after.db.runs|
    && (if a.Claim? then a.token != "" && a.token !in before.issued else after.db.runs[run] == before.db.runs[run])
  }

  /** Where an abandoned run can be, `first` being the time of its first claim. */
  ghost predicate OnSchedule(s: System, run: nat, first: int, lastPoll: int, gap: nat) {
    && run < |s.db.runs|
    && s.now - lastPoll <= gap && lastPoll <= s.now
    && var r := s.db.runs[run];
       match r.status
       case Claimed =>
         && r.leaseExpiresAt.Some? && lastPoll <= r.leaseExpiresAt.value
         && (if r.leaseCount == 1 then r.leaseExpiresAt.value == first + LEASE_SECONDS
             else r.leaseExpiresAt.value <= first + 2 * LEASE_SECONDS + gap)
       case Expired => r.finishedAt.Some? && r.finishedAt.value <= first + 2 * (LEASE_SECONDS + gap)
       case _ => false
  }

  lemma OneActiveIsOldest(runs: seq<Run>, run: nat)
    requires OneActive(runs) && run < |runs| && runs[run].status == Pending
    ensures OldestPending(runs) == Some(run)
  {
  }

  lemma PollKeepsSchedule(s: System, a: Action, run: nat, first: int, lastPoll: int, gap: nat)
    requires Inv(s) && OnSchedule(s, run, first, lastPoll, gap)
    requires a.Claim? && a.token != "" && a.token !in s.issued
    ensures OnSchedule(Apply(s, a).0, run, first, s.now, gap)
  {
    assert RunOk(s.db.runs[run], s.now, s.issued);
    RequeueKeepsRuns(s.db.runs, s.now, s.issued);
    var requeued := AllRequeued(s.db.runs, s.now);
    if requeued[run].status == Pending {
      OneActiveIsOldest(requeued, run);
    }
  }

  lemma OneStepOnSchedule(before: System, after: System, run: nat, first: int, lastPoll: int, gap: nat)
    requires OnSchedule(before, run, first, lastPoll, gap) && before.now <= after.now && after.now - lastPoll <= gap
    requires run < |after.db.runs| && after.db.runs[run] == before.db.runs[run]
    ensures OnSchedule(after, run, first, lastPoll, gap)
  {
  }

  lemma {:induction false} AbandonedRunStaysOnSchedule(s: System, actions: seq<Action>, run: nat, gap: nat)
    requires Inv(s) && OnSchedule(s, run, s.now, s.now, gap) && Abandoned(s, actions, run, gap)
    ensures OnSchedule(After(s, actions), run, s.now, LastPoll(s, actions), gap)
  {
    if actions != [] {
      var earlier, a := actions[..|actions| - 1], actions[|actions| - 1];
      var before := After(s, earlier);
      AbandonedRunStaysOnSchedule(s, earlier, run, gap);
      EveryReachableStateIsSafe(s, earlier);
      if a.Claim? {
        PollKeepsSchedule(before, a, run, s.now, LastPoll(s, earlier), gap);
      } else {
        TimeMovesOn(before, a);
        OneStepOnSchedule(before, Apply(before, a).0, run, s.now, LastPoll(s, earlier), gap);
      }
    }
  }

  /** A run whose holder went silent is over within twice the lease and the polling gap: once that much time has
      passed since its first claim it is EXPIRED, and it was marked so in time. */
  lemma AbandonedRunExpiresInTime(s: System, run: nat, actions: seq<Action>, gap: nat)
    requires Inv(s) && run < |s.db.runs|
    requires s.db.runs[run].status == Claimed && s.db.runs[run].leaseCount == 1
    requires s.db.runs[run].leaseExpiresAt == Some(s.now + LEASE_SECONDS)
    requires Abandoned(s, actions, run, gap)
    requires After(s, actions).now > s.now + 2 * (LEASE_SECONDS + gap)
    ensures var t := After(s, actions);
            && run < |t.db.runs| && t.db.runs[run].status == Expired
            && t.db.runs[run].finishedAt.Some? && t.db.runs[run].finishedAt.value <= s.now + 2 * (LEASE_SECONDS + gap)
  {
    AbandonedRunStaysOnSchedule(s, actions, run, gap);
  }
}
