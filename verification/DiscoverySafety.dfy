/** Safety of the discovery protocol over every interleaving. */
module DiscoverySafety {
  import opened Options
  import opened EventOutcomes
  import opened DiscoveryTables
  import opened DiscoverySystem

  ghost predicate RowsInv(db: Db) {
    Caps(db) && UniqueRows(db) && LinksOk(db) && AllExplained(db)
  }

  // ---------------------------------------------------------------- counting rows of append-only tables

  lemma StatusesAppend(cs: seq<Candidate>, c: Candidate, run: nat)
    ensures c.run != run ==> StatusesOf(cs + [c], run) == StatusesOf(cs, run)
    ensures c.run == run ==> StatusesOf(cs + [c], run) == StatusesOf(cs, run) + [c.status]
  {
  }

  lemma DraftCountAppend(ds: seq<Draft>, d: Draft, run: nat)
    ensures DraftCount(ds + [d], run) == DraftCount(ds, run) + if d.run == Some(run) then 1 else 0
  {
  }

  lemma {:induction false} StatusesSurviveDetaching(a: seq<Candidate>, b: seq<Candidate>, run: nat)
    requires |a| == |b| && forall i | 0 <= i < |a| :: a[i].run == b[i].run && a[i].status == b[i].status
    ensures StatusesOf(a, run) == StatusesOf(b, run)
  {
    if a != [] {
      StatusesSurviveDetaching(a[..|a| - 1], b[..|b| - 1], run);
    }
  }

  // ---------------------------------------------------------------- runs

  lemma RenewKeepsRuns(db: Db, now: int, issued: set<string>, run: nat, token: string)
    requires RunsInv(db.runs, now, issued) && ValidLease(db, now, run, token)
    ensures RunsInv(Renewed(db, now, run).runs, now, issued)
  {
  }

  lemma CreateKeepsRuns(db: Db, now: int, issued: set<string>)
    requires RunsInv(db.runs, now, issued)
    ensures RunsInv(CreateRunStep(db, now).0.runs, now, issued)
  {
  }

  lemma RequeueKeepsRuns(runs: seq<Run>, now: int, issued: set<string>)
    requires RunsInv(runs, now, issued)
    ensures RunsInv(AllRequeued(runs, now), now, issued)
  {
  }

  lemma ClaimKeepsRuns(db: Db, now: int, issued: set<string>, token: string, provider: string)
    requires RunsInv(db.runs, now, issued) && token != ""
    ensures RunsInv(ClaimStep(db, now, token, provider).0.runs, now, issued + {token})
  {
    RequeueKeepsRuns(db.runs, now, issued);
    var requeued := AllRequeued(db.runs, now);
    var runs := ClaimStep(db, now, token, provider).0.runs;
    forall i | 0 <= i < |runs|
      ensures RunOk(runs[i], now, issued + {token}) && (Active(runs[i]) ==> Active(requeued[i]))
    {
      assert RunOk(requeued[i], now, issued);
    }
  }

  lemma FinishedIsTerminal(db: Db, now: int, run: nat, report: Report, strip: string -> string)
    requires run < |db.runs|
    ensures var r := Finished(db, now, run, report, strip);
            r.status in {Succeeded, PartiallyFailed, Failed} && r.leaseToken == "" && r.finishedAt == Some(now)
  {
  }

  lemma CompleteKeepsRuns(db: Db, now: int, issued: set<string>, run: nat, token: string, report: Report, strip: string -> string)
    requires RunsInv(db.runs, now, issued)
    ensures RunsInv(CompleteStep(db, now, run, token, report, strip).0.runs, now, issued)
  {
  }

  // ---------------------------------------------------------------- rows

  /** Candidates, drafts and sources stay put while runs change, so long as a finished run keeps its status line. */
  lemma RunsChangeKeepsRows(db: Db, runs: seq<Run>)
    requires RowsInv(db) && |runs| >= |db.runs|
    requires forall i: nat | i < |runs| :: Explained(db.(runs := runs), i)
    ensures RowsInv(db.(runs := runs))
  {
  }

  lemma HeartbeatKeepsRows(db: Db, heartbeat: Option<Heartbeat>)
    requires RowsInv(db)
    ensures RowsInv(db.(heartbeat := heartbeat))
  {
    forall i: nat | i < |db.runs|
      ensures Explained(db.(heartbeat := heartbeat), i)
    {
      assert Explained(db, i);
    }
  }

  lemma ClaimKeepsRows(db: Db, now: int, issued: set<string>, token: string, provider: string)
    requires RowsInv(db) && RunsInv(db.runs, now, issued)
    ensures RowsInv(ClaimStep(db, now, token, provider).0)
  {
    var after := ClaimStep(db, now, token, provider).0;
    forall i: nat | i < |after.runs|
      ensures Explained(after, i)
    {
      assert Explained(db, i) && RunOk(db.runs[i], now, issued);
    }
    RunsChangeKeepsRows(db, after.runs);
  }

  lemma RenewKeepsRows(db: Db, now: int, run: nat, token: string)
    requires RowsInv(db) && ValidLease(db, now, run, token)
    ensures RowsInv(Renewed(db, now, run))
  {
    var after := Renewed(db, now, run);
    forall i: nat | i < |after.runs|
      ensures Explained(after, i)
    {
      assert Explained(db, i);
    }
    RunsChangeKeepsRows(db, after.runs);
  }

  lemma CreateKeepsRows(db: Db, now: int)
    requires RowsInv(db)
    ensures RowsInv(CreateRunStep(db, now).0)
  {
    var after := CreateRunStep(db, now).0;
    forall i: nat | i < |after.runs|
      ensures Explained(after, i)
    {
      assert i < |db.runs| ==> Explained(db, i);
    }
    RunsChangeKeepsRows(db, after.runs);
  }

  lemma CompleteKeepsRows(db: Db, now: int, issued: set<string>, run: nat, token: string, report: Report, strip: string -> string)
    requires RowsInv(db) && RunsInv(db.runs, now, issued)
    ensures RowsInv(CompleteStep(db, now, run, token, report, strip).0)
  {
    if ValidLease(db, now, run, token) {
      var after := CompleteStep(db, now, run, token, report, strip).0;
      assert RunOk(db.runs[run], now, issued);
      forall i: nat | i < |after.runs|
        ensures Explained(after, i)
      {
        assert Explained(db, i);
      }
      RunsChangeKeepsRows(db, after.runs);
    }
  }

  /** One more candidate for a run that is still claimed. */
  lemma NewCandidateKeepsRows(db: Db, c: Candidate)
    requires RowsInv(db) && c.run < |db.runs| && db.runs[c.run].status == Claimed
    requires CandidateCount(db, c.run) < MAX_CANDIDATES_PER_RUN && FindCandidate(db, c.run, c.url).None?
    requires Promotions(db.candidates + [c], db.sources)
    ensures RowsInv(db.(candidates := db.candidates + [c]))
  {
    var after := db.(candidates := db.candidates + [c]);
    forall r: nat
      ensures |StatusesOf(after.candidates, r)| <= MAX_CANDIDATES_PER_RUN
    {
      StatusesAppend(db.candidates, c, r);
    }
    forall i: nat | i < |after.runs|
      ensures Explained(after, i)
    {
      assert Explained(db, i);
      StatusesAppend(db.candidates, c, i);
    }
    NewCandidateIsUnique(db, c);
    assert LinksOk(after);
  }

  lemma NewCandidateIsUnique(db: Db, c: Candidate)
    requires UniqueCandidates(db.candidates) && FindCandidate(db, c.run, c.url).None?
    ensures UniqueCandidates(db.candidates + [c])
  {
    forall i: nat | i < |db.candidates|
      ensures !(db.candidates[i].run == c.run && db.candidates[i].url == c.url)
    {
      assert !IsCandidateAt(db, c.run, c.url, i);
    }
  }

  lemma SaveFailedKeepsRows(db: Db, now: int, run: nat, token: string, url: string, stage: string)
    requires RowsInv(db)
    ensures RowsInv(SaveFailedStep(db, now, run, token, url, stage).0)
  {
    if ValidLease(db, now, run, token) {
      RenewKeepsRows(db, now, run, token);
      var renewed := Renewed(db, now, run);
      if CandidateCount(db, run) < MAX_CANDIDATES_PER_RUN && FindCandidate(db, run, url).None? {
        FindIgnoresRuns(db, renewed, run, url, 0);
        NewCandidateKeepsRows(renewed, Candidate(run, url, Rejected, stage, None));
      }
    }
  }

  lemma PromoteKeepsRows(db: Db, now: int, run: nat, token: string, url: string, enabled: bool)
    requires RowsInv(db)
    ensures RowsInv(PromoteStep(db, now, run, token, url, enabled).0)
  {
    SaveFailedKeepsRows(db, now, run, token, url, "duplicate");
    if ValidLease(db, now, run, token) && CandidateCount(db, run) < MAX_CANDIDATES_PER_RUN
       && !SourceUrlTaken(db, url) && FindCandidate(db, run, url).None?
    {
      ForeignSourceKeepsRows(db, url, enabled);
      var withSource := ForeignSourceStep(db, url, enabled);
      RenewKeepsRows(withSource, now, run, token);
      var renewed := Renewed(withSource, now, run);
      FindIgnoresRuns(db, renewed, run, url, 0);
      NewCandidateKeepsRows(renewed, Candidate(run, url, Promoted, "", Some(db.nextSource)));
    }
  }

  lemma NewDraftKeepsRows(db: Db, d: Draft)
    requires RowsInv(db) && FindDraft(db, d.url).None?
    requires d.run.Some? ==>
               && d.run.value < |db.runs| && db.runs[d.run.value].status == Claimed
               && DraftCount(db.drafts, d.run.value) < MAX_EVENTS_PER_RUN
    ensures RowsInv(db.(drafts := db.drafts + [d]))
  {
    var after := db.(drafts := db.drafts + [d]);
    forall r: nat
      ensures DraftCount(after.drafts, r) == DraftCount(db.drafts, r) + if d.run == Some(r) then 1 else 0
    {
      DraftCountAppend(db.drafts, d, r);
    }
    forall i: nat | i < |after.runs|
      ensures Explained(after, i)
    {
      assert Explained(db, i);
    }
    NewDraftIsUnique(db, d);
  }

  lemma NewDraftIsUnique(db: Db, d: Draft)
    requires UniqueDrafts(db.drafts) && FindDraft(db, d.url).None?
    ensures UniqueDrafts(db.drafts + [d])
  {
    forall i: nat | i < |db.drafts|
      ensures db.drafts[i].url != d.url
    {
      assert !IsDraftAt(db, d.url, i);
    }
  }

  lemma ForeignDraftKeepsRows(db: Db, url: string)
    requires RowsInv(db)
    ensures RowsInv(ForeignDraftStep(db, url))
  {
    if FindDraft(db, url).None? {
      NewDraftKeepsRows(db, Draft(url, None));
    }
  }

  lemma SaveDraftKeepsRows(db: Db, now: int, run: nat, token: string, url: string, racer: Option<string>)
    requires RowsInv(db)
    ensures RowsInv(SaveDraftStep(db, now, run, token, url, racer).0)
  {
    if ValidLease(db, now, run, token) {
      RenewKeepsRows(db, now, run, token);
      if FindDraft(db, url).None? && DraftCount(db.drafts, run) < MAX_EVENTS_PER_RUN {
        var raced := if racer.None? then db else ForeignDraftStep(db, racer.value);
        if racer.Some? {
          ForeignDraftKeepsRows(db, racer.value);
          DraftCountAppend(db.drafts, Draft(racer.value, None), run);
        }
        RenewKeepsRows(raced, now, run, token);
        var renewed := Renewed(raced, now, run);
        FindDraftIgnoresRuns(raced, renewed, url, 0);
        if FindDraft(raced, url).None? {
          NewDraftKeepsRows(renewed, Draft(url, Some(run)));
        }
      }
    }
  }

  lemma ForeignSourceKeepsRows(db: Db, url: string, enabled: bool)
    requires RowsInv(db)
    ensures RowsInv(ForeignSourceStep(db, url, enabled))
  {
    var after := ForeignSourceStep(db, url, enabled);
    forall i: nat | i < |after.runs|
      ensures Explained(after, i)
    {
      assert Explained(db, i);
    }
  }

  lemma EditSourceKeepsRows(db: Db, source: nat, url: string, enabled: bool)
    requires RowsInv(db)
    ensures RowsInv(EditSourceStep(db, source, url, enabled))
  {
    var after := EditSourceStep(db, source, url, enabled);
    var others := db.sources - {source};
    assert forall x | x in others :: others[x] == db.sources[x];
    assert after != db ==> forall x | x in db.sources && x != source :: x in others && others[x].url != url;
    forall i: nat | i < |after.runs|
      ensures Explained(after, i)
    {
      assert Explained(db, i);
    }
  }

  lemma DeleteSourceKeepsRows(db: Db, source: nat)
    requires RowsInv(db)
    ensures RowsInv(DeleteSourceStep(db, source))
  {
    var after := DeleteSourceStep(db, source);
    forall r: nat
      ensures StatusesOf(after.candidates, r) == StatusesOf(db.candidates, r)
    {
      StatusesSurviveDetaching(after.candidates, db.candidates, r);
    }
    forall i: nat | i < |after.runs|
      ensures Explained(after, i)
    {
      assert Explained(db, i);
    }
    assert forall i | 0 <= i < |db.candidates| :: after.candidates[i] == Detached(db.candidates[i], source);
  }
}
