/** Runner and server together: what the runner saw is what the finished run says for ever after. */
module DiscoveryReport {
  import opened Options
  import opened EventOutcomes
  import opened DiscoveryTables
  import opened DiscoverySystem
  import opened DiscoveryTheorems
  import RunnerFlow

  /** What the runner reports of a flow that did not lose its lease. */
  function ReportOf(r: RunnerFlow.FlowResult): Report
    requires !r.LostLease?
  {
    var s := SummaryOf(r);
    Report(r.FlowError?, if r.FlowError? then "exploration_error" else "", s.attempted, s.failed, s.excluded,
           RunnerFlow.AllReported(s.outcomes))
  }

  function SummaryOf(r: RunnerFlow.FlowResult): RunnerFlow.Summary
    requires !r.LostLease?
  {
    if r.Completed? then r.summary else r.partial
  }

  // ---------------------------------------------------------------- what the server has answered

  /** Step `n` answered the submission of that URL for the run with "created". */
  ghost predicate AnsweredCreated(s: System, steps: seq<Action>, n: nat, run: nat, url: string)
    requires n < |steps|
  {
    var before := After(s, steps[..n]);
    && steps[n].EndDraft? && steps[n].job in before.jobs
    && before.jobs[steps[n].job].run == run && before.jobs[steps[n].job].url == url
    && Apply(before, steps[n]).1.Row? && Apply(before, steps[n]).1.created
  }

  lemma {:induction false} AfterInTwo(s: System, steps: seq<Action>, n: nat)
    requires n <= |steps|
    ensures After(s, steps) == After(After(s, steps[..n]), steps[n..])
  {
    if n < |steps| {
      var last := |steps| - 1;
      AfterInTwo(s, steps[..last], n);
      assert steps[..last][..n] == steps[..n] && steps[..last][n..] == steps[n..][..last - n];
    } else {
      assert steps[..n] == steps;
    }
  }

  /** An answer "created" leaves its URL among the run's own for good. */
  lemma AnsweredUrlIsKnown(s: System, steps: seq<Action>, n: nat, run: nat, url: string)
    requires n < |steps| && AnsweredCreated(s, steps, n, run, url)
    ensures url in CreatedUrls(After(s, steps).db, run)
  {
    var before := After(s, steps[..n]);
    assert steps[..n + 1][..n] == steps[..n];
    AfterInTwo(s, steps, n + 1);
    CreatedEventIsKnown(before, steps[n].job, steps[n].racer, steps[n + 1..], Apply(before, steps[n]).1.index);
  }

  /** The runner read its answers off the server: where an event with a sound URL was answered "created", some step
      gave that answer for its URL without tracking parameters; exclusions come with one of the server's two reasons. */
  ghost predicate Heard(s: System, steps: seq<Action>, run: nat, events: seq<RunnerFlow.Event>, ctx: RunnerFlow.Context,
                        strip: string -> string) {
    forall e | e in events && RunnerFlow.Submitted(e, ctx) ::
      && (e.answer.AnsweredExcluded? ==> e.answer.reason in {"overseas", "ended"})
      && (e.answer == RunnerFlow.AnsweredCreated && RunnerFlow.SoundUrl(e.url) ==>
            exists n: nat | n < |steps| :: AnsweredCreated(s, steps, n, run, strip(e.url)))
  }

  /** Of the server's tests only the one on the URL is left. */
  lemma HeardOutcomesSurvive(s: System, steps: seq<Action>, run: nat, events: seq<RunnerFlow.Event>, ctx: RunnerFlow.Context,
                             strip: string -> string)
    requires Heard(s, steps, run, events, ctx, strip)
    ensures forall o | o in RunnerFlow.Flow(events, ctx).0.outcomes ::
              RunnerFlow.Survives(o, CreatedUrls(After(s, steps).db, run), strip) <==> RunnerFlow.SoundUrl(o.url)
  {
    RunnerFlow.OutcomesTell(events, ctx);
    forall o | o in RunnerFlow.Flow(events, ctx).0.outcomes
      ensures RunnerFlow.Survives(o, CreatedUrls(After(s, steps).db, run), strip) <==> RunnerFlow.SoundUrl(o.url)
    {
      var e :| e in events && RunnerFlow.Tells(o, e, ctx);
      if o.outcome == "created" && RunnerFlow.SoundUrl(o.url) {
        var n: nat :| n < |steps| && AnsweredCreated(s, steps, n, run, strip(e.url));
        AnsweredUrlIsKnown(s, steps, n, run, strip(e.url));
      }
    }
  }

  // ---------------------------------------------------------------- the report

  /** The outcomes with a sound URL, in order. */
  function SoundOnes(outcomes: seq<EventOutcome>): seq<EventOutcome> {
    if outcomes == [] then []
    else
      var n := |outcomes| - 1;
      SoundOnes(outcomes[..n]) + if RunnerFlow.SoundUrl(outcomes[n].url) then [outcomes[n]] else []
  }

  /** `part` is `whole` with entries left out. */
  predicate Within(part: seq<EventOutcome>, whole: seq<EventOutcome>) {
    if part == [] then true
    else
      && whole != []
      && (|| (part[|part| - 1] == whole[|whole| - 1] && Within(part[..|part| - 1], whole[..|whole| - 1]))
          || Within(part, whole[..|whole| - 1]))
  }

  lemma {:induction false} WithinHolds(part: seq<EventOutcome>, whole: seq<EventOutcome>)
    requires Within(part, whole)
    ensures forall o | o in part :: o in whole
  {
    if part != [] {
      var p, w := |part| - 1, |whole| - 1;
      assert part == part[..p] + [part[p]] && whole == whole[..w] + [whole[w]];
      if part[p] == whole[w] && Within(part[..p], whole[..w]) {
        WithinHolds(part[..p], whole[..w]);
      } else {
        WithinHolds(part, whole[..w]);
      }
    }
  }

  lemma {:induction false} SoundOnesHold(outcomes: seq<EventOutcome>)
    ensures forall o | o in outcomes && RunnerFlow.SoundUrl(o.url) :: o in SoundOnes(outcomes)
  {
    if outcomes != [] {
      SoundOnesHold(outcomes[..|outcomes| - 1]);
      assert outcomes == outcomes[..|outcomes| - 1] + [outcomes[|outcomes| - 1]];
    }
  }

  /** The server's cleaning loses no outcome with a sound URL, and keeps them in order. What it makes of an unsound one,
      a sanitised URL or nothing, stands in between. */
  lemma {:induction false} SoundOnesAreKept(outcomes: seq<EventOutcome>, known: set<string>, strip: string -> string)
    requires forall o | o in outcomes && RunnerFlow.SoundUrl(o.url) :: CleanItem(RunnerFlow.Reported(o), known, strip) == Some(o)
    ensures Within(SoundOnes(outcomes), CleanAll(RunnerFlow.AllReported(outcomes), known, strip))
  {
    if outcomes != [] {
      var init, o := outcomes[..|outcomes| - 1], outcomes[|outcomes| - 1];
      assert outcomes == init + [o];
      SoundOnesAreKept(init, known, strip);
      SoundOneMore(init, o);
      CleanOneMore(init, o, known, strip);
      OneMoreKept(SoundOnes(init), CleanAll(RunnerFlow.AllReported(init), known, strip), o, CleanItem(RunnerFlow.Reported(o), known, strip));
    }
  }

  function Extended(s: seq<EventOutcome>, more: Option<EventOutcome>): seq<EventOutcome> {
    if more.Some? then s + [more.value] else s
  }

  lemma SoundOneMore(init: seq<EventOutcome>, o: EventOutcome)
    ensures SoundOnes(init + [o]) == Extended(SoundOnes(init), if RunnerFlow.SoundUrl(o.url) then Some(o) else None)
  {
    assert (init + [o])[..|init|] == init;
  }

  lemma CleanOneMore(init: seq<EventOutcome>, o: EventOutcome, known: set<string>, strip: string -> string)
    ensures CleanAll(RunnerFlow.AllReported(init + [o]), known, strip)
         == Extended(CleanAll(RunnerFlow.AllReported(init), known, strip), CleanItem(RunnerFlow.Reported(o), known, strip))
  {
    var raw := RunnerFlow.AllReported(init + [o]);
    assert raw[..|raw| - 1] == RunnerFlow.AllReported(init);
  }

  lemma OneMoreKept(part: seq<EventOutcome>, whole: seq<EventOutcome>, o: EventOutcome, kept: Option<EventOutcome>)
    requires Within(part, whole)
    ensures kept == Some(o) ==> Within(Extended(part, Some(o)), Extended(whole, kept))
    ensures Within(Extended(part, None), Extended(whole, kept))
  {
    assert (part + [o])[..|part|] == part && (whole + [o])[..|whole|] == whole;
    if kept.Some? {
      assert (whole + [kept.value])[..|whole|] == whole;
    }
  }

  /** What a finished run holds of the summary that was reported: the counters, and each outcome with a sound URL, in
      order; the very list exactly if all URLs are sound. */
  ghost predicate Holds(r: Run, s: RunnerFlow.Summary) {
    && r.eventsAttempted == s.attempted && r.eventsFailed == s.failed && r.eventsExcluded == s.excluded
    && Within(SoundOnes(s.outcomes), r.eventOutcomes)
    && (forall o | o in s.outcomes && RunnerFlow.SoundUrl(o.url) :: o in r.eventOutcomes)
    && (r.eventOutcomes == s.outcomes <==> forall o | o in s.outcomes :: RunnerFlow.SoundUrl(o.url))
  }

  lemma ReportIsHeld(s: System, run: nat, events: seq<RunnerFlow.Event>, sources: seq<RunnerFlow.FoundSource>,
                     ctx: RunnerFlow.Context, strip: string -> string)
    requires run < |s.db.runs| && |events| <= MAX_EVENTS_PER_RUN && !RunnerFlow.FlowResultOf(events, sources, ctx).LostLease?
    requires forall o | o in RunnerFlow.Flow(events, ctx).0.outcomes ::
               RunnerFlow.Survives(o, CreatedUrls(s.db, run), strip) <==> RunnerFlow.SoundUrl(o.url)
    ensures var result := RunnerFlow.FlowResultOf(events, sources, ctx);
            Holds(Finished(s.db, s.now, run, ReportOf(result), strip), SummaryOf(result))
  {
    var outcomes, known := RunnerFlow.Flow(events, ctx).0.outcomes, CreatedUrls(s.db, run);
    RunnerFlow.FlowBalances(events, ctx);
    RunnerFlow.TheReportIsStoredWhole(events, ctx, known, strip);
    SoundOutcomesAreClean(events, ctx, known, strip);
    SoundOnesAreKept(outcomes, known, strip);
    SoundOnesHold(outcomes);
    RunnerFlow.CleanAllKeepsAll(outcomes, known, strip);
    WithinHolds(SoundOnes(outcomes), CleanAll(RunnerFlow.AllReported(outcomes), known, strip));
  }

  lemma SoundOutcomesAreClean(events: seq<RunnerFlow.Event>, ctx: RunnerFlow.Context, known: set<string>, strip: string -> string)
    requires forall o | o in RunnerFlow.Flow(events, ctx).0.outcomes :: RunnerFlow.Survives(o, known, strip) <==> RunnerFlow.SoundUrl(o.url)
    ensures forall o | o in RunnerFlow.Flow(events, ctx).0.outcomes && RunnerFlow.SoundUrl(o.url) ::
              CleanItem(RunnerFlow.Reported(o), known, strip) == Some(o)
  {
    RunnerFlow.OutcomesTell(events, ctx);
    forall o | o in RunnerFlow.Flow(events, ctx).0.outcomes && RunnerFlow.SoundUrl(o.url)
      ensures CleanItem(RunnerFlow.Reported(o), known, strip) == Some(o)
    {
      var e :| e in events && RunnerFlow.Tells(o, e, ctx);
      RunnerFlow.OutcomeSurvives(o, known, strip);
    }
  }

  /** From any steps of the system to a report under a live lease, and in every state after it, whatever URLs the
      exploration found: if the runner read its answers off the server, the run holds the runner's counters, each outcome
      with a sound URL, and the whole list exactly if all URLs are sound. The counters balance, except for at most one
      event of an aborted flow, and the status follows: from the rows and counters of a completed flow, and for an aborted
      one partially failed exactly when something was promoted. The runner works on the first 20 events found. */
  lemma TheRunTellsWhatTheRunnerSaw(s: System, steps: seq<Action>, run: nat, token: string, found: seq<RunnerFlow.Event>,
                                    sources: seq<RunnerFlow.FoundSource>, ctx: RunnerFlow.Context, strip: string -> string,
                                    later: seq<Action>)
    requires Inv(s) && ValidLease(After(s, steps).db, After(s, steps).now, run, token)
    requires var events := Take(found, MAX_EVENTS_PER_RUN);
             !RunnerFlow.FlowResultOf(events, sources, ctx).LostLease? && Heard(s, steps, run, events, ctx, strip)
    ensures var events := Take(found, MAX_EVENTS_PER_RUN);
            var result := RunnerFlow.FlowResultOf(events, sources, ctx);
            var end := After(Apply(After(s, steps), Complete(run, token, ReportOf(result), strip)).0, later).db;
            && run < |end.runs| && Holds(end.runs[run], SummaryOf(result))
            && var r, statuses := end.runs[run], StatusesOf(end.candidates, run);
               var accounted := RunnerFlow.Accounted(SummaryOf(result), RunnerFlow.Flow(events, ctx).0.unrecognised);
               if result.Completed? then
                 && r.eventsAttempted == accounted
                 && r.status == Combine(ClassifyCandidates(statuses),
                                        ClassifyEvents(r.eventsAttempted, r.eventsFailed, DraftCount(end.drafts, run)))
               else
                 && r.eventsAttempted - 1 <= accounted <= r.eventsAttempted
                 && r.status == if Promoted in statuses then PartiallyFailed else Failed
  {
    var events := Take(found, MAX_EVENTS_PER_RUN);
    var result := RunnerFlow.FlowResultOf(events, sources, ctx);
    EveryReachableStateIsSafe(s, steps);
    HeardOutcomesSurvive(s, steps, run, events, ctx, strip);
    ReportIsHeld(After(s, steps), run, events, sources, ctx, strip);
    CompletedRunIsFrozen(After(s, steps), run, token, ReportOf(result), strip, later);
    TerminalStatusStaysExplained(After(s, steps), run, token, ReportOf(result), strip, later);
    RunnerFlow.TheBooksBalance(events, sources, ctx);
  }
}
