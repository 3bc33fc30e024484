/** What each event adds to the runner's tally, said of the event and of those before it. */
module RunnerEffects {
  import opened Options
  import opened EventOutcomes
  import opened RunnerFlow

  // ---------------------------------------------------------------- which events are worked on

  /** The server does not know the event's URL, so it counts as an attempt. */
  predicate Unknown(e: Event, ctx: Context) {
    e.readable && e.url in ctx.unknownUrls
  }

  predicate SaidEnded(e: Event, ctx: Context) {
    e.whyExcluded == "ended" && e.endDate.Some? && e.endDate.value < ctx.today
  }

  predicate SaidOverseas(e: Event, ctx: Context) {
    e.whyExcluded == "overseas" && e.host.Some? && e.host.value in ctx.notKoreanHosts
  }

  /** An earlier event of the same host was read and came back blocked. */
  ghost predicate HostBlocked(events: seq<Event>, i: nat, ctx: Context)
    requires i < |events|
    decreases i, 0
  {
    exists k: nat | k < i :: events[k].host == events[i].host && events[k].fetched == Blocked && WasRead(events, k, ctx)
  }

  /** The event's page was read: it is new, the agent did not mark it, and its host is not blocked. */
  ghost predicate WasRead(events: seq<Event>, i: nat, ctx: Context)
    requires i < |events|
    decreases i, 1
  {
    Unknown(events[i], ctx) && !SaidEnded(events[i], ctx) && !SaidOverseas(events[i], ctx) && !HostBlocked(events, i, ctx)
  }

  ghost predicate WasInterpreted(events: seq<Event>, i: nat, ctx: Context)
    requires i < |events|
  {
    WasRead(events, i, ctx) && events[i].fetched == Page
  }

  ghost predicate WasEvent(events: seq<Event>, i: nat, ctx: Context)
    requires i < |events|
  {
    WasInterpreted(events, i, ctx) && events[i].interpreted.Fields? && events[i].interpreted.isEvent && events[i].interpreted.titled
  }

  predicate IsOver(e: Event, ctx: Context)
    requires e.interpreted.Fields?
  {
    e.interpreted.lastDate.Some? && e.interpreted.lastDate.value < ctx.today
  }

  ghost predicate WasSubmitted(events: seq<Event>, i: nat, ctx: Context)
    requires i < |events|
  {
    WasEvent(events, i, ctx) && !events[i].interpreted.notKorean && !IsOver(events[i], ctx)
  }

  // ---------------------------------------------------------------- what an event adds

  /** The entries that the i-th event adds to the runner's list. */
  function Added(events: seq<Event>, i: nat, ctx: Context): seq<EventOutcome>
    requires i < |events|
  {
    var before, after := Flow(events[..i], ctx).0.outcomes, Flow(events[..i + 1], ctx).0.outcomes;
    if |before| <= |after| then after[|before|..] else []
  }

  ghost predicate Adds(events: seq<Event>, i: nat, ctx: Context, outcome: string, reason: string)
    requires i < |events|
  {
    Added(events, i, ctx) == [EventOutcome(events[i].url, outcome, reason)]
  }

  lemma OneEventFurther(events: seq<Event>, i: nat, ctx: Context)
    requires i < |events| && Flow(events[..i], ctx).1 == Continue
    ensures var before := Flow(events[..i], ctx).0;
            var effect := EffectOf(events[i], ctx, before.blockedHosts);
            && Flow(events[..i + 1], ctx) == (Plus(before, events[i], effect), effect.signal)
            && Added(events, i, ctx) == effect.record
  {
    assert events[..i + 1][..i] == events[..i];
  }

  lemma {:induction false} EarlierPrefixGoesOn(events: seq<Event>, k: nat, i: nat, ctx: Context)
    requires k <= i <= |events| && Flow(events[..i], ctx).1 == Continue
    ensures Flow(events[..k], ctx).1 == Continue
    decreases i
  {
    if k < i {
      assert events[..i][..i - 1] == events[..i - 1];
      EarlierPrefixGoesOn(events, k, i - 1, ctx);
    }
  }

  /** The hosts the tally holds are those of the events that were read and came back blocked. */
  lemma {:induction false} BlockedHostsTell(events: seq<Event>, i: nat, ctx: Context, host: Option<string>)
    requires i <= |events| && Flow(events[..i], ctx).1 == Continue
    ensures host in Flow(events[..i], ctx).0.blockedHosts <==>
            exists k: nat | k < i :: events[k].host == host && events[k].fetched == Blocked && WasRead(events, k, ctx)
  {
    if i > 0 {
      EarlierPrefixGoesOn(events, i - 1, i, ctx);
      BlockedHostsTell(events, i - 1, ctx, host);
      BlockedHostsTell(events, i - 1, ctx, events[i - 1].host);
      OneEventFurther(events, i - 1, ctx);
      BlocksIfRead(events, i - 1, ctx);
    } else {
      assert events[..0] == [];
    }
  }

  lemma BlocksIfRead(events: seq<Event>, i: nat, ctx: Context)
    requires i < |events| && Flow(events[..i], ctx).1 == Continue
    requires events[i].host in Flow(events[..i], ctx).0.blockedHosts <==> HostBlocked(events, i, ctx)
    ensures EffectOf(events[i], ctx, Flow(events[..i], ctx).0.blockedHosts).blocks <==>
              WasRead(events, i, ctx) && events[i].fetched == Blocked
  {
  }

  // ---------------------------------------------------------------- the ways an event can end

  datatype Case =
    | KnownUrl | AgentEnded | AgentOverseas | OnBlockedHost
    | CameBlocked | FetchFailed | CameEmpty
    | NotUnderstood | NotEvent | NoTitle | Overseas | Ended
    | Refused | ServerOverseas | ServerEnded | ServerOther | Created | Duplicate
    | Silent

  /** The entry of each; Silent has none. */
  function Label(c: Case): (string, string) {
    match c
    case KnownUrl => ("skipped", "known_url")
    case AgentEnded => ("skipped", "agent_ended")
    case AgentOverseas => ("skipped", "agent_overseas")
    case OnBlockedHost => ("failed", "host_blocked")
    case CameBlocked => ("failed", "blocked")
    case FetchFailed => ("failed", "fetch_error")
    case CameEmpty => ("failed", "fetch_empty")
    case NotUnderstood => ("failed", "interpret_error")
    case NotEvent => ("excluded", "not_event")
    case NoTitle => ("failed", "no_title")
    case Overseas => ("excluded", "overseas")
    case Ended => ("excluded", "ended")
    case Refused => ("failed", "submit_error")
    case ServerOverseas => ("excluded", "server_overseas")
    case ServerEnded => ("excluded", "server_ended")
    case ServerOther => ("excluded", "")
    case Created => ("created", "")
    case Duplicate => ("duplicate", "")
    case Silent => ("", "")
  }

  /** When each applies. No two apply to one event. */
  ghost predicate Applies(c: Case, events: seq<Event>, i: nat, ctx: Context)
    requires i < |events|
  {
    var e := events[i];
    match c
    case KnownUrl => e.readable && e.url !in ctx.unknownUrls
    case AgentEnded => Unknown(e, ctx) && SaidEnded(e, ctx)
    case AgentOverseas => Unknown(e, ctx) && !SaidEnded(e, ctx) && SaidOverseas(e, ctx)
    case OnBlockedHost => Unknown(e, ctx) && !SaidEnded(e, ctx) && !SaidOverseas(e, ctx) && HostBlocked(events, i, ctx)
    case CameBlocked => WasRead(events, i, ctx) && e.fetched == Blocked
    case FetchFailed => WasRead(events, i, ctx) && e.fetched == ExpectedFailure
    case CameEmpty => WasRead(events, i, ctx) && e.fetched == NoContent
    case NotUnderstood => WasInterpreted(events, i, ctx) && e.interpreted.AdapterFailure?
    case NotEvent => WasInterpreted(events, i, ctx) && e.interpreted.Fields? && !e.interpreted.isEvent
    case NoTitle => WasInterpreted(events, i, ctx) && e.interpreted.Fields? && e.interpreted.isEvent && !e.interpreted.titled
    case Overseas => WasEvent(events, i, ctx) && e.interpreted.notKorean
    case Ended => WasEvent(events, i, ctx) && !e.interpreted.notKorean && IsOver(e, ctx)
    case Refused => WasSubmitted(events, i, ctx) && e.answer == HttpFailure
    case ServerOverseas => WasSubmitted(events, i, ctx) && e.answer == AnsweredExcluded("overseas")
    case ServerEnded => WasSubmitted(events, i, ctx) && e.answer == AnsweredExcluded("ended")
    case ServerOther => WasSubmitted(events, i, ctx) && e.answer.AnsweredExcluded? && e.answer.reason !in {"overseas", "ended"}
    case Created => WasSubmitted(events, i, ctx) && e.answer == AnsweredCreated
    case Duplicate => WasSubmitted(events, i, ctx) && e.answer == AnsweredDuplicate
    case Silent =>
      || !e.readable
      || (WasRead(events, i, ctx) && e.fetched == FetchCrash)
      || (WasInterpreted(events, i, ctx) && e.interpreted.InterpretCrash?)
      || (WasSubmitted(events, i, ctx) && e.answer in {Conflict, SubmitCrash, Unrecognised})
  }

  lemma SkipCases(e: Event, ctx: Context, hosts: set<Option<string>>)
    requires e.readable
    ensures var record := EffectOf(e, ctx, hosts).record;
            if e.url !in ctx.unknownUrls then record == [EventOutcome(e.url, "skipped", "known_url")]
            else if SaidEnded(e, ctx) then record == [EventOutcome(e.url, "skipped", "agent_ended")]
            else if SaidOverseas(e, ctx) then record == [EventOutcome(e.url, "skipped", "agent_overseas")]
            else if e.host in hosts then record == [EventOutcome(e.url, "failed", "host_blocked")]
            else record == WorkEffect(e, ctx).record
  {
  }

  lemma UnreadCases(e: Event, ctx: Context)
    requires e.fetched != Page
    ensures WorkEffect(e, ctx).record ==
            match e.fetched
            case Blocked => [EventOutcome(e.url, "failed", "blocked")]
            case ExpectedFailure => [EventOutcome(e.url, "failed", "fetch_error")]
            case NoContent => [EventOutcome(e.url, "failed", "fetch_empty")]
            case _ => []
  {
  }

  lemma ReadCases(e: Event, ctx: Context)
    requires e.fetched == Page
    ensures var record := WorkEffect(e, ctx).record;
            match e.interpreted
            case AdapterFailure => record == [EventOutcome(e.url, "failed", "interpret_error")]
            case InterpretCrash => record == []
            case Fields(isEvent, titled, notKorean, _) =>
              if !isEvent then record == [EventOutcome(e.url, "excluded", "not_event")]
              else if !titled then record == [EventOutcome(e.url, "failed", "no_title")]
              else if notKorean then record == [EventOutcome(e.url, "excluded", "overseas")]
              else IsOver(e, ctx) ==> record == [EventOutcome(e.url, "excluded", "ended")]
  {
  }

  predicate Submittable(e: Event, ctx: Context) {
    && e.fetched == Page && e.interpreted.Fields? && e.interpreted.isEvent && e.interpreted.titled
    && !e.interpreted.notKorean && !IsOver(e, ctx)
  }

  lemma SubmittedCases(e: Event, ctx: Context)
    requires Submittable(e, ctx)
    ensures WorkEffect(e, ctx).record ==
            match e.answer
            case HttpFailure => [EventOutcome(e.url, "failed", "submit_error")]
            case AnsweredExcluded(reason) =>
              [EventOutcome(e.url, "excluded",
                            if reason == "overseas" then "server_overseas" else if reason == "ended" then "server_ended" else "")]
            case AnsweredCreated => [EventOutcome(e.url, "created", "")]
            case AnsweredDuplicate => [EventOutcome(e.url, "duplicate", "")]
            case _ => []
  {
  }

  function Entry(url: string, c: Case): seq<EventOutcome> {
    if c.Silent? then [] else [EventOutcome(url, Label(c).0, Label(c).1)]
  }

  /** The entry of the case that applies is what is added. */
  lemma CaseDecidesEntry(events: seq<Event>, i: nat, ctx: Context, c: Case)
    requires i < |events| && Flow(events[..i], ctx).1 == Continue && Applies(c, events, i, ctx)
    ensures Added(events, i, ctx) == Entry(events[i].url, c)
  {
    var e, hosts := events[i], Flow(events[..i], ctx).0.blockedHosts;
    BlockedHostsTell(events, i, ctx, e.host);
    OneEventFurther(events, i, ctx);
    assert e.host in hosts <==> HostBlocked(events, i, ctx);
    EntryOfCase(events, i, ctx, c, hosts);
  }

  lemma EntryOfCase(events: seq<Event>, i: nat, ctx: Context, c: Case, hosts: set<Option<string>>)
    requires i < |events| && Applies(c, events, i, ctx) && (events[i].host in hosts <==> HostBlocked(events, i, ctx))
    ensures EffectOf(events[i], ctx, hosts).record == Entry(events[i].url, c)
  {
    var e := events[i];
    if e.readable {
      SkipCases(e, ctx, hosts);
      if e.fetched != Page {
        UnreadCases(e, ctx);
      } else {
        ReadCases(e, ctx);
        if Submittable(e, ctx) {
          SubmittedCases(e, ctx);
        }
      }
    }
  }

  lemma SomeCaseApplies(events: seq<Event>, i: nat, ctx: Context) returns (c: Case)
    requires i < |events|
    ensures Applies(c, events, i, ctx)
  {
    var e := events[i];
    if !e.readable {
      c := Silent;
    } else if e.url !in ctx.unknownUrls {
      c := KnownUrl;
    } else if SaidEnded(e, ctx) {
      c := AgentEnded;
    } else if SaidOverseas(e, ctx) {
      c := AgentOverseas;
    } else if HostBlocked(events, i, ctx) {
      c := OnBlockedHost;
    } else {
      c := CaseOfRead(e, ctx);
    }
  }

  function CaseOfRead(e: Event, ctx: Context): Case {
    match e.fetched
    case Blocked => CameBlocked
    case ExpectedFailure => FetchFailed
    case NoContent => CameEmpty
    case FetchCrash => Silent
    case Page =>
      if e.interpreted.AdapterFailure? then NotUnderstood
      else if e.interpreted.InterpretCrash? then Silent
      else if !e.interpreted.isEvent then NotEvent
      else if !e.interpreted.titled then NoTitle
      else if e.interpreted.notKorean then Overseas
      else if IsOver(e, ctx) then Ended
      else match e.answer
        case HttpFailure => Refused
        case AnsweredExcluded(reason) =>
          if reason == "overseas" then ServerOverseas else if reason == "ended" then ServerEnded else ServerOther
        case AnsweredCreated => Created
        case AnsweredDuplicate => Duplicate
        case _ => Silent
  }

  // The entries differ in their words.

  function CaseOfOutcome(outcome: string): Case {
    if outcome == "created" then Created else if outcome == "duplicate" then Duplicate
    else if outcome == "skipped" then KnownUrl else if outcome == "failed" then OnBlockedHost else NotEvent
  }

  function Kind(c: Case): Case {
    match c
    case Created => Created
    case Duplicate => Duplicate
    case KnownUrl => KnownUrl
    case AgentEnded => KnownUrl
    case AgentOverseas => KnownUrl
    case OnBlockedHost => OnBlockedHost
    case CameBlocked => OnBlockedHost
    case FetchFailed => OnBlockedHost
    case CameEmpty => OnBlockedHost
    case NotUnderstood => OnBlockedHost
    case NoTitle => OnBlockedHost
    case Refused => OnBlockedHost
    case _ => NotEvent
  }

  lemma OutcomesDiffer(c: Case)
    requires !c.Silent?
    ensures CaseOfOutcome(Label(c).0) == Kind(c)
  {
    assert "created"[0] == 'c' && "duplicate"[0] == 'd' && "skipped"[0] == 's' && "failed"[0] == 'f' && "excluded"[0] == 'e';
  }

  function FailureOf(reason: string): Case {
    if |reason| == 12 && reason[0] == 'h' then OnBlockedHost else if |reason| == 7 then CameBlocked else if |reason| == 8 then NoTitle
    else if |reason| == 15 then NotUnderstood
    else if |reason| > 6 && reason[6] == 'e' && reason[0] == 'f' && reason[7] == 'r' then FetchFailed
    else if |reason| > 6 && reason[6] == 'e' && reason[0] == 'f' then CameEmpty else Refused
  }

  lemma FailuresDiffer(c: Case)
    requires Kind(c) == OnBlockedHost
    ensures FailureOf(Label(c).1) == c
  {
    match c
    case OnBlockedHost => assert |"host_blocked"| == 12 && "host_blocked"[0] == 'h';
    case CameBlocked => assert |"blocked"| == 7;
    case NoTitle => assert |"no_title"| == 8;
    case NotUnderstood => assert |"interpret_error"| == 15;
    case FetchFailed => assert |"fetch_error"| == 11 && "fetch_error"[6] == 'e' && "fetch_error"[7] == 'r';
    case CameEmpty => assert |"fetch_empty"| == 11 && "fetch_empty"[6] == 'e' && "fetch_empty"[7] == 'm';
    case Refused => assert |"submit_error"| == 12 && "submit_error"[0] == 's';
  }

  lemma ReasonsDiffer(c: Case, d: Case)
    requires Kind(c) == Kind(d) && Kind(c) != OnBlockedHost && !c.Silent? && !d.Silent? && Label(c) == Label(d)
    ensures c == d
  {
  }

  lemma LabelsDiffer(c: Case, d: Case)
    requires !c.Silent? && !d.Silent? && Label(c) == Label(d)
    ensures c == d
  {
    OutcomesDiffer(c);
    OutcomesDiffer(d);
    if Kind(c) == OnBlockedHost {
      FailuresDiffer(c);
      FailuresDiffer(d);
    } else {
      ReasonsDiffer(c, d);
    }
  }

  /** Each entry is added exactly in its case: "created" exactly for an event that was submitted and answered created,
      "host_blocked" exactly if an earlier event of the host was read and came back blocked, and so on. */
  lemma EntryTellsItsCase(events: seq<Event>, i: nat, ctx: Context, c: Case)
    requires i < |events| && Flow(events[..i], ctx).1 == Continue && !c.Silent?
    ensures Adds(events, i, ctx, Label(c).0, Label(c).1) <==> Applies(c, events, i, ctx)
  {
    var d := SomeCaseApplies(events, i, ctx);
    CaseDecidesEntry(events, i, ctx, d);
    if Applies(c, events, i, ctx) {
      CaseDecidesEntry(events, i, ctx, c);
    }
    if Adds(events, i, ctx, Label(c).0, Label(c).1) {
      assert Entry(events[i].url, d)[0] == EventOutcome(events[i].url, Label(c).0, Label(c).1);
      LabelsDiffer(c, d);
    }
  }

  /** In words, for the outcomes that matter most. */
  lemma CreatedIsTheServersWord(events: seq<Event>, i: nat, ctx: Context)
    requires i < |events| && Flow(events[..i], ctx).1 == Continue
    ensures Adds(events, i, ctx, "created", "") <==> WasSubmitted(events, i, ctx) && events[i].answer == AnsweredCreated
    ensures Adds(events, i, ctx, "duplicate", "") <==> WasSubmitted(events, i, ctx) && events[i].answer == AnsweredDuplicate
    ensures Adds(events, i, ctx, "skipped", "known_url") <==> events[i].readable && events[i].url !in ctx.unknownUrls
    ensures Adds(events, i, ctx, "failed", "host_blocked") <==>
              && Unknown(events[i], ctx) && !SaidEnded(events[i], ctx) && !SaidOverseas(events[i], ctx)
              && HostBlocked(events, i, ctx)
  {
    EntryTellsItsCase(events, i, ctx, Created);
    EntryTellsItsCase(events, i, ctx, Duplicate);
    EntryTellsItsCase(events, i, ctx, KnownUrl);
    EntryTellsItsCase(events, i, ctx, OnBlockedHost);
  }

  // ---------------------------------------------------------------- attempts and endings

  predicate Read(e: Event, ctx: Context, hosts: set<Option<string>>) {
    Unknown(e, ctx) && !SaidEnded(e, ctx) && !SaidOverseas(e, ctx) && e.host !in hosts
  }

  lemma AttemptsAndSignals(e: Event, ctx: Context, hosts: set<Option<string>>)
    ensures var f := EffectOf(e, ctx, hosts);
            && f.attempted == (if Unknown(e, ctx) then 1 else 0)
            && (f.signal == LeaseLost <==> Read(e, ctx, hosts) && Submittable(e, ctx) && e.answer == Conflict)
            && (f.signal == Crashed <==>
                  || !e.readable
                  || (Read(e, ctx, hosts) && e.fetched == FetchCrash)
                  || (Read(e, ctx, hosts) && e.fetched == Page && e.interpreted.InterpretCrash?)
                  || (Read(e, ctx, hosts) && Submittable(e, ctx) && e.answer == SubmitCrash))
  {
  }

  /** An event is an attempt exactly if the server does not know it, and stops the flow exactly on a lost lease or on an
      exception nobody expects. */
  lemma EventCountsAndStops(events: seq<Event>, i: nat, ctx: Context)
    requires i < |events| && Flow(events[..i], ctx).1 == Continue
    ensures var before, after, signal := Flow(events[..i], ctx).0, Flow(events[..i + 1], ctx).0, Flow(events[..i + 1], ctx).1;
            var e := events[i];
            && after.attempted == before.attempted + (if Unknown(e, ctx) then 1 else 0)
            && after.outcomes == before.outcomes + Added(events, i, ctx)
            && (signal == LeaseLost <==> WasSubmitted(events, i, ctx) && e.answer == Conflict)
            && (signal == Crashed <==>
                  || !e.readable
                  || (WasRead(events, i, ctx) && e.fetched == FetchCrash)
                  || (WasInterpreted(events, i, ctx) && e.interpreted.InterpretCrash?)
                  || (WasSubmitted(events, i, ctx) && e.answer == SubmitCrash))
  {
    var e, hosts := events[i], Flow(events[..i], ctx).0.blockedHosts;
    BlockedHostsTell(events, i, ctx, e.host);
    assert e.host in hosts <==> HostBlocked(events, i, ctx);
    OneEventFurther(events, i, ctx);
    AttemptsAndSignals(e, ctx, hosts);
  }

  // ---------------------------------------------------------------- whole flows

  function UnknownOnes(events: seq<Event>, ctx: Context): set<int> {
    set i | 0 <= i < |events| && events[i].url in ctx.unknownUrls
  }

  lemma OneMoreUnknown(earlier: seq<Event>, e: Event, ctx: Context)
    ensures |UnknownOnes(earlier + [e], ctx)| == |UnknownOnes(earlier, ctx)| + if e.url in ctx.unknownUrls then 1 else 0
  {
    assert UnknownOnes(earlier + [e], ctx) == UnknownOnes(earlier, ctx) + if e.url in ctx.unknownUrls then {|earlier|} else {};
  }

  /** A completed flow has attempted exactly the events that the server does not know. */
  lemma {:induction false} AttemptsAreTheUnknownEvents(events: seq<Event>, ctx: Context)
    requires Flow(events, ctx).1 == Continue
    ensures Flow(events, ctx).0.attempted == |UnknownOnes(events, ctx)|
  {
    if events != [] {
      var n := |events| - 1;
      assert events[..n + 1] == events == events[..n] + [events[n]];
      AttemptsAreTheUnknownEvents(events[..n], ctx);
      OneMoreUnknown(events[..n], events[n], ctx);
      EventCountsAndStops(events, n, ctx);
    }
  }

  predicate Stops(s: FoundSource) {
    s.korean && (s.answer == SourceConflict || s.answer == SourceCrash)
  }

  /** Only the sources confirmed to be Korean are submitted, in order, up to the first answer that stops the flow. */
  lemma {:induction false} SourcesStopAtTheFirst(sources: seq<FoundSource>)
    ensures SourcesSignal(sources) == Continue <==> forall k | 0 <= k < |sources| :: !Stops(sources[k])
    ensures forall k | 0 <= k < |sources| && Stops(sources[k]) && (forall j | 0 <= j < k :: !Stops(sources[j])) ::
              SourcesSignal(sources) == if sources[k].answer == SourceConflict then LeaseLost else Crashed
  {
    if sources != [] {
      SourcesStopAtTheFirst(sources[1..]);
      forall k | 0 < k < |sources| && Stops(sources[k]) && (forall j | 0 <= j < k :: !Stops(sources[j]))
        ensures SourcesSignal(sources) == if sources[k].answer == SourceConflict then LeaseLost else Crashed
      {
        assert sources[1..][k - 1] == sources[k];
        assert forall j | 0 <= j < k - 1 :: sources[1..][j] == sources[j + 1];
      }
    }
  }

  /** How a flow ends: with a summary of its tally if nothing stopped it, with the partial summary after an exception, and
      with nothing after a lost lease. */
  lemma FlowEnds(events: seq<Event>, sources: seq<FoundSource>, ctx: Context)
    ensures var (t, signal) := Flow(events, ctx);
            var summary := Summary(t.attempted, t.failed, t.excluded, t.outcomes);
            var last := if signal == Continue then SourcesSignal(sources) else signal;
            FlowResultOf(events, sources, ctx) ==
              if last == Continue then Completed(summary) else if last == LeaseLost then LostLease else FlowError(summary)
  {
  }
}
