/** The runner's side of a discovery run: what it counts and reports for each explored event
    (local_runner/exploration_flow.py), and that the server takes the report over unchanged. */
module RunnerFlow {
  import opened Options
  import opened EventOutcomes
  import opened DiscoveryTables

  /** What reading the page came to. FetchCrash is any exception the flow does not expect. */
  datatype Fetched = Blocked | ExpectedFailure | NoContent | Page | FetchCrash

  datatype Interpreted =
    | AdapterFailure
    | InterpretCrash
    | Fields(isEvent: bool, titled: bool, notKorean: bool, lastDate: Option<int>)

  /** The server's answer to the submission. Status 409 is a lost lease, other HTTP errors fail the event only. */
  datatype Answer =
    | Conflict
    | HttpFailure
    | SubmitCrash
    | AnsweredExcluded(reason: string)
    | AnsweredCreated
    | AnsweredDuplicate
    | Unrecognised

  /** `readable` is false for a URL on which the parser raises, before anything is counted. */
  datatype Event = Event(
    url: string,
    readable: bool,
    host: Option<string>,
    whyExcluded: string,
    endDate: Option<int>,
    fetched: Fetched,
    interpreted: Interpreted,
    answer: Answer)

  datatype Context = Context(today: int, unknownUrls: set<string>, notKoreanHosts: set<string>)

  datatype Signal = Continue | LeaseLost | Crashed

  /** What one event adds to the tally. */
  datatype Effect = Effect(attempted: nat, failed: nat, excluded: nat, record: seq<EventOutcome>, unrecognised: nat,
                           blocks: bool, signal: Signal)

  /** `unrecognised` counts the answers that are neither excluded, created nor duplicate; the runner keeps no such
      counter and records nothing for them. */
  datatype Tally = Tally(attempted: nat, failed: nat, excluded: nat, outcomes: seq<EventOutcome>,
                         blockedHosts: set<Option<string>>, unrecognised: nat)

  // ---------------------------------------------------------------- one event, as a table of cases

  predicate AgentMarkedEnded(e: Event, ctx: Context) {
    e.whyExcluded == "ended" && e.endDate.Some? && e.endDate.value < ctx.today
  }

  predicate AgentMarkedOverseas(e: Event, ctx: Context) {
    e.whyExcluded == "overseas" && e.host.Some? && e.host.value in ctx.notKoreanHosts
  }

  function ExclusionReason(fields: Interpreted, today: int): Option<string>
    requires fields.Fields?
  {
    if fields.notKorean then Some("overseas")
    else if fields.lastDate.Some? && fields.lastDate.value < today then Some("ended")
    else None
  }

  function ServerReason(reason: string): string {
    if reason == "overseas" then "server_overseas" else if reason == "ended" then "server_ended" else ""
  }

  function FailedAs(e: Event, reason: string): Effect {
    Effect(1, 1, 0, [EventOutcome(e.url, "failed", reason)], 0, false, Continue)
  }

  function ExcludedAs(e: Event, outcome: string, reason: string): Effect {
    Effect(1, 0, 1, [EventOutcome(e.url, outcome, reason)], 0, false, Continue)
  }

  function Nothing(signal: Signal): Effect {
    Effect(1, 0, 0, [], 0, false, signal)
  }

  function SkipEffect(e: Event, ctx: Context, blocked: set<Option<string>>): Option<Effect> {
    if e.url !in ctx.unknownUrls then Some(Effect(0, 0, 0, [EventOutcome(e.url, "skipped", "known_url")], 0, false, Continue))
    else if AgentMarkedEnded(e, ctx) then Some(ExcludedAs(e, "skipped", "agent_ended"))
    else if AgentMarkedOverseas(e, ctx) then Some(ExcludedAs(e, "skipped", "agent_overseas"))
    else if e.host in blocked then Some(FailedAs(e, "host_blocked"))
    else None
  }

  /** How an event that is not skipped ends. */
  function WorkEffect(e: Event, ctx: Context): Effect {
    match e.fetched
    case Blocked => FailedAs(e, "blocked").(blocks := true)
    case ExpectedFailure => FailedAs(e, "fetch_error")
    case NoContent => FailedAs(e, "fetch_empty")
    case FetchCrash => Nothing(Crashed)
    case Page =>
      match e.interpreted
      case AdapterFailure => FailedAs(e, "interpret_error")
      case InterpretCrash => Nothing(Crashed)
      case Fields(isEvent, titled, _, _) =>
        if !isEvent then ExcludedAs(e, "excluded", "not_event")
        else if !titled then FailedAs(e, "no_title")
        else if ExclusionReason(e.interpreted, ctx.today).Some? then
          ExcludedAs(e, "excluded", ExclusionReason(e.interpreted, ctx.today).value)
        else match e.answer
          case Conflict => Nothing(LeaseLost)
          case SubmitCrash => Nothing(Crashed)
          case HttpFailure => FailedAs(e, "submit_error")
          case AnsweredExcluded(reason) => ExcludedAs(e, "excluded", ServerReason(reason))
          case AnsweredCreated => Nothing(Continue).(record := [EventOutcome(e.url, "created", "")])
          case AnsweredDuplicate => Nothing(Continue).(record := [EventOutcome(e.url, "duplicate", "")])
          case Unrecognised => Nothing(Continue).(unrecognised := 1)
  }

  function EffectOf(e: Event, ctx: Context, blocked: set<Option<string>>): Effect {
    if !e.readable then Nothing(Crashed).(attempted := 0)
    else match SkipEffect(e, ctx, blocked)
      case Some(effect) => effect
      case None => WorkEffect(e, ctx)
  }

  function Plus(t: Tally, e: Event, effect: Effect): Tally {
    Tally(t.attempted + effect.attempted, t.failed + effect.failed, t.excluded + effect.excluded, t.outcomes + effect.record,
          if effect.blocks then t.blockedHosts + {e.host} else t.blockedHosts, t.unrecognised + effect.unrecognised)
  }

  const EMPTY_TALLY := Tally(0, 0, 0, [], {}, 0)

  function OneMore(r: (Tally, Signal), e: Event, ctx: Context): (Tally, Signal) {
    if r.1 != Continue then r
    else
      var effect := EffectOf(e, ctx, r.0.blockedHosts);
      (Plus(r.0, e, effect), effect.signal)
  }

  /** The tally after the events, up to the first one that stops the flow. */
  function Flow(events: seq<Event>, ctx: Context): (Tally, Signal) {
    if events == [] then (EMPTY_TALLY, Continue)
    else OneMore(Flow(events[..|events| - 1], ctx), events[|events| - 1], ctx)
  }

  /** A candidate source the exploration found; only those confirmed to be Korean are submitted. */
  datatype FoundSource = FoundSource(korean: bool, answer: SourceAnswer)

  datatype SourceAnswer = Accepted | SourceConflict | SourceHttpFailure | SourceCrash

  /** The first answer that stops the submission of sources. */
  function SourcesSignal(sources: seq<FoundSource>): Signal {
    if sources == [] then Continue
    else if sources[0].korean && sources[0].answer == SourceConflict then LeaseLost
    else if sources[0].korean && sources[0].answer == SourceCrash then Crashed
    else SourcesSignal(sources[1..])
  }

  datatype Summary = Summary(attempted: nat, failed: nat, excluded: nat, outcomes: seq<EventOutcome>)

  /** What the caller gets: a summary, an error that carries the partial summary, or nothing but the lost lease. */
  datatype FlowResult = Completed(summary: Summary) | FlowError(partial: Summary) | LostLease

  function EndOf(r: (Tally, Signal), sources: seq<FoundSource>): FlowResult {
    var summary := Summary(r.0.attempted, r.0.failed, r.0.excluded, r.0.outcomes);
    match if r.1 == Continue then SourcesSignal(sources) else r.1
    case Continue => Completed(summary)
    case LeaseLost => LostLease
    case Crashed => FlowError(summary)
  }

  function FlowResultOf(events: seq<Event>, sources: seq<FoundSource>, ctx: Context): FlowResult {
    EndOf(Flow(events, ctx), sources)
  }

  // ---------------------------------------------------------------- the loop

  class FlowTally {
    var attempted: nat
    var failed: nat
    var excluded: nat
    var outcomes: seq<EventOutcome>
    var blockedHosts: set<Option<string>>
    ghost var unrecognised: nat

    ghost function Value(): Tally
      reads this
    {
      Tally(attempted, failed, excluded, outcomes, blockedHosts, unrecognised)
    }

    constructor ()
      ensures Value() == EMPTY_TALLY
    {
      attempted, failed, excluded, outcomes, blockedHosts, unrecognised := 0, 0, 0, [], {}, 0;
    }

    function FlowSummary(): Summary
      reads this
    {
      Summary(attempted, failed, excluded, outcomes)
    }

    method Record(url: string, outcome: string, reason: string)
      modifies this`outcomes
      ensures outcomes == old(outcomes) + [EventOutcome(url, outcome, reason)]
    {
      outcomes := outcomes + [EventOutcome(url, outcome, reason)];
    }

    method TrySkipEvent(e: Event, ctx: Context) returns (skipped: bool)
      modifies this
      ensures var effect := SkipEffect(e, ctx, old(blockedHosts));
              skipped == effect.Some? && Value() == if skipped then Plus(old(Value()), e, effect.value) else old(Value())
    {
      if e.url !in ctx.unknownUrls {
        Record(e.url, "skipped", "known_url");
        return true;
      }
      if AgentMarkedEnded(e, ctx) {
        attempted := attempted + 1;
        excluded := excluded + 1;
        Record(e.url, "skipped", "agent_ended");
        return true;
      }
      if AgentMarkedOverseas(e, ctx) {
        attempted := attempted + 1;
        excluded := excluded + 1;
        Record(e.url, "skipped", "agent_overseas");
        return true;
      }
      if e.host in blockedHosts {
        attempted := attempted + 1;
        failed := failed + 1;
        Record(e.url, "failed", "host_blocked");
        return true;
      }
      skipped := false;
    }

    /** The attempt has already been counted when the page is read. */
    method FetchEvent(e: Event) returns (readable: bool, signal: Signal)
      modifies this
      ensures readable <==> e.fetched == Page
      ensures readable ==> Value() == old(Value()) && signal == Continue
      ensures !readable ==> forall ctx: Context ::
                signal == WorkEffect(e, ctx).signal && Value() == Plus(old(Value()), e, WorkEffect(e, ctx).(attempted := 0))
    {
      signal := Continue;
      match e.fetched {
        case Blocked =>
          blockedHosts := blockedHosts + {e.host};
          failed := failed + 1;
          Record(e.url, "failed", "blocked");
        case ExpectedFailure =>
          failed := failed + 1;
          Record(e.url, "failed", "fetch_error");
        case NoContent =>
          failed := failed + 1;
          Record(e.url, "failed", "fetch_empty");
        case FetchCrash =>
          signal := Crashed;
        case Page =>
      }
      readable := e.fetched == Page;
    }

    method InterpretEvent(e: Event, ctx: Context) returns (submittable: bool, signal: Signal)
      requires e.fetched == Page
      modifies this
      ensures submittable <==>
              && e.interpreted.Fields? && e.interpreted.isEvent && e.interpreted.titled
              && ExclusionReason(e.interpreted, ctx.today).None?
      ensures submittable ==> Value() == old(Value()) && signal == Continue
      ensures !submittable ==>
                signal == WorkEffect(e, ctx).signal && Value() == Plus(old(Value()), e, WorkEffect(e, ctx).(attempted := 0))
    {
      submittable, signal := false, Continue;
      if e.interpreted.AdapterFailure? {
        failed := failed + 1;
        Record(e.url, "failed", "interpret_error");
        return;
      }
      if e.interpreted.InterpretCrash? {
        return false, Crashed;
      }
      if !(e.interpreted.isEvent && e.interpreted.titled) {
        if !e.interpreted.isEvent {
          excluded := excluded + 1;
          Record(e.url, "excluded", "not_event");
        } else {
          failed := failed + 1;
          Record(e.url, "failed", "no_title");
        }
        return;
      }
      var reason := ExclusionReason(e.interpreted, ctx.today);
      if reason.Some? {
        excluded := excluded + 1;
        Record(e.url, "excluded", reason.value);
        return;
      }
      submittable := true;
    }

    method SubmitInterpretedEvent(e: Event, ctx: Context) returns (signal: Signal)
      requires e.fetched == Page && e.interpreted.Fields? && e.interpreted.isEvent && e.interpreted.titled
      requires ExclusionReason(e.interpreted, ctx.today).None?
      modifies this
      ensures signal == WorkEffect(e, ctx).signal && Value() == Plus(old(Value()), e, WorkEffect(e, ctx).(attempted := 0))
    {
      signal := Continue;
      match e.answer {
        case Conflict => signal := LeaseLost;
        case SubmitCrash => signal := Crashed;
        case HttpFailure =>
          failed := failed + 1;
          Record(e.url, "failed", "submit_error");
        case AnsweredExcluded(reason) =>
          excluded := excluded + 1;
          Record(e.url, "excluded", ServerReason(reason));
        case AnsweredCreated => Record(e.url, "created", "");
        case AnsweredDuplicate => Record(e.url, "duplicate", "");
        case Unrecognised => unrecognised := unrecognised + 1;
      }
    }

    method ProcessEvent(e: Event, ctx: Context) returns (signal: Signal)
      modifies this
      ensures var effect := EffectOf(e, ctx, old(blockedHosts));
              signal == effect.signal && Value() == Plus(old(Value()), e, effect)
    {
      if !e.readable {
        return Crashed;
      }
      var skipped := TrySkipEvent(e, ctx);
      if skipped {
        return Continue;
      }
      attempted := attempted + 1;
      var readable;
      readable, signal := FetchEvent(e);
      if !readable {
        return;
      }
      var submittable;
      submittable, signal := InterpretEvent(e, ctx);
      if !submittable {
        return;
      }
      signal := SubmitInterpretedEvent(e, ctx);
    }

    method ProcessEvents(events: seq<Event>, ctx: Context) returns (signal: Signal)
      requires Value() == EMPTY_TALLY
      modifies this
      ensures (Value(), signal) == Flow(events, ctx)
    {
      signal := Continue;
      for i := 0 to |events|
        invariant (Value(), signal) == Flow(events[..i], ctx) && signal == Continue
      {
        assert events[..i + 1][..i] == events[..i];
        signal := ProcessEvent(events[i], ctx);
        if signal != Continue {
          FlowStops(events, i + 1, ctx);
          return;
        }
      }
      assert events[..|events|] == events;
    }
  }

  method SubmitSources(sources: seq<FoundSource>) returns (signal: Signal)
    ensures signal == SourcesSignal(sources)
  {
    for i := 0 to |sources|
      invariant SourcesSignal(sources) == SourcesSignal(sources[i..])
    {
      if !sources[i].korean {
        continue;
      }
      match sources[i].answer {
        case SourceConflict => return LeaseLost;
        case SourceCrash => return Crashed;
        case SourceHttpFailure => continue;
        case Accepted =>
      }
    }
    signal := Continue;
  }

  method RunExplorationFlow(events: seq<Event>, sources: seq<FoundSource>, ctx: Context) returns (result: FlowResult)
    ensures result == FlowResultOf(events, sources, ctx)
  {
    var tally := new FlowTally();
    var signal := tally.ProcessEvents(events, ctx);
    if signal == Continue {
      signal := SubmitSources(sources);
    }
    match signal {
      case Continue => result := Completed(tally.FlowSummary());
      case LeaseLost => result := LostLease;
      case Crashed => result := FlowError(tally.FlowSummary());
    }
  }

  lemma {:induction false} FlowStops(events: seq<Event>, n: nat, ctx: Context)
    requires n <= |events| && Flow(events[..n], ctx).1 != Continue
    ensures Flow(events, ctx) == Flow(events[..n], ctx)
  {
    if n < |events| {
      assert events[..|events| - 1][..n] == events[..n];
      FlowStops(events[..|events| - 1], n, ctx);
    } else {
      assert events[..n] == events;
    }
  }

  // ---------------------------------------------------------------- accounting

  function Count(outcomes: seq<EventOutcome>, kind: string): nat {
    if outcomes == [] then 0
    else Count(outcomes[..|outcomes| - 1], kind) + if outcomes[|outcomes| - 1].outcome == kind then 1 else 0
  }

  /** Skips the agent asked for count as exclusions, skips of known URLs do not count at all. */
  function AgentSkips(outcomes: seq<EventOutcome>): nat {
    if outcomes == [] then 0
    else
      var last := outcomes[|outcomes| - 1];
      AgentSkips(outcomes[..|outcomes| - 1]) + if last.outcome == "skipped" && last.reason != "known_url" then 1 else 0
  }

  lemma CountAppend(outcomes: seq<EventOutcome>, more: seq<EventOutcome>, kind: string)
    requires |more| <= 1
    ensures Count(outcomes + more, kind) == Count(outcomes, kind) + Count(more, kind)
    ensures AgentSkips(outcomes + more) == AgentSkips(outcomes) + AgentSkips(more)
  {
    if more == [] {
      assert outcomes + more == outcomes;
    } else {
      assert (outcomes + more)[..|outcomes|] == outcomes;
      assert more[..0] == [];
    }
  }

  /** The attempts that a summary, with the number of answers not understood, accounts for. */
  function Accounted(s: Summary, unrecognised: nat): nat {
    s.failed + s.excluded + Count(s.outcomes, "created") + Count(s.outcomes, "duplicate") + unrecognised
  }

  predicate CountersMatch(s: Summary) {
    && s.failed == Count(s.outcomes, "failed")
    && s.excluded == Count(s.outcomes, "excluded") + AgentSkips(s.outcomes)
  }

  lemma EffectBalances(e: Event, ctx: Context, blocked: set<Option<string>>)
    ensures var f := EffectOf(e, ctx, blocked);
            && f.attempted <= 1 && |f.record| <= 1
            && f.failed == Count(f.record, "failed")
            && f.excluded == Count(f.record, "excluded") + AgentSkips(f.record)
            && 0 <= f.attempted - (f.failed + f.excluded + Count(f.record, "created") + Count(f.record, "duplicate") + f.unrecognised)
               <= (if f.signal == Continue then 0 else 1)
  {
    var f := EffectOf(e, ctx, blocked);
    if f.record != [] {
      assert f.record[..0] == [];
    }
  }

  predicate Balanced(t: Tally, missing: nat, events: nat) {
    var s := Summary(t.attempted, t.failed, t.excluded, t.outcomes);
    && CountersMatch(s)
    && s.attempted - missing <= Accounted(s, t.unrecognised) <= s.attempted
    && t.attempted <= events && |t.outcomes| <= events
  }

  lemma PlusBalances(t: Tally, e: Event, ctx: Context, events: nat)
    requires Balanced(t, 0, events)
    ensures var f := EffectOf(e, ctx, t.blockedHosts);
            Balanced(Plus(t, e, f), if f.signal == Continue then 0 else 1, events + 1)
  {
    var f := EffectOf(e, ctx, t.blockedHosts);
    EffectBalances(e, ctx, t.blockedHosts);
    CountAppend(t.outcomes, f.record, "failed");
    CountAppend(t.outcomes, f.record, "excluded");
    CountAppend(t.outcomes, f.record, "created");
    CountAppend(t.outcomes, f.record, "duplicate");
  }

  /** A flow that was stopped may miss one event. */
  predicate BooksKept(r: (Tally, Signal), events: nat) {
    Balanced(r.0, if r.1 == Continue then 0 else 1, events)
  }

  lemma {:induction false} FlowBalances(events: seq<Event>, ctx: Context)
    ensures BooksKept(Flow(events, ctx), |events|)
  {
    if events != [] {
      var n := |events| - 1;
      FlowBalances(events[..n], ctx);
      OneMoreBalances(Flow(events[..n], ctx), events[n], ctx, n);
      assert Flow(events, ctx) == OneMore(Flow(events[..n], ctx), events[n], ctx);
    }
  }

  lemma OneMoreBalances(r: (Tally, Signal), e: Event, ctx: Context, events: nat)
    requires BooksKept(r, events)
    ensures BooksKept(OneMore(r, e, ctx), events + 1)
  {
    if r.1 == Continue {
      PlusBalances(r.0, e, ctx, events);
    }
  }

  lemma EndsBalanced(r: (Tally, Signal), sources: seq<FoundSource>, events: nat)
    requires BooksKept(r, events)
    ensures match EndOf(r, sources)
            case Completed(s) => CountersMatch(s) && Accounted(s, r.0.unrecognised) == s.attempted
            case FlowError(s) => CountersMatch(s) && s.attempted - 1 <= Accounted(s, r.0.unrecognised) <= s.attempted
            case LostLease => true
  {
  }

  /** The books balance: every attempt of a completed flow is accounted for, an aborted flow misses at most the event it
      was working on, and the two counters equal the recorded outcomes. */
  lemma TheBooksBalance(events: seq<Event>, sources: seq<FoundSource>, ctx: Context)
    ensures match FlowResultOf(events, sources, ctx)
            case Completed(s) => CountersMatch(s) && Accounted(s, Flow(events, ctx).0.unrecognised) == s.attempted
            case FlowError(s) => CountersMatch(s) && s.attempted - 1 <= Accounted(s, Flow(events, ctx).0.unrecognised) <= s.attempted
            case LostLease => true
  {
    FlowBalances(events, ctx);
    EndsBalanced(Flow(events, ctx), sources, |events|);
  }

  /** The runner cuts its input to the server's limit, so none of the server's clamps changes what it reports. */
  lemma ClampsAreTheIdentity(events: seq<Event>, ctx: Context)
    ensures var (t, _) := Flow(Take(events, MAX_EVENTS_PER_RUN), ctx);
            && Clamp(t.attempted, MAX_EVENTS_PER_RUN) == t.attempted
            && Clamp(t.failed, t.attempted) == t.failed
            && Clamp(t.excluded, MAX_EVENTS_PER_RUN) == t.excluded
  {
    FlowBalances(Take(events, MAX_EVENTS_PER_RUN), ctx);
  }

  // ---------------------------------------------------------------- the report survives the server's cleaning

  function Reported(o: EventOutcome): RawOutcome {
    Item(Some(o.url), Some(o.outcome), Some(o.reason))
  }

  function AllReported(outcomes: seq<EventOutcome>): (r: seq<RawOutcome>)
    ensures |r| == |outcomes| && forall i | 0 <= i < |r| :: r[i] == Reported(outcomes[i])
  {
    seq(|outcomes|, i requires 0 <= i < |outcomes| => Reported(outcomes[i]))
  }

  predicate SoundUrl(url: string) {
    HasHttpScheme(url) && |url| <= 200 && forall i | 0 <= i < |url| :: !IsControl(url[i])
  }

  /** The event gets as far as the server; of any other, the answer means nothing. */
  predicate Submitted(e: Event, ctx: Context) {
    && e.fetched == Page && e.interpreted.Fields? && e.interpreted.isEvent && e.interpreted.titled
    && ExclusionReason(e.interpreted, ctx.today).None?
  }

  /** What a recorded outcome tells about the event it is for: "created" is the server's word, and the reason is an allowed
      one, unless the server excluded the event for a reason that the runner does not know. */
  predicate Tells(o: EventOutcome, e: Event, ctx: Context) {
    && e.url == o.url
    && (o.outcome == "created" ==> Submitted(e, ctx) && e.answer == AnsweredCreated)
    && (if o.outcome == "excluded" && o.reason == "" then
          Submitted(e, ctx) && e.answer.AnsweredExcluded? && ServerReason(e.answer.reason) == ""
        else ReasonAllowed(o.outcome, o.reason))
  }

  lemma RecordTells(e: Event, ctx: Context, blocked: set<Option<string>>)
    ensures forall o | o in EffectOf(e, ctx, blocked).record :: Tells(o, e, ctx)
  {
  }

  lemma {:induction false} OutcomesTell(events: seq<Event>, ctx: Context)
    ensures forall o | o in Flow(events, ctx).0.outcomes :: exists e | e in events :: Tells(o, e, ctx)
  {
    if events != [] {
      var earlier, e := events[..|events| - 1], events[|events| - 1];
      OutcomesTell(earlier, ctx);
      var before, after := Flow(earlier, ctx).0, Flow(events, ctx).0;
      RecordTells(e, ctx, before.blockedHosts);
      forall o | o in after.outcomes
        ensures exists x | x in events :: Tells(o, x, ctx)
      {
        if o in before.outcomes {
          var x :| x in earlier && Tells(o, x, ctx);
          assert x in events;
        } else {
          assert e in events && Tells(o, e, ctx);
        }
      }
    }
  }

  /** What the server asks of a recorded outcome. */
  predicate Survives(o: EventOutcome, known: set<string>, strip: string -> string) {
    && SoundUrl(o.url)
    && !(o.outcome == "excluded" && o.reason == "")
    && (o.outcome == "created" ==> strip(o.url) in known)
  }

  /** Exactly which recorded outcomes the server keeps. */
  lemma OutcomeSurvives(o: EventOutcome, known: set<string>, strip: string -> string)
    requires ReasonAllowed(o.outcome, o.reason) || (o.outcome == "excluded" && o.reason == "")
    ensures CleanItem(Reported(o), known, strip) == Some(o) <==> Survives(o, known, strip)
  {
  }

  lemma {:induction false} CleanAllKeepsAll(outcomes: seq<EventOutcome>, known: set<string>, strip: string -> string)
    ensures |CleanAll(AllReported(outcomes), known, strip)| <= |outcomes|
    ensures CleanAll(AllReported(outcomes), known, strip) == outcomes <==>
            forall o | o in outcomes :: CleanItem(Reported(o), known, strip) == Some(o)
  {
    if outcomes != [] {
      var n := |outcomes| - 1;
      CleanAllKeepsAll(outcomes[..n], known, strip);
      assert AllReported(outcomes)[..n] == AllReported(outcomes[..n]);
      assert outcomes == outcomes[..n] + [outcomes[n]];
      assert CleanItem(Reported(outcomes[n]), known, strip) == Some(outcomes[n]) ==>
          CleanAll(AllReported(outcomes), known, strip) == CleanAll(AllReported(outcomes[..n]), known, strip) + [outcomes[n]];
    }
  }

  /** The list the server stores is the list that the runner sent exactly when each recorded outcome has a sound URL, a
      reason if it is an exclusion, and, if it says "created", a draft of the run. */
  lemma TheReportIsStoredWhole(events: seq<Event>, ctx: Context, known: set<string>, strip: string -> string)
    requires |events| <= MAX_EVENTS_PER_RUN
    ensures var outcomes := Flow(events, ctx).0.outcomes;
            CleanOutcomes(AllReported(outcomes), known, strip) == outcomes <==> forall o | o in outcomes :: Survives(o, known, strip)
  {
    var outcomes := Flow(events, ctx).0.outcomes;
    OutcomesTell(events, ctx);
    FlowBalances(events, ctx);
    forall o | o in outcomes
      ensures CleanItem(Reported(o), known, strip) == Some(o) <==> Survives(o, known, strip)
    {
      var e :| e in events && Tells(o, e, ctx);
      OutcomeSurvives(o, known, strip);
    }
    CleanAllKeepsAll(outcomes, known, strip);
  }
}
