/** The outcome rules of a discovery run: how the server classifies what a run produced, and which of the
    runner's per-event reports it keeps (drafts/discovery_runs.py). */
module EventOutcomes {
  import opened Options

  const MAX_EVENTS_PER_RUN := 20

  datatype RunStatus = Pending | Claimed | Succeeded | PartiallyFailed | Failed | Expired

  datatype CandidateStatus = Promoted | Rejected

  datatype Grade = NoWork | AllGood | AllBad | Mixed

  /** One entry of the stored list. */
  datatype EventOutcome = EventOutcome(url: string, outcome: string, reason: string)

  /** One entry of the list the runner sends: anything that is not an object, or an object whose fields may be
      missing or of another type (None). */
  datatype RawOutcome =
    | NotAnObject
    | Item(url: Option<string>, outcome: Option<string>, reason: Option<string>)

  // ---------------------------------------------------------------- classification

  function ClassifyCandidates(statuses: seq<CandidateStatus>): Grade {
    if |statuses| == 0 then NoWork
    else if forall s | s in statuses :: s == Promoted then AllGood
    else if forall s | s in statuses :: s == Rejected then AllBad
    else Mixed
  }

  function ClassifyEvents(attempted: int, failed: int, created: nat): Grade {
    if attempted == 0 then NoWork
    else if failed == 0 then AllGood
    else if created == 0 then AllBad
    else Mixed
  }

  function Combine(candidates: Grade, events: Grade): RunStatus {
    var existing := (if candidates != NoWork then [candidates] else []) + (if events != NoWork then [events] else []);
    if forall g | g in existing :: g == AllGood then Succeeded
    else if forall g | g in existing :: g == AllBad then Failed
    else PartiallyFailed
  }

  /** What a completed run's status says about its rows: success means that nothing went wrong anywhere, failure
      that something was tried and nothing at all came out of it. */
  lemma CombinedStatusMeaning(statuses: seq<CandidateStatus>, attempted: int, failed: int, created: nat)
    ensures var status := Combine(ClassifyCandidates(statuses), ClassifyEvents(attempted, failed, created));
            && (status == Succeeded <==>
                (forall i | 0 <= i < |statuses| :: statuses[i] == Promoted) && (attempted == 0 || failed == 0))
            && (status == Failed <==>
                && (forall i | 0 <= i < |statuses| :: statuses[i] == Rejected)
                && (attempted == 0 || (failed != 0 && created == 0))
                && (|statuses| > 0 || attempted != 0))
            && status in {Succeeded, Failed, PartiallyFailed}
  {
    var c, e := ClassifyCandidates(statuses), ClassifyEvents(attempted, failed, created);
    CombineMeaning(c, e);
    assert |statuses| > 0 ==> statuses[0] in statuses;
    assert forall i | 0 <= i < |statuses| :: statuses[i] in statuses;
  }

  lemma CombineMeaning(c: Grade, e: Grade)
    ensures Combine(c, e) == Succeeded <==> c in {NoWork, AllGood} && e in {NoWork, AllGood}
    ensures Combine(c, e) == Failed <==> c in {NoWork, AllBad} && e in {NoWork, AllBad} && (c == AllBad || e == AllBad)
    ensures Combine(c, e) in {Succeeded, Failed, PartiallyFailed}
  {
  }

  // ---------------------------------------------------------------- cleaning the runner's list

  /** Unicode category Cc: the C0 and C1 controls and DEL. */
  predicate IsControl(c: char) {
    c < ' ' || '\U{7F}' <= c <= '\U{9F}'
  }

  function SanitizeText(s: string): (r: string)
    ensures forall i | 0 <= i < |r| :: !IsControl(r[i])
    ensures (forall i | 0 <= i < |s| :: !IsControl(s[i])) ==> r == s
  {
    if s == [] then []
    else if IsControl(s[0]) then SanitizeText(s[1..])
    else [s[0]] + SanitizeText(s[1..])
  }

  predicate HasHttpScheme(url: string) {
    "http://" <= url || "https://" <= url
  }

  predicate ReasonAllowed(outcome: string, reason: string) {
    match outcome
    case "skipped" => reason in {"known_url", "agent_ended", "agent_overseas"}
    case "failed" => reason in {"host_blocked", "blocked", "fetch_empty", "interpret_error", "no_title", "submit_error", "fetch_error"}
    case "excluded" => reason in {"not_event", "overseas", "ended", "server_overseas", "server_ended"}
    case "created" => reason == ""
    case "duplicate" => reason == ""
    case _ => false
  }

  /** The entry one report contributes, if it contributes any. `known` is the set of URLs of the drafts that the run
      itself created; `strip` removes tracking parameters. */
  function CleanItem(item: RawOutcome, known: set<string>, strip: string -> string): Option<EventOutcome> {
    if item.NotAnObject? || item.url.None? || item.reason.None? then None
    else
      var url := SanitizeText(item.url.value);
      if !HasHttpScheme(url) || |url| > 200 then None
      else if item.outcome.None? || !ReasonAllowed(item.outcome.value, item.reason.value) then None
      else if item.outcome.value == "created" && strip(url) !in known then None
      else Some(EventOutcome(url, item.outcome.value, item.reason.value))
  }

  function CleanAll(raw: seq<RawOutcome>, known: set<string>, strip: string -> string): seq<EventOutcome> {
    if raw == [] then []
    else
      var init := CleanAll(raw[..|raw| - 1], known, strip);
      match CleanItem(raw[|raw| - 1], known, strip)
      case None => init
      case Some(e) => init + [e]
  }

  function Take<T>(s: seq<T>, n: nat): seq<T> {
    if |s| <= n then s else s[..n]
  }

  function CleanOutcomes(raw: seq<RawOutcome>, known: set<string>, strip: string -> string): seq<EventOutcome> {
    Take(CleanAll(raw, known, strip), MAX_EVENTS_PER_RUN)
  }

  /** The loop of `_clean_event_outcomes`. */
  method CleanEventOutcomes(raw: seq<RawOutcome>, known: set<string>, strip: string -> string)
    returns (cleaned: seq<EventOutcome>, dropped: nat)
    ensures cleaned == CleanOutcomes(raw, known, strip)
    ensures dropped == |raw| - |CleanAll(raw, known, strip)|
  {
    cleaned, dropped := [], 0;
    for n := 0 to |raw|
      invariant cleaned == CleanAll(raw[..n], known, strip)
      invariant dropped == n - |cleaned|
    {
      assert raw[..n + 1][..n] == raw[..n];
      var item := raw[n];
      if item.NotAnObject? || item.url.None? || item.reason.None? {
        dropped := dropped + 1;
        continue;
      }
      var url := SanitizeText(item.url.value);
      if !HasHttpScheme(url) || |url| > 200 {
        dropped := dropped + 1;
        continue;
      }
      if item.outcome.None? || !ReasonAllowed(item.outcome.value, item.reason.value) {
        dropped := dropped + 1;
        continue;
      }
      if item.outcome.value == "created" && strip(url) !in known {
        dropped := dropped + 1;
        continue;
      }
      cleaned := cleaned + [EventOutcome(url, item.outcome.value, item.reason.value)];
    }
    assert raw[..|raw|] == raw;
    cleaned := Take(cleaned, MAX_EVENTS_PER_RUN);
  }

  /** Nothing that the runner sends reaches the stored list unchecked. */
  lemma {:induction false} StoredOutcomesAreVetted(raw: seq<RawOutcome>, known: set<string>, strip: string -> string)
    ensures forall e | e in CleanAll(raw, known, strip) ::
              && HasHttpScheme(e.url) && |e.url| <= 200 && (forall i | 0 <= i < |e.url| :: !IsControl(e.url[i]))
              && ReasonAllowed(e.outcome, e.reason)
              && (e.outcome == "created" ==> strip(e.url) in known)
  {
    if raw != [] {
      StoredOutcomesAreVetted(raw[..|raw| - 1], known, strip);
    }
  }

  lemma {:induction false} SanitizeInTwo(a: string, b: string)
    ensures SanitizeText(a + b) == SanitizeText(a) + SanitizeText(b)
  {
    if a == [] {
      assert a + b == b;
    } else {
      SanitizeInTwo(a[1..], b);
      assert (a + b)[1..] == a[1..] + b && (a + b)[0] == a[0];
      assert [a[0]] + (SanitizeText(a[1..]) + SanitizeText(b)) == [a[0]] + SanitizeText(a[1..]) + SanitizeText(b);
    }
  }

  /** Sanitising takes out the control characters one by one and nothing else. */
  lemma SanitizeIsExact(a: string, c: char, b: string)
    ensures SanitizeText(a + [c] + b) == SanitizeText(a) + (if c < ' ' || '\U{7F}' <= c <= '\U{9F}' then [] else [c]) + SanitizeText(b)
  {
    SanitizeInTwo(a + [c], b);
    SanitizeInTwo(a, [c]);
    assert [c][1..] == [];
    assert SanitizeText([c]) == if c < ' ' || '\U{7F}' <= c <= '\U{9F}' then [] else [c];
  }

  /** One report is kept, under its sanitised URL, exactly if it passes every test. */
  lemma ReportIsKeptExactly(url: string, outcome: string, reason: string, known: set<string>, strip: string -> string)
    ensures var clean := SanitizeText(url);
            CleanItem(Item(Some(url), Some(outcome), Some(reason)), known, strip) ==
              if && ("http://" <= clean || "https://" <= clean) && |clean| <= 200
                 && ReasonAllowed(outcome, reason) && (outcome == "created" ==> strip(clean) in known)
              then Some(EventOutcome(clean, outcome, reason)) else None
  {
  }
}
