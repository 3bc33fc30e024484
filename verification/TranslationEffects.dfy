/** What a submission of translations and a batch of the runner do and answer, said of the rows before and after. */
module TranslationEffects {
  import opened Options
  import opened Translation
  import opened TranslationFlow

  // ---------------------------------------------------------------- a submission

  function Normal(rules: Rules, f: Fields): Fields {
    Fields(rules.nfc(f.title), rules.nfc(f.workTitle), rules.nfc(f.locationName), rules.nfc(f.summary))
  }

  predicate NulIn(f: Fields) {
    '\0' in f.title || '\0' in f.workTitle || '\0' in f.locationName || '\0' in f.summary
  }

  /** A text is kept, in its normal form, exactly if it passes quarantine. */
  predicate KeptRightly(rules: Rules, language: Language, source: Fields, text: Fields, kept: Option<Fields>) {
    kept == if rules.passes(language, source, text) then Some(Normal(rules, text)) else None
  }

  predicate SavedRightly(rules: Rules, e: Event, hash: string, s: Submission, t: Event)
    requires s.Texts?
  {
    && t.fields == e.fields && t.published == e.published
    && t.stored.sourceHash == Some(hash) && !t.stored.manual
    && KeptRightly(rules, En, e.fields, s.en, t.stored.en)
    && KeptRightly(rules, Ja, e.fields, s.ja, t.stored.ja)
    && KeptRightly(rules, ZhHans, e.fields, s.zhHans, t.stored.zhHans)
  }

  lemma NulTells(s: Submission)
    requires s.Texts?
    ensures HasNul(s) <==> NulIn(s.en) || NulIn(s.ja) || NulIn(s.zhHans)
  {
    forall language: Language
      ensures (exists v | v in Values(TextOf(s, language)) :: '\0' in v) <==> NulIn(TextOf(s, language))
    {
      ValuesTell(TextOf(s, language));
    }
    assert NulIn(TextOf(s, En)) ==> HasNul(s);
    assert NulIn(TextOf(s, Ja)) ==> HasNul(s);
    assert NulIn(TextOf(s, ZhHans)) ==> HasNul(s);
  }

  lemma ValuesTell(f: Fields)
    ensures (exists v | v in Values(f) :: '\0' in v) <==> NulIn(f)
  {
    var values := Values(f);
    assert values[0] in values && values[1] in values && values[2] in values && values[3] in values;
  }

  /** Each answer exactly in its case, in the order of the checks; only a saved submission changes the event. */
  lemma SubmissionIsAnswered(rules: Rules, e: Event, hash: string, s: Submission)
    ensures var (t, outcome) := SubmitStep(rules, e, hash, s);
            if !e.published then (t, outcome) == (e, NotFound)
            else if e.stored.manual then (t, outcome) == (e, ManualLocked)
            else if hash != SourceHash(rules, e.fields) then (t, outcome) == (e, StaleSource)
            else if e.stored.sourceHash == Some(hash) then (t, outcome) == (e, AlreadyCurrent)
            else if s.BadSchema? then (t, outcome) == (e, SchemaError)
            else if NulIn(s.en) || NulIn(s.ja) || NulIn(s.zhHans) then (t, outcome) == (e, NulError)
            else
              && SavedRightly(rules, e, hash, s, t)
              && outcome.Saved?
              && (forall language: Language :: language in outcome.saved <==> rules.passes(language, e.fields, TextOf(s, language)))
              && (forall language: Language :: language in outcome.quarantined <==> !rules.passes(language, e.fields, TextOf(s, language)))
  {
    if s.Texts? {
      NulTells(s);
      var quarantined := Quarantined(rules, e.fields, s);
      forall language: Language
        ensures language in Without(TARGET_LANGUAGES, quarantined) <==> language !in quarantined
      {
        AllLanguages(language);
        WithoutTells(TARGET_LANGUAGES, quarantined, language);
      }
    }
  }

  lemma AllLanguages(language: Language)
    ensures language in TARGET_LANGUAGES
  {
    assert TARGET_LANGUAGES[0] == En && TARGET_LANGUAGES[1] == Ja && TARGET_LANGUAGES[2] == ZhHans;
  }

  lemma {:induction false} WithoutTells(languages: seq<Language>, removed: set<Language>, language: Language)
    ensures language in Without(languages, removed) <==> language in languages && language !in removed
  {
    if languages != [] {
      WithoutTells(languages[1..], removed, language);
    }
  }

  /** A saved translation is shown from then on, in each language that passed, until the source changes; in the others, in
      the original language and after a change of the hash the source itself is shown. */
  lemma SavedTranslationIsShown(rules: Rules, e: Event, hash: string, s: Submission, language: Language, edited: Fields)
    requires SubmitStep(rules, e, hash, s).1.Saved?
    ensures var stored := SubmitStep(rules, e, hash, s).0.stored;
            && SelectDisplay(rules, e.fields, stored, Some(language)) ==
               (if rules.passes(language, e.fields, TextOf(s, language)) then Display(Normal(rules, TextOf(s, language)), true)
                else Display(e.fields, false))
            && SelectDisplay(rules, e.fields, stored, None) == Display(e.fields, false)
            && (SourceHash(rules, edited) != hash ==> SelectDisplay(rules, edited, stored, Some(language)) == Display(edited, false))
  {
    AllLanguages(language);
  }

  /** A translation written by hand stays whatever is submitted, and is shown as long as it bears the hash of the source. */
  lemma ManualTranslationStays(rules: Rules, e: Event, hash: string, s: Submission, language: Language, text: Fields)
    requires e.stored.manual && StoredText(e.stored, language) == Some(text)
    ensures var (t, outcome) := SubmitStep(rules, e, hash, s);
            && t == e && outcome in {NotFound, ManualLocked}
            && SelectDisplay(rules, t.fields, t.stored, Some(language)) ==
               if e.stored.sourceHash == Some(SourceHash(rules, e.fields)) then Display(text, true) else Display(e.fields, false)
  {
  }

  // ---------------------------------------------------------------- the server's list

  predicate Waits(rules: Rules, e: Event) {
    e.published && !e.stored.manual && e.stored.sourceHash != Some(SourceHash(rules, e.fields))
  }

  predicate Ascending(keys: seq<Key>) {
    forall i, j | 0 <= i < j < |keys| :: keys[i].0 < keys[j].0
  }

  /** Exactly the published events without a manual or a current translation wait, each with its hash, by their ids. */
  lemma {:induction false} WaitingEventsAreListed(rules: Rules, events: seq<Event>)
    ensures Ascending(PendingKeys(rules, events))
    ensures forall i | 0 <= i < |PendingKeys(rules, events)| :: PendingKeys(rules, events)[i].0 < |events|
    ensures forall key: Key :: key in PendingKeys(rules, events) <==>
              key.0 < |events| && Waits(rules, events[key.0]) && key.1 == SourceHash(rules, events[key.0].fields)
  {
    if events != [] {
      WaitingEventsAreListed(rules, events[..|events| - 1]);
    }
  }

  /** The runner is handed the first twenty of them. */
  lemma TwentyAreHandedOut(rules: Rules, events: seq<Event>)
    ensures var all := PendingKeys(rules, events);
            Window(rules, events) == if |all| <= 20 then all else all[..20]
  {
  }

  // ---------------------------------------------------------------- one try

  function FailuresOf(q: Queue, key: Key): nat {
    if key in q.attempts then q.attempts[key] else 0
  }

  predicate ChangedBy(events: seq<Event>, edits: map<nat, Event>, edited: seq<Event>) {
    |edited| == |events| && forall i | 0 <= i < |events| :: edited[i] == if i in edits then edits[i] else events[i]
  }

  predicate WasTaken(outcome: Outcome) {
    outcome.Saved? || outcome.AlreadyCurrent?
  }

  /** A try changes the submitted event as the server's answer says, and the record of failures of its own key: one more on
      failure, none left on success, and nothing when the batch stops. */
  lemma TryDoesThis(rules: Rules, p: Progress, key: Key, t: Try, edited: seq<Event>)
    requires key.0 < |p.queue.events| && ChangedBy(p.queue.events, t.edits, edited)
    ensures var r := TryOne(rules, p, key, t);
            var failed := p.queue.attempts[key := FailuresOf(p.queue, key) + 1];
            && r.attempted == p.attempted + 1
            && match t.result
               case BadOutput => r.queue == Queue(edited, failed) && r.succeeded == p.succeeded && !r.aborted
               case Unavailable => r.queue == Queue(edited, p.queue.attempts) && r.succeeded == p.succeeded && r.aborted
               case Submits(texts, reply) =>
                 var (e, outcome) := SubmitStep(rules, edited[key.0], key.1, texts);
                 && r.queue.events == edited[key.0 := e]
                 && (r.aborted <==> reply.Lost?)
                 && if reply.Lost? then r.queue.attempts == p.queue.attempts && r.succeeded == p.succeeded
                    else if reply.Heard? && WasTaken(outcome) then
                      r.queue.attempts == (map k | k in p.queue.attempts && k != key :: p.queue.attempts[k]) && r.succeeded == p.succeeded + 1
                    else r.queue.attempts == failed && r.succeeded == p.succeeded
  {
    assert Edited(p.queue.events, t.edits) == edited;
  }

  // ---------------------------------------------------------------- one batch

  /** The keys from the i-th on that have failed less than twice. */
  function Untried(keys: seq<Key>, i: nat, q: Queue): seq<Key>
    decreases |keys| - i
  {
    if i >= |keys| then []
    else (if FailuresOf(q, keys[i]) < 2 then [keys[i]] else []) + Untried(keys, i + 1, q)
  }

  /** The course of a batch: its tries one after the other, stopped only by an abort. */
  ghost predicate Course(rules: Rules, tried: seq<Key>, ps: seq<Progress>, tries: nat -> Try, first: nat) {
    && |ps| == |tried| + 1
    && forall n: nat | n < |tried| :: !ps[n].aborted && ps[n + 1] == TryOne(rules, ps[n], tried[n], tries(first + n))
  }

  lemma CourseWithFirst(rules: Rules, key: Key, p: Progress, tried: seq<Key>, ps: seq<Progress>, tries: nat -> Try, first: nat)
    requires Course(rules, tried, ps, tries, first + 1) && !p.aborted && ps[0] == TryOne(rules, p, key, tries(first))
    ensures Course(rules, [key] + tried, [p] + ps, tries, first)
  {
    var all, qs := [key] + tried, [p] + ps;
    forall n: nat | n < |all|
      ensures !qs[n].aborted && qs[n + 1] == TryOne(rules, qs[n], all[n], tries(first + n))
    {
      if n > 0 {
        assert all[n] == tried[n - 1] && qs[n] == ps[n - 1] && qs[n + 1] == ps[n - 1 + 1];
        assert first + n == first + 1 + (n - 1);
      }
    }
  }

  lemma {:induction false} UntriedIgnores(keys: seq<Key>, i: nat, q: Queue, r: Queue, key: Key)
    requires forall j | i <= j < |keys| :: keys[j] != key
    requires forall k | k != key :: FailuresOf(r, k) == FailuresOf(q, k)
    ensures Untried(keys, i, r) == Untried(keys, i, q)
    decreases |keys| - i
  {
    if i < |keys| {
      UntriedIgnores(keys, i + 1, q, r, key);
    }
  }

  lemma TryTouchesItsKeyOnly(rules: Rules, p: Progress, key: Key, t: Try)
    ensures forall k | k != key :: FailuresOf(TryOne(rules, p, key, t).queue, k) == FailuresOf(p.queue, k)
    ensures TryOne(rules, p, key, t).attempted == p.attempted + 1
  {
  }

  /** What is left of a batch after its next try. */
  lemma OneTryLess(rules: Rules, p: Progress, keys: seq<Key>, i: nat, tries: nat -> Try, limit: nat, next: Progress)
    requires Ascending(keys) && i < |keys| && p.attempted < limit && !p.aborted && FailuresOf(p.queue, keys[i]) < 2
    requires next == TryOne(rules, p, keys[i], tries(p.attempted))
    ensures next.attempted == p.attempted + 1
    ensures BatchRest(rules, p, keys, i, tries, limit) == BatchRest(rules, next, keys, i + 1, tries, limit)
    ensures Untried(keys, i, p.queue) == [keys[i]] + Untried(keys, i + 1, next.queue)
  {
    TryTouchesItsKeyOnly(rules, p, keys[i], tries(p.attempted));
    UntriedIgnores(keys, i + 1, p.queue, next.queue, keys[i]);
  }

  /** The rest of a batch, `left` being the events it may still try. */
  ghost predicate IsCourseOf(rules: Rules, p: Progress, left: seq<Key>, end: Progress, limit: nat, tries: nat -> Try,
                             tried: seq<Key>, ps: seq<Progress>) {
    && Course(rules, tried, ps, tries, p.attempted) && ps[0] == p && ps[|tried|] == end
    && tried <= left && end.attempted == p.attempted + |tried| <= limit
    && (end.aborted || |tried| == |left| || end.attempted == limit)
  }

  lemma LongerCourse(rules: Rules, p: Progress, key: Key, next: Progress, left: seq<Key>, end: Progress, limit: nat, tries: nat -> Try,
                     tried: seq<Key>, ps: seq<Progress>)
    requires !p.aborted && next == TryOne(rules, p, key, tries(p.attempted)) && next.attempted == p.attempted + 1
    requires IsCourseOf(rules, next, left, end, limit, tries, tried, ps)
    ensures IsCourseOf(rules, p, [key] + left, end, limit, tries, [key] + tried, [p] + ps)
  {
    CourseWithFirst(rules, key, p, tried, ps, tries, p.attempted);
    assert ([p] + ps)[|tried| + 1] == ps[|tried|];
  }

  lemma {:induction false} RestIsACourse(rules: Rules, p: Progress, keys: seq<Key>, i: nat, tries: nat -> Try, limit: nat)
      returns (tried: seq<Key>, ps: seq<Progress>)
    requires Ascending(keys) && p.attempted <= limit
    ensures IsCourseOf(rules, p, Untried(keys, i, p.queue), BatchRest(rules, p, keys, i, tries, limit), limit, tries, tried, ps)
    decreases |keys| - i
  {
    if i >= |keys| || p.attempted >= limit || p.aborted {
      tried, ps := [], [p];
    } else if FailuresOf(p.queue, keys[i]) >= 2 {
      tried, ps := RestIsACourse(rules, p, keys, i + 1, tries, limit);
    } else {
      var next := TryOne(rules, p, keys[i], tries(p.attempted));
      OneTryLess(rules, p, keys, i, tries, limit, next);
      var rest, qs := RestIsACourse(rules, next, keys, i + 1, tries, limit);
      tried, ps := [keys[i]] + rest, [p] + qs;
      var left, end := Untried(keys, i + 1, next.queue), BatchRest(rules, next, keys, i + 1, tries, limit);
      LongerCourse(rules, p, keys[i], next, left, end, limit, tries, rest, qs);
    }
  }

  /** A batch tries the handed-out events that failed less than twice, in their order, each once, as many as the limit
      allows, and stops early only when a try stops it. */
  lemma BatchTriesInOrder(rules: Rules, q: Queue, tries: nat -> Try, limit: nat) returns (tried: seq<Key>, ps: seq<Progress>)
    ensures Course(rules, tried, ps, tries, 0) && ps[0] == Progress(q, 0, 0, false) && ps[|tried|] == Batch(rules, q, tries, limit)
    ensures var untried := Untried(Window(rules, q.events), 0, q);
            && tried <= untried && ps[|tried|].attempted == |tried| <= limit
            && (ps[|tried|].aborted || |tried| == |untried| || |tried| == limit)
  {
    WaitingEventsAreListed(rules, q.events);
    tried, ps := RestIsACourse(rules, Progress(q, 0, 0, false), Window(rules, q.events), 0, tries, limit);
  }
}
