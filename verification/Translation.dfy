/** Translated event texts: hashing the source, accepting a submission, and choosing what to display
    (events/content_translation.py, events/translation_queue.py). */
module Translation {
  import opened Options

  datatype Language = En | Ja | ZhHans

  datatype Fields = Fields(title: string, workTitle: string, locationName: string, summary: string)

  /** Unicode normalisation and the quarantine of one language are left open: `passes(language, source, translated)`. */
  datatype Rules = Rules(nfc: string -> string, passes: (Language, Fields, Fields) -> bool)

  /** What a runner submits; BadSchema is anything that is not three objects of four strings. */
  datatype Submission = BadSchema | Texts(en: Fields, ja: Fields, zhHans: Fields)

  /** The JSON of an event. A value that is not an object counts as the empty one. */
  datatype Stored = Stored(sourceHash: Option<string>, manual: bool, en: Option<Fields>, ja: Option<Fields>, zhHans: Option<Fields>)

  const EMPTY := Stored(None, false, None, None, None)

  datatype Event = Event(fields: Fields, published: bool, stored: Stored)

  datatype Outcome =
    | NotFound
    | ManualLocked
    | StaleSource
    | AlreadyCurrent
    | SchemaError
    | NulError
    | Saved(saved: seq<Language>, quarantined: set<Language>)

  datatype Display = Display(fields: Fields, isTranslated: bool)

  // ---------------------------------------------------------------- the source hash

  const SEPARATOR: char := '\U{1F}'

  function Values(f: Fields): seq<string> {
    [f.title, f.workTitle, f.locationName, f.summary]
  }

  function Nfc(rules: Rules, f: Fields): Fields {
    Fields(rules.nfc(f.title), rules.nfc(f.workTitle), rules.nfc(f.locationName), rules.nfc(f.summary))
  }

  function Join(values: seq<string>): string
    requires values != []
  {
    if |values| == 1 then values[0] else values[0] + [SEPARATOR] + Join(values[1..])
  }

  /** The text whose SHA-256 is stored; the hash is taken to be injective. */
  function SourceHash(rules: Rules, f: Fields): string {
    Join(Values(Nfc(rules, f)))
  }

  function Separators(s: string): nat {
    if s == [] then 0 else (if s[0] == SEPARATOR then 1 else 0) + Separators(s[1..])
  }

  function AllSeparators(values: seq<string>): nat {
    if values == [] then 0 else Separators(values[0]) + AllSeparators(values[1..])
  }

  predicate SeparatorFree(f: Fields) {
    AllSeparators(Values(f)) == 0
  }

  lemma {:induction false} SeparatorsAppend(a: string, b: string)
    ensures Separators(a + b) == Separators(a) + Separators(b)
  {
    if a == [] {
      assert a + b == b;
    } else {
      SeparatorsAppend(a[1..], b);
      assert (a + b)[1..] == a[1..] + b;
    }
  }

  lemma {:induction false} JoinSeparators(values: seq<string>)
    requires values != []
    ensures Separators(Join(values)) == AllSeparators(values) + |values| - 1
  {
    if |values| == 1 {
      assert AllSeparators(values[1..]) == 0;
    } else {
      JoinSeparators(values[1..]);
      SeparatorsAppend(values[0], [SEPARATOR] + Join(values[1..]));
      assert Join(values) == values[0] + ([SEPARATOR] + Join(values[1..]));
    }
  }

  lemma {:induction false} NoSeparatorInside(s: string)
    ensures Separators(s) == 0 <==> forall i | 0 <= i < |s| :: s[i] != SEPARATOR
  {
    if s != [] {
      NoSeparatorInside(s[1..]);
    }
  }

  lemma HeadsAgree(a: string, b: string, x: string, y: string)
    requires Separators(a) == Separators(b) == 0 && a + [SEPARATOR] + x == b + [SEPARATOR] + y
    ensures a == b && x == y
  {
    NoSeparatorInside(a);
    NoSeparatorInside(b);
    var s, t := a + [SEPARATOR] + x, b + [SEPARATOR] + y;
    assert s[|a|] == SEPARATOR && t[|b|] == SEPARATOR;
    assert forall i | 0 <= i < |a| :: s[i] == a[i];
    assert forall i | 0 <= i < |b| :: t[i] == b[i];
    assert |a| == |b|;
    assert a == s[..|a|] && b == t[..|b|];
    assert x == s[|a| + 1..] && y == t[|b| + 1..];
  }

  lemma {:induction false} JoinIsInjective(u: seq<string>, v: seq<string>)
    requires |u| == |v| > 0 && AllSeparators(u) == AllSeparators(v) == 0 && Join(u) == Join(v)
    ensures u == v
  {
    if |u| > 1 {
      HeadsAgree(u[0], v[0], Join(u[1..]), Join(v[1..]));
      JoinIsInjective(u[1..], v[1..]);
      assert u == [u[0]] + u[1..] && v == [v[0]] + v[1..];
    }
  }

  /** If the normalised text of one source has no separator in it, its hash tells it from every other source. */
  lemma HashPinsCleanSource(rules: Rules, f: Fields, g: Fields)
    requires SeparatorFree(Nfc(rules, f)) && SourceHash(rules, f) == SourceHash(rules, g)
    ensures Nfc(rules, f) == Nfc(rules, g)
  {
    var u, v := Values(Nfc(rules, f)), Values(Nfc(rules, g));
    JoinSeparators(u);
    JoinSeparators(v);
    JoinIsInjective(u, v);
    assert u[0] == v[0] && u[1] == v[1] && u[2] == v[2] && u[3] == v[3];
  }

  lemma JoinHead(head: string, rest: seq<string>)
    requires rest != []
    ensures Join([head] + rest) == head + [SEPARATOR] + Join(rest)
  {
  }

  /** A separator inside a value can be read as the one between it and its neighbour. */
  lemma {:induction false} SeparatorMoves(before: seq<string>, a: string, b: string, c: string, after: seq<string>)
    ensures Join(before + [a + [SEPARATOR] + b, c] + after) == Join(before + [a, b + [SEPARATOR] + c] + after)
  {
    var x, y := [a + [SEPARATOR] + b, c] + after, [a, b + [SEPARATOR] + c] + after;
    if before == [] {
      assert before + [a + [SEPARATOR] + b, c] + after == [a + [SEPARATOR] + b] + ([c] + after);
      assert before + [a, b + [SEPARATOR] + c] + after == [a] + ([b + [SEPARATOR] + c] + after);
      JoinHead(a + [SEPARATOR] + b, [c] + after);
      JoinHead(a, [b + [SEPARATOR] + c] + after);
      if after != [] {
        JoinHead(c, after);
        JoinHead(b + [SEPARATOR] + c, after);
      }
    } else {
      SeparatorMoves(before[1..], a, b, c, after);
      assert before + [a + [SEPARATOR] + b, c] + after == [before[0]] + (before[1..] + [a + [SEPARATOR] + b, c] + after);
      assert before + [a, b + [SEPARATOR] + c] + after == [before[0]] + (before[1..] + [a, b + [SEPARATOR] + c] + after);
      JoinHead(before[0], before[1..] + [a + [SEPARATOR] + b, c] + after);
      JoinHead(before[0], before[1..] + [a, b + [SEPARATOR] + c] + after);
    }
  }

  /** Another source with the same text to hash: the part of a field behind a separator moves to its neighbour. */
  function Shifted(f: Fields): (g: Fields)
    requires !SeparatorFree(f)
  {
    if Separators(f.title) > 0 then
      var i := FirstSeparatorAt(f.title);
      f.(title := f.title[..i], workTitle := f.title[i + 1..] + [SEPARATOR] + f.workTitle)
    else if Separators(f.workTitle) > 0 then
      var i := FirstSeparatorAt(f.workTitle);
      f.(workTitle := f.workTitle[..i], locationName := f.workTitle[i + 1..] + [SEPARATOR] + f.locationName)
    else if Separators(f.locationName) > 0 then
      var i := FirstSeparatorAt(f.locationName);
      f.(locationName := f.locationName[..i], summary := f.locationName[i + 1..] + [SEPARATOR] + f.summary)
    else
      AllSeparatorsOfFour(f);
      var i := FirstSeparatorAt(f.summary);
      f.(locationName := f.locationName + [SEPARATOR] + f.summary[..i], summary := f.summary[i + 1..])
  }

  function FirstSeparatorAt(s: string): (i: nat)
    requires Separators(s) > 0
    ensures i < |s| && s[i] == SEPARATOR
  {
    if s[0] == SEPARATOR then 0 else 1 + FirstSeparatorAt(s[1..])
  }

  lemma SplitAtSeparator(s: string)
    requires Separators(s) > 0
    ensures s == s[..FirstSeparatorAt(s)] + [SEPARATOR] + s[FirstSeparatorAt(s) + 1..]
  {
  }

  lemma AllSeparatorsOfFour(f: Fields)
    ensures AllSeparators(Values(f)) == Separators(f.title) + Separators(f.workTitle) + Separators(f.locationName) + Separators(f.summary)
  {
    var v := Values(f);
    assert AllSeparators(v) == Separators(v[0]) + AllSeparators(v[1..]);
    assert AllSeparators(v[1..]) == Separators(v[1]) + AllSeparators(v[2..]);
    assert AllSeparators(v[2..]) == Separators(v[2]) + AllSeparators(v[3..]);
    assert AllSeparators(v[3..]) == Separators(v[3]) + AllSeparators(v[4..]);
  }

  /** Two neighbours of the four values, with a separator inside the first read as the one between them. */
  lemma MovedCollides(f: Fields, g: Fields, before: seq<string>, a: string, b: string, c: string, after: seq<string>)
    requires Values(f) == before + [a + [SEPARATOR] + b, c] + after
    requires Values(g) == before + [a, b + [SEPARATOR] + c] + after
    ensures f != g && Join(Values(f)) == Join(Values(g))
  {
    SeparatorMoves(before, a, b, c, after);
    assert |Values(f)[|before|]| > |Values(g)[|before|]|;
  }

  /** Two facts of Unicode normalisation: the separator neither composes with its neighbours nor decomposes, so text on
      its two sides is normalised by itself, and no separator comes or goes. */
  ghost predicate KeepsSeparators(rules: Rules) {
    && (forall a, b :: rules.nfc(a + [SEPARATOR] + b) == rules.nfc(a) + [SEPARATOR] + rules.nfc(b))
    && (forall s :: Separators(rules.nfc(s)) == Separators(s))
  }

  lemma NormalFormSplits(rules: Rules, a: string, b: string)
    requires KeepsSeparators(rules)
    ensures rules.nfc(a + [SEPARATOR] + b) == rules.nfc(a) + [SEPARATOR] + rules.nfc(b)
  {
  }

  function NfcEach(rules: Rules, values: seq<string>): (r: seq<string>)
    ensures |r| == |values| && forall i | 0 <= i < |r| :: r[i] == rules.nfc(values[i])
  {
    seq(|values|, i requires 0 <= i < |values| => rules.nfc(values[i]))
  }

  lemma NormalFormKeepsSeparators(rules: Rules, f: Fields)
    requires KeepsSeparators(rules)
    ensures SeparatorFree(Nfc(rules, f)) <==> SeparatorFree(f)
  {
    AllSeparatorsOfFour(f);
    AllSeparatorsOfFour(Nfc(rules, f));
  }

  /** A separator that moves between two neighbours still does so after normalisation. */
  lemma NormalFormsCollide(rules: Rules, f: Fields, g: Fields, before: seq<string>, a: string, b: string, c: string, after: seq<string>)
    requires KeepsSeparators(rules)
    requires Values(f) == before + [a + [SEPARATOR] + b, c] + after
    requires Values(g) == before + [a, b + [SEPARATOR] + c] + after
    ensures SourceHash(rules, f) == SourceHash(rules, g) && Nfc(rules, f) != Nfc(rules, g)
  {
    NormalFormSplits(rules, a, b);
    NormalFormSplits(rules, b, c);
    var x, y, z := rules.nfc(a), rules.nfc(b), rules.nfc(c);
    assert Values(Nfc(rules, f)) == NfcEach(rules, Values(f)) == NfcEach(rules, before) + [x + [SEPARATOR] + y, z] + NfcEach(rules, after);
    assert Values(Nfc(rules, g)) == NfcEach(rules, Values(g)) == NfcEach(rules, before) + [x, y + [SEPARATOR] + z] + NfcEach(rules, after);
    MovedCollides(Nfc(rules, f), Nfc(rules, g), NfcEach(rules, before), x, y, z, NfcEach(rules, after));
  }

  /** The colliding source collides after normalisation as well, and its normal form is another one. */
  lemma ShiftedHashCollides(rules: Rules, f: Fields)
    requires KeepsSeparators(rules) && !SeparatorFree(f)
    ensures SourceHash(rules, Shifted(f)) == SourceHash(rules, f) && Nfc(rules, Shifted(f)) != Nfc(rules, f)
  {
    var g := Shifted(f);
    AllSeparatorsOfFour(f);
    if Separators(f.title) > 0 {
      var i := FirstSeparatorAt(f.title);
      SplitAtSeparator(f.title);
      NormalFormsCollide(rules, f, g, [], f.title[..i], f.title[i + 1..], f.workTitle, [f.locationName, f.summary]);
    } else if Separators(f.workTitle) > 0 {
      var i := FirstSeparatorAt(f.workTitle);
      SplitAtSeparator(f.workTitle);
      NormalFormsCollide(rules, f, g, [f.title], f.workTitle[..i], f.workTitle[i + 1..], f.locationName, [f.summary]);
    } else if Separators(f.locationName) > 0 {
      var i := FirstSeparatorAt(f.locationName);
      SplitAtSeparator(f.locationName);
      NormalFormsCollide(rules, f, g, [f.title, f.workTitle], f.locationName[..i], f.locationName[i + 1..], f.summary, []);
    } else {
      var i := FirstSeparatorAt(f.summary);
      SplitAtSeparator(f.summary);
      NormalFormsCollide(rules, g, f, [f.title, f.workTitle], f.locationName, f.summary[..i], f.summary[i + 1..], []);
    }
  }

  /** The hash identifies a source, up to normalisation, exactly when no field of it holds a separator. */
  lemma HashIdentifiesExactlyCleanSources(rules: Rules, f: Fields)
    requires KeepsSeparators(rules)
    ensures (forall g :: SourceHash(rules, g) == SourceHash(rules, f) ==> Nfc(rules, g) == Nfc(rules, f)) <==> SeparatorFree(f)
  {
    NormalFormKeepsSeparators(rules, f);
    if SeparatorFree(f) {
      forall g | SourceHash(rules, g) == SourceHash(rules, f)
        ensures Nfc(rules, g) == Nfc(rules, f)
      {
        HashPinsCleanSource(rules, f, g);
      }
    } else {
      ShiftedHashCollides(rules, f);
    }
  }

  // ---------------------------------------------------------------- accepting a submission

  const TARGET_LANGUAGES := [En, Ja, ZhHans]

  function TextOf(s: Submission, language: Language): Fields
    requires s.Texts?
  {
    match language
    case En => s.en
    case Ja => s.ja
    case ZhHans => s.zhHans
  }

  function StoredText(stored: Stored, language: Language): Option<Fields> {
    match language
    case En => stored.en
    case Ja => stored.ja
    case ZhHans => stored.zhHans
  }

  predicate HasNul(s: Submission)
    requires s.Texts?
  {
    exists language: Language, v | v in Values(TextOf(s, language)) :: '\0' in v
  }

  /** The text kept for one language: its normal form, or nothing when it is quarantined. */
  function Kept(rules: Rules, source: Fields, s: Submission, language: Language): Option<Fields>
    requires s.Texts?
  {
    if rules.passes(language, source, TextOf(s, language)) then Some(Nfc(rules, TextOf(s, language))) else None
  }

  function Validated(rules: Rules, source: Fields, s: Submission): Stored
    requires s.Texts?
  {
    Stored(Some(SourceHash(rules, source)), false, Kept(rules, source, s, En), Kept(rules, source, s, Ja), Kept(rules, source, s, ZhHans))
  }

  function Quarantined(rules: Rules, source: Fields, s: Submission): set<Language>
    requires s.Texts?
  {
    set language: Language | language in TARGET_LANGUAGES && !rules.passes(language, source, TextOf(s, language))
  }

  function Without(languages: seq<Language>, removed: set<Language>): seq<Language> {
    if languages == [] then []
    else (if languages[0] in removed then [] else [languages[0]]) + Without(languages[1..], removed)
  }

  function SubmitStep(rules: Rules, e: Event, hash: string, s: Submission): (Event, Outcome) {
    if !e.published then (e, NotFound)
    else if e.stored.manual then (e, ManualLocked)
    else if hash != SourceHash(rules, e.fields) then (e, StaleSource)
    else if e.stored.sourceHash == Some(hash) then (e, AlreadyCurrent)
    else if s.BadSchema? then (e, SchemaError)
    else if HasNul(s) then (e, NulError)
    else
      var quarantined := Quarantined(rules, e.fields, s);
      (e.(stored := Validated(rules, e.fields, s)), Saved(Without(TARGET_LANGUAGES, quarantined), quarantined))
  }

  function SelectDisplay(rules: Rules, source: Fields, stored: Stored, language: Option<Language>): Display {
    if language.Some? && stored.sourceHash == Some(SourceHash(rules, source)) && StoredText(stored, language.value).Some?
    then Display(StoredText(stored, language.value).value, true)
    else Display(source, false)
  }

  /** The event row and the locked section that replaces its JSON. */
  class EventRow {
    var fields: Fields
    var published: bool
    var stored: Stored

    ghost function Row(): Event
      reads this
    {
      Event(fields, published, stored)
    }

    constructor (fields: Fields, published: bool)
      ensures Row() == Event(fields, published, EMPTY)
    {
      this.fields, this.published, stored := fields, published, EMPTY;
    }

    method SubmitTranslation(rules: Rules, hash: string, s: Submission) returns (outcome: Outcome)
      modifies this`stored
      ensures (Row(), outcome) == SubmitStep(rules, old(Row()), hash, s)
    {
      if !published {
        return NotFound;
      }
      if stored.manual {
        return ManualLocked;
      }
      var current := SourceHash(rules, fields);
      if hash != current {
        return StaleSource;
      }
      if stored.sourceHash == Some(current) {
        return AlreadyCurrent;
      }
      if s.BadSchema? {
        return SchemaError;
      }
      if HasNul(s) {
        return NulError;
      }
      var languages: map<Language, Option<Fields>>, quarantined: set<Language> := map[], {};
      for i := 0 to 3
        invariant languages.Keys == set l | l in TARGET_LANGUAGES[..i]
        invariant forall l | l in languages :: languages[l] == Kept(rules, fields, s, l)
        invariant quarantined == set l: Language | l in TARGET_LANGUAGES[..i] && !rules.passes(l, fields, TextOf(s, l))
      {
        var language := TARGET_LANGUAGES[i];
        var translated := TextOf(s, language);
        assert TARGET_LANGUAGES[..i + 1] == TARGET_LANGUAGES[..i] + [language];
        if rules.passes(language, fields, translated) {
          languages := languages[language := Some(Nfc(rules, translated))];
        } else {
          languages := languages[language := None];
          quarantined := quarantined + {language};
        }
      }
      assert TARGET_LANGUAGES[..3] == TARGET_LANGUAGES;
      assert TARGET_LANGUAGES[0] == En && TARGET_LANGUAGES[1] == Ja && TARGET_LANGUAGES[2] == ZhHans;
      stored := Stored(Some(current), false, languages[En], languages[Ja], languages[ZhHans]);
      outcome := Saved(Without(TARGET_LANGUAGES, quarantined), quarantined);
    }
  }

  /** No submission changes a manual translation, and one that follows a saved submission at once, whatever its hash,
      changes nothing. */
  lemma SubmissionsRespectWhatIsThere(rules: Rules, e: Event, hash: string, s: Submission, hash': string, s': Submission)
    ensures e.stored.manual ==> SubmitStep(rules, e, hash, s).0 == e
    ensures SubmitStep(rules, e, hash, s).1.Saved? ==>
              var t := SubmitStep(rules, e, hash, s).0;
              SubmitStep(rules, t, hash', s').0 == t && (hash' == hash ==> SubmitStep(rules, t, hash', s').1 == AlreadyCurrent)
  {
  }

  // ---------------------------------------------------------------- histories of one event

  datatype Change =
    | Edit(fields: Fields)
    | Unpublish
    | Republish
    | Submit(hash: string, submission: Submission)

  /** A submission that was saved, with the source text it was checked against. */
  datatype Acceptance = Acceptance(source: Fields, submission: Submission)

  datatype History = History(event: Event, accepted: seq<Acceptance>)

  function Apply(rules: Rules, h: History, c: Change): History {
    match c
    case Edit(fields) => h.(event := h.event.(fields := fields))
    case Unpublish => h.(event := h.event.(published := false))
    case Republish => h.(event := h.event.(published := true))
    case Submit(hash, submission) =>
      var (e, outcome) := SubmitStep(rules, h.event, hash, submission);
      History(e, h.accepted + if outcome.Saved? then [Acceptance(h.event.fields, submission)] else [])
  }

  function After(rules: Rules, h: History, changes: seq<Change>): History {
    if changes == [] then h
    else Apply(rules, After(rules, h, changes[..|changes| - 1]), changes[|changes| - 1])
  }

  /** The stored JSON is empty or the validated form of the last acceptance. */
  predicate Justified(rules: Rules, h: History) {
    if h.accepted == [] then h.event.stored.sourceHash.None?
    else
      var last := h.accepted[|h.accepted| - 1];
      last.submission.Texts? && h.event.stored == Validated(rules, last.source, last.submission)
  }

  lemma {:induction false} HistoriesAreJustified(rules: Rules, h: History, changes: seq<Change>)
    requires Justified(rules, h)
    ensures Justified(rules, After(rules, h, changes))
  {
    if changes != [] {
      HistoriesAreJustified(rules, h, changes[..|changes| - 1]);
    }
  }

  /** Whatever edits, withdrawals and submissions an event has seen: a text that is displayed as a translation is the
      normal form of a submission that passed quarantine against a source with the hash of the current one, and, when
      the current source holds no separator, against that very source up to normalisation. */
  lemma DisplayedTranslationIsNeverStale(rules: Rules, fields: Fields, published: bool, changes: seq<Change>, language: Language)
    ensures var h := After(rules, History(Event(fields, published, EMPTY), []), changes);
            var display := SelectDisplay(rules, h.event.fields, h.event.stored, Some(language));
            display.isTranslated ==>
              && h.accepted != []
              && var last := h.accepted[|h.accepted| - 1];
                 && last.submission.Texts?
                 && rules.passes(language, last.source, TextOf(last.submission, language))
                 && display.fields == Nfc(rules, TextOf(last.submission, language))
                 && SourceHash(rules, last.source) == SourceHash(rules, h.event.fields)
                 && (SeparatorFree(Nfc(rules, h.event.fields)) ==> Nfc(rules, last.source) == Nfc(rules, h.event.fields))
  {
    var start := History(Event(fields, published, EMPTY), []);
    var h := After(rules, start, changes);
    HistoriesAreJustified(rules, start, changes);
    if h.accepted != [] && SeparatorFree(Nfc(rules, h.event.fields)) {
      var last := h.accepted[|h.accepted| - 1];
      if SourceHash(rules, last.source) == SourceHash(rules, h.event.fields) {
        HashPinsCleanSource(rules, h.event.fields, last.source);
      }
    }
  }

  lemma {:induction false} AcceptancesGrow(rules: Rules, h: History, changes: seq<Change>)
    ensures h.accepted <= After(rules, h, changes).accepted
  {
    if changes != [] {
      AcceptancesGrow(rules, h, changes[..|changes| - 1]);
    }
  }

  /** Over any history a source text is saved again only after a text with another hash has been saved in between: two
      submissions saved one after the other never have the same hash, whatever edits came between them. */
  lemma {:induction false} NoTextIsSavedTwiceRunning(rules: Rules, h: History, changes: seq<Change>)
    requires Justified(rules, h)
    ensures var accepted := After(rules, h, changes).accepted;
            forall i: nat | |h.accepted| <= i + 1 < |accepted| ::
              SourceHash(rules, accepted[i].source) != SourceHash(rules, accepted[i + 1].source)
  {
    if changes != [] {
      NoTextIsSavedTwiceRunning(rules, h, changes[..|changes| - 1]);
      HistoriesAreJustified(rules, h, changes[..|changes| - 1]);
      AcceptancesGrow(rules, h, changes[..|changes| - 1]);
    }
  }

  /** A history of a published event with source `c` now, in which a translation is displayed that was made for a source
      with another normal form. */
  ghost predicate ShowsStale(rules: Rules, start: Fields, changes: seq<Change>, c: Fields, language: Language) {
    var h := After(rules, History(Event(start, true, EMPTY), []), changes);
    && h.event.fields == c
    && SelectDisplay(rules, c, h.event.stored, Some(language)).isTranslated
    && h.accepted != []
    && Nfc(rules, h.accepted[|h.accepted| - 1].source) != Nfc(rules, c)
  }

  /** Exactly which sources can be shown with the translation of another one: those with a separator in some field. The
      texts are any that pass quarantine against the colliding source. */
  lemma StaleTranslationIsDisplayed(rules: Rules, c: Fields, texts: Submission, language: Language)
    requires KeepsSeparators(rules)
    requires texts.Texts? && !HasNul(texts)
    requires !SeparatorFree(c) ==> rules.passes(language, Shifted(c), TextOf(texts, language))
    ensures (exists start, changes :: ShowsStale(rules, start, changes, c, language)) <==> !SeparatorFree(c)
  {
    NormalFormKeepsSeparators(rules, c);
    if SeparatorFree(c) {
      forall start, changes
        ensures !ShowsStale(rules, start, changes, c, language)
      {
        DisplayedTranslationIsNeverStale(rules, start, true, changes, language);
      }
    } else {
      ShiftedHashCollides(rules, c);
      SubmitThenEdit(rules, Shifted(c), texts, c, language);
      assert ShowsStale(rules, Shifted(c), [Submit(SourceHash(rules, Shifted(c)), texts), Edit(c)], c, language);
    }
  }

  lemma SubmitThenEdit(rules: Rules, start: Fields, texts: Submission, c: Fields, language: Language)
    requires texts.Texts? && !HasNul(texts) && rules.passes(language, start, TextOf(texts, language))
    requires SourceHash(rules, start) == SourceHash(rules, c)
    ensures var h := After(rules, History(Event(start, true, EMPTY), []), [Submit(SourceHash(rules, start), texts), Edit(c)]);
            && h.event.fields == c && h.accepted == [Acceptance(start, texts)]
            && SelectDisplay(rules, c, h.event.stored, Some(language)) == Display(Nfc(rules, TextOf(texts, language)), true)
  {
    var first := History(Event(start, true, EMPTY), []);
    var submit, edit := Submit(SourceHash(rules, start), texts), Edit(c);
    assert [submit, edit][..1] == [submit] && [submit][..0] == [];
    assert After(rules, first, []) == first;
    assert After(rules, first, [submit]) == Apply(rules, first, submit);
  }
}
