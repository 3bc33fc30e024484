/** What each archive call does and answers, said of the rows before and after it. */
module ArchiveEffects {
  import opened Options
  import opened ArchiveTables
  import opened ArchiveSafety
  import opened ArchiveTheorems

  // ---------------------------------------------------------------- what is on the table

  predicate There(db: Db, s: Subject) {
    match s
    case OfEvent(e) => e in db.events
    case OfEntry(p) => p in db.entries
  }

  function EventIdOf(s: Subject): Option<nat> {
    match s
    case OfEvent(e) => Some(e)
    case OfEntry(_) => None
  }

  predicate HasVisit(db: Db, key: StatusKey) {
    exists id | id in db.visits :: db.visits[id].user == key.0 && db.visits[id].subject == key.1
  }

  predicate VisitHolds(db: Db, user: nat, token: Option<nat>) {
    token.Some? && exists id | id in db.visits :: db.visits[id].user == user && db.visits[id].token == token
  }

  predicate ItemHolds(db: Db, user: nat, token: Option<nat>) {
    token.Some? && exists id | id in db.items :: db.items[id].user == user && db.items[id].token == token
  }

  predicate Logged(db: Db, user: nat, kind: Kind, token: Option<nat>) {
    token.Some? && exists i | 0 <= i < |db.log| :: db.log[i].user == user && db.log[i].kind == kind && db.log[i].key == token
  }

  /** The entry for a status that changes, and none for one that stays. */
  function ChangeEntries(db: Db, key: StatusKey, to: Status): seq<Entry> {
    if key !in db.statuses then [Entry(key.0, StatusChanged(None, to), EventIdOf(key.1), None, None, None)]
    else if db.statuses[key].status == to then []
    else [Entry(key.0, StatusChanged(Some(db.statuses[key].status), to), EventIdOf(key.1), None, None, None)]
  }

  // ---------------------------------------------------------------- statuses

  lemma StatusIsCreated(db: Db, key: StatusKey, status: Status)
    ensures var (r, outcome) := Step(db, CreateStatus(key, status));
            if !There(db, key.1) then (r, outcome) == (db, Fails(NotFound))
            else if key in db.statuses then (r, outcome) == (db, Fails(DuplicateStatus))
            else if status != Visited && HasVisit(db, key) then (r, outcome) == (db, Fails(VisitRecordExists))
            else
              && outcome == Done
              && r == db.(statuses := db.statuses[key := StatusRow(status, false)], log := db.log + ChangeEntries(db, key, status))
  {
  }

  /** Marking visited always succeeds; missed and planned are refused where a visit record exists; only going back to
      planned sets the override, and none clears it. */
  lemma StatusIsMoved(db: Db, key: StatusKey)
    ensures var (r, outcome) := Step(db, MarkVisited(key));
            if key !in db.statuses then (r, outcome) == (db, Fails(NotFound))
            else
              && outcome == Done
              && r == db.(statuses := db.statuses[key := StatusRow(Visited, db.statuses[key].overridden)],
                          log := db.log + ChangeEntries(db, key, Visited))
    ensures var (r, outcome) := Step(db, MarkMissed(key));
            if key !in db.statuses then (r, outcome) == (db, Fails(NotFound))
            else if HasVisit(db, key) then (r, outcome) == (db, Fails(VisitRecordExists))
            else
              && outcome == Done
              && r == db.(statuses := db.statuses[key := StatusRow(Missed, db.statuses[key].overridden)],
                          log := db.log + ChangeEntries(db, key, Missed))
    ensures var (r, outcome) := Step(db, RevertToPlanned(key));
            if key !in db.statuses then (r, outcome) == (db, Fails(NotFound))
            else if HasVisit(db, key) then (r, outcome) == (db, Fails(VisitRecordExists))
            else
              && outcome == Done
              && r == db.(statuses := db.statuses[key := StatusRow(Planned, true)], log := db.log + ChangeEntries(db, key, Planned))
  {
    assert db.log + [] == db.log;
  }

  lemma StatusIsRemoved(db: Db, key: StatusKey)
    ensures var (r, outcome) := Step(db, RemoveStatus(key));
            if key !in db.statuses then (r, outcome) == (db, Fails(NotFound))
            else
              && outcome == Done
              && r == db.(statuses := db.statuses - {key},
                          log := db.log + [Entry(key.0, StatusRemoved, EventIdOf(key.1), None, None, None)])
  {
  }

  // ---------------------------------------------------------------- completed visits

  /** A completed visit is recorded, under a new id, exactly unless its subject is missing or its token is spent: the
      record as given, the status visited, and the log entries for both. */
  lemma VisitIsRecorded(db: Db, v: Visit)
    requires Inv(db) && There(db, v.subject) && !Logged(db, v.user, VisitRecordCreated, v.token)
    ensures var (r, outcome) := Step(db, CompleteVisit(v));
            var key := (v.user, v.subject);
            && outcome.Row? && outcome.id !in db.visits
            && r.visits == db.visits[outcome.id := v]
            && r.statuses == db.statuses[key := StatusRow(Visited, if key in db.statuses then db.statuses[key].overridden else false)]
            && r.log == db.log + ChangeEntries(db, key, Visited)
                        + [Entry(v.user, VisitRecordCreated, EventIdOf(v.subject), Some(outcome.id), None, v.token)]
            && r.items == db.items && r.events == db.events && r.entries == db.entries
  {
    var key := (v.user, v.subject);
    EnsuredIsVisited(db, key);
    if v.token.Some? {
      HeldIsLogged(db, v.user, v.token.value);
      StatusEntriesHaveNoKey(db, key, v.user, v.token.value);
    }
  }

  lemma EnsuredIsVisited(db: Db, key: StatusKey)
    ensures EnsureVisited(db, key).statuses
         == db.statuses[key := StatusRow(Visited, if key in db.statuses then db.statuses[key].overridden else false)]
    ensures EnsureVisited(db, key) == db.(statuses := EnsureVisited(db, key).statuses, log := db.log + ChangeEntries(db, key, Visited))
  {
    assert db.log + [] == db.log;
    if key in db.statuses && db.statuses[key].status == Visited {
      assert db.statuses[key := db.statuses[key]] == db.statuses;
    }
  }

  lemma HeldIsLogged(db: Db, user: nat, token: nat)
    requires Inv(db)
    ensures VisitTokenTaken(db.visits, user, token) ==> Logged(db, user, VisitRecordCreated, Some(token))
    ensures ItemTokenTaken(db.items, user, token) ==> Logged(db, user, CollectionItemCreated, Some(token))
  {
  }

  lemma StatusEntriesHaveNoKey(db: Db, key: StatusKey, user: nat, token: nat)
    ensures KeyTaken(db.log + ChangeEntries(db, key, Visited), user, VisitRecordCreated, token)
       <==> Logged(db, user, VisitRecordCreated, Some(token))
  {
    ExtensionKeepsKeys(db.log, db.log + ChangeEntries(db, key, Visited));
    var log := db.log + ChangeEntries(db, key, Visited);
    if KeyTaken(log, user, VisitRecordCreated, token) {
      var i :| 0 <= i < |log| && log[i].user == user && log[i].kind == VisitRecordCreated && log[i].key == Some(token);
      assert i < |db.log| && log[i] == db.log[i];
    }
  }

  /** When a completed visit fails, and that it then changes nothing; a token whose record is there names that record. */
  lemma VisitFailsOrRepeats(db: Db, v: Visit)
    requires Inv(db)
    ensures var (r, outcome) := Step(db, CompleteVisit(v));
            && (outcome.Fails? <==> !There(db, v.subject)
                                    || (Logged(db, v.user, VisitRecordCreated, v.token) && !VisitHolds(db, v.user, v.token)))
            && (outcome.Fails? ==> (r, outcome) == (db, Fails(NotFound)))
            && (There(db, v.subject) && VisitHolds(db, v.user, v.token) ==>
                  && outcome.Row? && outcome.id in db.visits && r.visits == db.visits
                  && db.visits[outcome.id].user == v.user && db.visits[outcome.id].token == v.token)
  {
    var key := (v.user, v.subject);
    EnsuredIsVisited(db, key);
    if v.token.Some? {
      HeldIsLogged(db, v.user, v.token.value);
      StatusEntriesHaveNoKey(db, key, v.user, v.token.value);
    }
  }

  lemma VisitIsUpdated(db: Db, id: nat, visitedOn: int, review: string)
    ensures var (r, outcome) := Step(db, UpdateVisit(id, visitedOn, review));
            if id !in db.visits then (r, outcome) == (db, Fails(NotFound))
            else
              && outcome == Done
              && var v := db.visits[id];
                 r == db.(visits := db.visits[id := Visit(v.user, v.subject, visitedOn, review, v.token)])
  {
  }

  // ---------------------------------------------------------------- items

  /** A new item is stored as given, with the event of its visit record, exactly if what it names exists, its quantities are
      sound, its visit record is the owner's and its token is not spent. */
  lemma ItemIsCreated(db: Db, item: Item)
    requires Inv(db)
    ensures var (r, outcome) := Step(db, CreateItem(item));
            if (item.visit.Some? && item.visit.value !in db.visits) || (item.event.Some? && item.event.value !in db.events) then
              (r, outcome) == (db, Fails(NotFound))
            else if item.quantity < 0 || item.tradeable < 0 || item.tradeable > item.quantity then (r, outcome) == (db, Fails(Invalid))
            else if item.visit.Some? && db.visits[item.visit.value].user != item.user then (r, outcome) == (db, Fails(Invalid))
            else if ItemHolds(db, item.user, item.token) then
              && r == db && outcome.Row? && outcome.id in db.items
              && db.items[outcome.id].user == item.user && db.items[outcome.id].token == item.token
            else if Logged(db, item.user, CollectionItemCreated, item.token) then (r, outcome) == (db, Fails(NotFound))
            else
              && outcome.Row? && outcome.id !in db.items
              && var stored := if item.visit.Some? then item.(event := EventIdOf(db.visits[item.visit.value].subject)) else item;
                 r == db.(items := db.items[outcome.id := stored],
                          log := db.log + [Entry(item.user, CollectionItemCreated, None, None, Some(outcome.id), item.token)],
                          next := r.next)
  {
    if item.token.Some? {
      HeldIsLogged(db, item.user, item.token.value);
    }
  }

  predicate SameKind(f: Field, g: Field) {
    match f
    case Quantity(_) => g.Quantity?
    case Tradeable(_) => g.Tradeable?
    case Wanted(_) => g.Wanted?
    case AcquiredOn(_) => g.AcquiredOn?
    case VisitRecord(_) => g.VisitRecord?
    case EventLink(_) => g.EventLink?
  }

  /** The item has that value in that field. */
  predicate Has(item: Item, f: Field) {
    match f
    case Quantity(n) => item.quantity == n
    case Tradeable(n) => item.tradeable == n
    case Wanted(wanted) => item.wanted == wanted
    case AcquiredOn(day) => item.acquiredOn == day
    case VisitRecord(visit) => item.visit == visit
    case EventLink(event) => item.event == event
  }

  /** The patch gives that value for that field: the last value counts. */
  predicate Gives(fields: seq<Field>, f: Field) {
    && fields != []
    && var last := fields[|fields| - 1];
       last == f || (!SameKind(f, last) && Gives(fields[..|fields| - 1], f))
  }

  predicate Mentions(fields: seq<Field>, f: Field) {
    fields != [] && (SameKind(f, fields[|fields| - 1]) || Mentions(fields[..|fields| - 1], f))
  }

  lemma {:induction false} EveryFieldIsSet(item: Item, fields: seq<Field>, f: Field)
    ensures Gives(fields, f) ==> Has(SetFields(item, fields), f)
    ensures !Mentions(fields, f) ==> (Has(SetFields(item, fields), f) <==> Has(item, f))
    ensures SetFields(item, fields).user == item.user && SetFields(item, fields).token == item.token
  {
    if fields != [] {
      EveryFieldIsSet(item, fields[..|fields| - 1], f);
    }
  }

  /** An accepted patch gives each field of the item the value it names, and leaves each field that it does not name; a new
      visit record decides the event. Nothing else changes, and a change of quantities, wish or date is logged. */
  lemma ItemIsPatched(db: Db, id: nat, fields: seq<Field>, f: Field)
    requires Inv(db) && Step(db, UpdateItem(id, fields)).1 == Row(id)
    ensures var r := Step(db, UpdateItem(id, fields)).0;
            var was, now := db.items[id], r.items[id];
            && r == db.(items := db.items[id := now], log := r.log)
            && now.user == was.user && now.token == was.token
            && (!f.EventLink? ==> (Gives(fields, f) ==> Has(now, f)) && (!Mentions(fields, f) ==> (Has(now, f) <==> Has(was, f))))
            && (f.EventLink? && now.visit.None? ==>
                  (Gives(fields, f) ==> Has(now, f)) && (!Mentions(fields, f) ==> (Has(now, f) <==> Has(was, f))))
            && (now.visit.Some? ==> now.visit.value in db.visits && now.event == EventIdOf(db.visits[now.visit.value].subject))
            && r.log == db.log + if (now.quantity, now.wanted, now.tradeable, now.acquiredOn)
                                    != (was.quantity, was.wanted, was.tradeable, was.acquiredOn)
                                 then [Entry(was.user, CollectionItemOrganized, None, None, Some(id), None)] else []
  {
    var synced := Synced(db.visits, fields);
    PatchedItemIsOk(db, db.items[id], fields);
    EveryFieldIsSet(db.items[id], synced, f);
    SetFieldsMerges(db.items[id], synced);
    SyncedFields(db.visits, fields);
    assert db.log + [] == db.log;
    assert SetFields(db.items[id], synced).visit.None? ==> synced == fields || Given(VisitIn(fields)).Some?;
    if synced != fields && !f.EventLink? {
      SyncedGives(fields, synced, f);
    }
  }

  lemma SyncedGives(fields: seq<Field>, synced: seq<Field>, f: Field)
    requires !f.EventLink? && |synced| == |fields| + 1 && synced[..|fields|] == fields && synced[|fields|].EventLink?
    ensures Gives(synced, f) <==> Gives(fields, f)
    ensures Mentions(synced, f) <==> Mentions(fields, f)
  {
  }

  /** What the dictionary lookups find. */
  lemma {:induction false} LookupsTell(fields: seq<Field>, q: int, d: int, link: Option<nat>)
    ensures Gives(fields, Quantity(q)) ==> QuantityIn(fields, d) == q
    ensures !Mentions(fields, Quantity(q)) ==> QuantityIn(fields, d) == d
    ensures Gives(fields, Tradeable(q)) ==> TradeableIn(fields, d) == q
    ensures !Mentions(fields, Tradeable(q)) ==> TradeableIn(fields, d) == d
    ensures Gives(fields, VisitRecord(link)) ==> VisitIn(fields) == Some(link)
    ensures !Mentions(fields, VisitRecord(link)) ==> VisitIn(fields).None?
    ensures Gives(fields, EventLink(link)) ==> EventIn(fields) == Some(link)
    ensures !Mentions(fields, EventLink(link)) ==> EventIn(fields).None?
  {
    if fields != [] {
      LookupsTell(fields[..|fields| - 1], q, d, link);
    }
  }

  /** What is given for a link, if anything is. */
  predicate GivesVisit(fields: seq<Field>, v: Option<Option<nat>>) {
    if v.Some? then Gives(fields, VisitRecord(v.value)) else !Mentions(fields, VisitRecord(None))
  }

  predicate GivesEvent(fields: seq<Field>, e: Option<Option<nat>>) {
    if e.Some? then Gives(fields, EventLink(e.value)) else !Mentions(fields, EventLink(None))
  }

  /** Which patches are accepted. `q` and `t` are the quantities after the patch, `v` and `e` the links it gives: a visit
      record must be the owner's, and an event given without one must be that of the visit record the item has. */
  lemma PatchIsAccepted(db: Db, id: nat, fields: seq<Field>, q: int, t: int, v: Option<Option<nat>>, e: Option<Option<nat>>)
    requires Inv(db) && id in db.items
    requires Gives(fields, Quantity(q)) || (!Mentions(fields, Quantity(q)) && db.items[id].quantity == q)
    requires Gives(fields, Tradeable(t)) || (!Mentions(fields, Tradeable(t)) && db.items[id].tradeable == t)
    requires GivesVisit(fields, v) && GivesEvent(fields, e)
    ensures var item := db.items[id];
            Step(db, UpdateItem(id, fields)).1 == Row(id) <==>
              && 0 <= t <= q
              && (v.Some? && v.value.Some? ==> v.value.value in db.visits && db.visits[v.value.value].user == item.user)
              && (e.Some? && e.value.Some? ==> e.value.value in db.events)
              && (v.None? && e.Some? && item.visit.Some? ==> e.value == EventIdOf(db.visits[item.visit.value].subject))
  {
    LookupsTell(fields, q, db.items[id].quantity, if v.Some? then v.value else None);
    LookupsTell(fields, t, db.items[id].tradeable, if e.Some? then e.value else None);
    if RefersTo(db, Given(v), Given(e)) {
      PatchInFull(db, id, fields);
    }
  }

  /** A refused patch changes nothing, and is told whether something is missing or something is wrong. */
  lemma PatchIsRefused(db: Db, id: nat, fields: seq<Field>, v: Option<Option<nat>>, e: Option<Option<nat>>)
    requires Inv(db) && GivesVisit(fields, v) && GivesEvent(fields, e)
    ensures var (r, outcome) := Step(db, UpdateItem(id, fields));
            var missing := || id !in db.items || (v.Some? && v.value.Some? && v.value.value !in db.visits)
                           || (e.Some? && e.value.Some? && e.value.value !in db.events);
            && (missing ==> outcome == Fails(NotFound))
            && (outcome != Row(id) ==> r == db && (!missing ==> outcome == Fails(Invalid)))
  {
    LookupsTell(fields, 0, 0, if v.Some? then v.value else None);
    LookupsTell(fields, 0, 0, if e.Some? then e.value else None);
  }

  // ---------------------------------------------------------------- deletions

  /** The log keeps every entry, less its links to what is gone. */
  predicate LosesLinks(log: seq<Entry>, later: seq<Entry>, events: set<nat>, visits: set<nat>, items: set<nat>) {
    && |later| == |log|
    && forall i | 0 <= i < |log| ::
         later[i] == Entry(log[i].user, log[i].kind,
                           if log[i].event.Some? && log[i].event.value in events then None else log[i].event,
                           if log[i].visit.Some? && log[i].visit.value in visits then None else log[i].visit,
                           if log[i].item.Some? && log[i].item.value in items then None else log[i].item, log[i].key)
  }

  lemma ItemIsDeleted(db: Db, id: nat)
    ensures var (r, outcome) := Step(db, DeleteItem(id));
            if id !in db.items then (r, outcome) == (db, Fails(NotFound))
            else outcome == Done && r == db.(items := db.items - {id}, log := r.log) && LosesLinks(db.log, r.log, {}, {}, {id})
  {
  }

  lemma VisitIsDeleted(db: Db, id: nat)
    ensures var (r, outcome) := Step(db, DeleteVisit(id));
            if id !in db.visits then (r, outcome) == (db, Fails(NotFound))
            else
              && outcome == Done && r == db.(visits := db.visits - {id}, items := r.items, log := r.log)
              && r.items == (map i | i in db.items :: if db.items[i].visit == Some(id) then db.items[i].(visit := None) else db.items[i])
              && LosesLinks(db.log, r.log, {}, {id}, {})
  {
  }

  /** A subject goes with its statuses and visit records, and no others. */
  predicate GoesWith(db: Db, r: Db, s: Subject) {
    && r.statuses == (map key | key in db.statuses && key.1 != s :: db.statuses[key])
    && r.visits == (map id | id in db.visits && db.visits[id].subject != s :: db.visits[id])
    && LosesLinks(db.log, r.log, if s.OfEvent? then {s.event} else {}, set id | id in db.visits && db.visits[id].subject == s, {})
  }

  /** Items stay, less their links to what is gone. */
  predicate ItemsStay(db: Db, r: Db, s: Subject) {
    && r.items.Keys == db.items.Keys
    && forall id | id in db.items ::
         && r.items[id] == db.items[id].(visit := r.items[id].visit, event := r.items[id].event)
         && r.items[id].visit == (if GoneVisit(db, db.items[id].visit, s) then None else db.items[id].visit)
         && r.items[id].event == (if db.items[id].event.Some? && s == OfEvent(db.items[id].event.value) then None else db.items[id].event)
  }

  predicate GoneVisit(db: Db, link: Option<nat>, s: Subject) {
    link.Some? && link.value in db.visits && db.visits[link.value].subject == s
  }

  lemma ItemsLoseLinks(items: map<nat, Item>, gone: set<nat>, e: nat, id: nat)
    requires id in items
    ensures var was, later := items[id], WithoutEvent(WithoutVisits(items, gone), e);
            && id in later
            && later[id] == was.(visit := if was.visit.Some? && was.visit.value in gone then None else was.visit,
                                 event := if was.event == Some(e) then None else was.event)
  {
  }

  lemma EventsItemsStay(db: Db, id: nat)
    requires id in db.events
    ensures ItemsStay(db, Step(db, DeleteEvent(id)).0, OfEvent(id))
  {
    var gone := VisitsOf(db.visits, OfEvent(id));
    assert Step(db, DeleteEvent(id)).0.items == WithoutEvent(WithoutVisits(db.items, gone), id);
    forall i | i in db.items
      ensures i in WithoutEvent(WithoutVisits(db.items, gone), id)
      ensures var was, later := db.items[i], WithoutEvent(WithoutVisits(db.items, gone), id);
              later[i] == was.(visit := if was.visit.Some? && was.visit.value in gone then None else was.visit,
                               event := if was.event == Some(id) then None else was.event)
    {
      ItemsLoseLinks(db.items, gone, id, i);
    }
  }

  lemma EventIsDeleted(db: Db, id: nat)
    ensures var (r, outcome) := Step(db, DeleteEvent(id));
            if id !in db.events then (r, outcome) == (db, Fails(NotFound))
            else
              && outcome == Done && GoesWith(db, r, OfEvent(id)) && ItemsStay(db, r, OfEvent(id))
              && r.events == (map e | e in db.events && e != id :: db.events[e]) && r.entries == db.entries && r.next == db.next
  {
    if id in db.events {
      EventsItemsStay(db, id);
    }
  }

  lemma EntryIsDeleted(db: Db, id: nat)
    ensures var (r, outcome) := Step(db, DeleteEntry(id));
            if id !in db.entries then (r, outcome) == (db, Fails(NotFound))
            else
              && outcome == Done && GoesWith(db, r, OfEntry(id)) && ItemsStay(db, r, OfEntry(id))
              && r.entries == (map p | p in db.entries && p != id :: db.entries[p]) && r.events == db.events && r.next == db.next
  {
  }

  // ---------------------------------------------------------------- the derived status

  /** What a user sees of a row: a planned event that is over reads missed, unless the user insisted on it. */
  lemma DerivedStatusSpelledOut(db: Db, key: StatusKey, today: int)
    requires Inv(db) && key in db.statuses
    ensures var row := db.statuses[key];
            Derived(db, key, today) ==
              if && row.status == Planned && !row.overridden && key.1.OfEvent?
                 && db.events[key.1.event].Some? && db.events[key.1.event].value < today
              then Missed else row.status
  {
    DerivedStatusInFull(db, key, today);
  }
}
