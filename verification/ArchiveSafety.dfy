/** What every service call keeps. */
module ArchiveSafety {
  import opened Options
  import opened ArchiveTables

  datatype Action =
    | AddEvent(end: Option<int>)
    | MoveEvent(e: nat, end: Option<int>)
    | DeleteEvent(e: nat)
    | AddEntry(owner: nat)
    | DeleteEntry(p: nat)
    | CreateStatus(key: StatusKey, status: Status)
    | MarkVisited(key: StatusKey)
    | MarkMissed(key: StatusKey)
    | RevertToPlanned(key: StatusKey)
    | RemoveStatus(key: StatusKey)
    | CompleteVisit(v: Visit)
    | UpdateVisit(id: nat, visitedOn: int, review: string)
    | DeleteVisit(id: nat)
    | CreateItem(newItem: Item)
    | UpdateItem(id: nat, fields: seq<Field>)
    | DeleteItem(id: nat)

  ghost function Step(db: Db, a: Action): (Db, Outcome) {
    match a
    case AddEvent(end) => (db.(events := db.events[db.next := end], next := db.next + 1), Row(db.next))
    case MoveEvent(e, end) => if e in db.events then (db.(events := db.events[e := end]), Done) else (db, Fails(NotFound))
    case DeleteEvent(e) => DeleteEventStep(db, e)
    case AddEntry(owner) => (db.(entries := db.entries[db.next := owner], next := db.next + 1), Row(db.next))
    case DeleteEntry(p) => DeleteEntryStep(db, p)
    case CreateStatus(key, status) => CreateStatusStep(db, key, status)
    case MarkVisited(key) => MarkVisitedStep(db, key)
    case MarkMissed(key) => MarkMissedStep(db, key)
    case RevertToPlanned(key) => RevertToPlannedStep(db, key)
    case RemoveStatus(key) => RemoveStatusStep(db, key)
    case CompleteVisit(v) => CompleteVisitStep(db, v)
    case UpdateVisit(id, visitedOn, review) => UpdateVisitStep(db, id, visitedOn, review)
    case DeleteVisit(id) => DeleteVisitStep(db, id)
    case CreateItem(newItem) => CreateItemStep(db, newItem)
    case UpdateItem(id, fields) => UpdateItemStep(db, id, fields)
    case DeleteItem(id) => DeleteItemStep(db, id)
  }

  // ---------------------------------------------------------------- the invariant

  predicate Below<T>(rows: map<nat, T>, next: nat) {
    forall id | id in rows :: id < next
  }

  predicate SubjectsExist(events: map<nat, Option<int>>, entries: map<nat, nat>,
                          statuses: map<StatusKey, StatusRow>, visits: map<nat, Visit>) {
    && (forall key | key in statuses :: Exists(events, entries, key.1))
    && (forall id | id in visits :: Exists(events, entries, visits[id].subject))
  }

  /** Where a visit record exists, a status row says visited. */
  predicate Agreement(statuses: map<StatusKey, StatusRow>, visits: map<nat, Visit>) {
    forall id | id in visits && (visits[id].user, visits[id].subject) in statuses ::
      statuses[(visits[id].user, visits[id].subject)].status.Visited?
  }

  predicate VisitTokensLogged(visits: map<nat, Visit>, log: seq<Entry>) {
    forall id | id in visits && visits[id].token.Some? :: KeyTaken(log, visits[id].user, VisitRecordCreated, visits[id].token.value)
  }

  predicate ItemTokensLogged(items: map<nat, Item>, log: seq<Entry>) {
    forall id | id in items && items[id].token.Some? :: KeyTaken(log, items[id].user, CollectionItemCreated, items[id].token.value)
  }

  /** Sound quantities, and links that agree: the linked visit record is the owner's and names the item's event. */
  predicate ItemOk(events: map<nat, Option<int>>, visits: map<nat, Visit>, item: Item) {
    && ValidQuantities(item.quantity, item.tradeable)
    && (item.event.Some? ==> item.event.value in events)
    && (item.visit.Some? ==>
          && item.visit.value in visits
          && visits[item.visit.value].user == item.user
          && item.event == EventOf(visits[item.visit.value].subject))
  }

  predicate ItemsOk(events: map<nat, Option<int>>, visits: map<nat, Visit>, items: map<nat, Item>) {
    forall id | id in items :: ItemOk(events, visits, items[id])
  }

  predicate LogEventsExist(events: map<nat, Option<int>>, log: seq<Entry>) {
    forall i | 0 <= i < |log| && log[i].event.Some? :: log[i].event.value in events
  }

  /** The status of a user's event according to the activity log alone. */
  function StatusFromLog(log: seq<Entry>, user: nat, e: nat): Option<Status> {
    if log == [] then None
    else
      var last := log[|log| - 1];
      if last.user == user && last.event == Some(e) && last.kind.StatusChanged? then Some(last.kind.to)
      else if last.user == user && last.event == Some(e) && last.kind.StatusRemoved? then None
      else StatusFromLog(log[..|log| - 1], user, e)
  }

  function StoredStatus(statuses: map<StatusKey, StatusRow>, user: nat, e: nat): Option<Status> {
    if (user, OfEvent(e)) in statuses then Some(statuses[(user, OfEvent(e))].status) else None
  }

  ghost predicate LogTells(events: map<nat, Option<int>>, statuses: map<StatusKey, StatusRow>, log: seq<Entry>) {
    forall user: nat, e | e in events :: StatusFromLog(log, user, e) == StoredStatus(statuses, user, e)
  }

  ghost predicate RowsInv(db: Db) {
    && Below(db.events, db.next) && Below(db.entries, db.next) && Below(db.visits, db.next) && Below(db.items, db.next)
    && SubjectsExist(db.events, db.entries, db.statuses, db.visits)
    && Agreement(db.statuses, db.visits)
  }

  ghost predicate TokenInv(db: Db) {
    && VisitTokensUnique(db.visits) && ItemTokensUnique(db.items)
    && VisitTokensLogged(db.visits, db.log) && ItemTokensLogged(db.items, db.log)
  }

  ghost predicate LogInv(db: Db) {
    LogEventsExist(db.events, db.log) && LogTells(db.events, db.statuses, db.log)
  }

  ghost predicate Inv(db: Db) {
    RowsInv(db) && TokenInv(db) && ItemsOk(db.events, db.visits, db.items) && LogInv(db)
  }

  // ---------------------------------------------------------------- the log

  /** A log in which the same things happened, as far as operation keys go. */
  ghost predicate KeepsKeys(log: seq<Entry>, later: seq<Entry>) {
    forall user: nat, kind, key: nat | KeyTaken(log, user, kind, key) :: KeyTaken(later, user, kind, key)
  }

  lemma AppendingKeepsKeys(log: seq<Entry>, e: Entry)
    ensures KeepsKeys(log, log + [e])
    ensures e.key.Some? ==> KeyTaken(log + [e], e.user, e.kind, e.key.value)
  {
    forall user: nat, kind, key: nat | KeyTaken(log, user, kind, key)
      ensures KeyTaken(log + [e], user, kind, key)
    {
      var i :| 0 <= i < |log| && log[i].user == user && log[i].kind == kind && log[i].key == Some(key);
      assert (log + [e])[i] == log[i];
    }
    assert (log + [e])[|log|] == e;
  }

  lemma UnlinkingKeepsKeys(log: seq<Entry>, events: set<nat>, visits: set<nat>, items: set<nat>)
    ensures KeepsKeys(log, Unlinked(log, events, visits, items))
  {
  }

  lemma TokensStayLogged(visits: map<nat, Visit>, items: map<nat, Item>, log: seq<Entry>, later: seq<Entry>)
    requires VisitTokensLogged(visits, log) && ItemTokensLogged(items, log) && KeepsKeys(log, later)
    ensures VisitTokensLogged(visits, later) && ItemTokensLogged(items, later)
  {
  }

  lemma AppendTells(log: seq<Entry>, entry: Entry, user: nat, e: nat)
    ensures StatusFromLog(log + [entry], user, e)
         == if entry.user == user && entry.event == Some(e) && entry.kind.StatusChanged? then Some(entry.kind.to)
            else if entry.user == user && entry.event == Some(e) && entry.kind.StatusRemoved? then None
            else StatusFromLog(log, user, e)
  {
  }

  lemma {:induction false} SameEventSameStory(log: seq<Entry>, later: seq<Entry>, user: nat, e: nat)
    requires |later| == |log|
    requires forall i | 0 <= i < |log| ::
               later[i].user == log[i].user && later[i].kind == log[i].kind && (later[i].event == Some(e) <==> log[i].event == Some(e))
    ensures StatusFromLog(later, user, e) == StatusFromLog(log, user, e)
  {
    if log != [] {
      SameEventSameStory(log[..|log| - 1], later[..|log| - 1], user, e);
    }
  }

  lemma {:induction false} UnheardOfEvent(log: seq<Entry>, user: nat, e: nat)
    requires forall i | 0 <= i < |log| :: log[i].event != Some(e)
    ensures StatusFromLog(log, user, e) == None
  {
    if log != [] {
      UnheardOfEvent(log[..|log| - 1], user, e);
    }
  }

  /** Entries that are not about a status leave the story as it is. */
  lemma OtherEntryTells(events: map<nat, Option<int>>, statuses: map<StatusKey, StatusRow>, log: seq<Entry>, entry: Entry)
    requires LogEventsExist(events, log) && LogTells(events, statuses, log)
    requires !entry.kind.StatusChanged? && !entry.kind.StatusRemoved? && (entry.event.Some? ==> entry.event.value in events)
    ensures LogEventsExist(events, log + [entry]) && LogTells(events, statuses, log + [entry])
  {
  }

  /** A status written with its log entry. */
  lemma StatusEntryTells(events: map<nat, Option<int>>, statuses: map<StatusKey, StatusRow>, log: seq<Entry>,
                         key: StatusKey, row: StatusRow, from: Option<Status>)
    requires LogEventsExist(events, log) && LogTells(events, statuses, log)
    requires key.1.OfEvent? ==> key.1.event in events
    ensures var entry := StatusEntry(key, StatusChanged(from, row.status));
            LogEventsExist(events, log + [entry]) && LogTells(events, statuses[key := row], log + [entry])
  {
    var entry := StatusEntry(key, StatusChanged(from, row.status));
    forall user: nat, e | e in events
      ensures StatusFromLog(log + [entry], user, e) == StoredStatus(statuses[key := row], user, e)
    {
      AppendTells(log, entry, user, e);
    }
  }

  lemma RemovalTells(events: map<nat, Option<int>>, statuses: map<StatusKey, StatusRow>, log: seq<Entry>, key: StatusKey)
    requires LogEventsExist(events, log) && LogTells(events, statuses, log)
    requires key.1.OfEvent? ==> key.1.event in events
    ensures var entry := StatusEntry(key, StatusRemoved);
            LogEventsExist(events, log + [entry]) && LogTells(events, statuses - {key}, log + [entry])
  {
  }

  lemma UnlinkingTells(events: map<nat, Option<int>>, statuses: map<StatusKey, StatusRow>, kept: map<StatusKey, StatusRow>,
                       log: seq<Entry>, lost: set<nat>, gone: set<nat>, goneItems: set<nat>)
    requires LogEventsExist(events, log) && LogTells(events, statuses, log)
    requires forall user: nat, e | e in events - lost :: StoredStatus(kept, user, e) == StoredStatus(statuses, user, e)
    ensures var later := Unlinked(log, lost, gone, goneItems);
            LogEventsExist(events - lost, later) && LogTells(events - lost, kept, later)
  {
    var later := Unlinked(log, lost, gone, goneItems);
    forall user: nat, e | e in events - lost
      ensures StatusFromLog(later, user, e) == StoredStatus(kept, user, e)
    {
      SameEventSameStory(log, later, user, e);
    }
  }

  // ---------------------------------------------------------------- statuses

  lemma TransitionKeeps(db: Db, key: StatusKey, row: StatusRow)
    requires Inv(db) && Exists(db.events, db.entries, key.1)
    requires row.status.Visited? || !HasVisitRecord(db.visits, key.0, key.1)
    ensures Inv(Transitioned(db, key, row))
  {
    var from := if key in db.statuses then Some(db.statuses[key].status) else None;
    var entry := StatusEntry(key, StatusChanged(from, row.status));
    AppendingKeepsKeys(db.log, entry);
    TokensStayLogged(db.visits, db.items, db.log, db.log + [entry]);
    if from == Some(row.status) {
      assert forall user: nat, e | e in db.events :: StoredStatus(db.statuses[key := row], user, e) == StoredStatus(db.statuses, user, e);
    } else {
      StatusEntryTells(db.events, db.statuses, db.log, key, row, from);
    }
  }

  lemma RemovalKeeps(db: Db, key: StatusKey)
    requires Inv(db)
    ensures Inv(RemoveStatusStep(db, key).0)
  {
    if key in db.statuses {
      var entry := StatusEntry(key, StatusRemoved);
      AppendingKeepsKeys(db.log, entry);
      TokensStayLogged(db.visits, db.items, db.log, db.log + [entry]);
      RemovalTells(db.events, db.statuses, db.log, key);
    }
  }

  // ---------------------------------------------------------------- visits

  lemma EnsuringKeeps(db: Db, key: StatusKey)
    requires Inv(db) && Exists(db.events, db.entries, key.1)
    ensures var r := EnsureVisited(db, key);
            && Inv(r) && key in r.statuses && r.statuses[key].status.Visited?
            && r.visits == db.visits && r.next == db.next && KeepsKeys(db.log, r.log)
  {
    var row := StatusRow(Visited, if key in db.statuses then db.statuses[key].overridden else false);
    TransitionKeeps(db, key, row);
    var from := if key in db.statuses then Some(db.statuses[key].status) else None;
    AppendingKeepsKeys(db.log, StatusEntry(key, StatusChanged(from, Visited)));
  }

  /** Adding a visit record under a fresh id whose token nobody holds. */
  lemma AddedVisitKeeps(db: Db, v: Visit)
    requires Inv(db) && Exists(db.events, db.entries, v.subject) && !VisitTokenClashes(db, v.user, v.token)
    requires (v.user, v.subject) in db.statuses && db.statuses[(v.user, v.subject)].status.Visited?
    ensures Inv(VisitAdded(db, v))
  {
    var entry := Entry(v.user, VisitRecordCreated, EventOf(v.subject), Some(db.next), None, v.token);
    AppendingKeepsKeys(db.log, entry);
    TokensStayLogged(db.visits, db.items, db.log, db.log + [entry]);
    OtherEntryTells(db.events, db.statuses, db.log, entry);
    LinkedVisitsStay(db.events, db.visits, db.visits[db.next := v], db.items);
  }

  /** Items look at nothing in a visit record but its user and subject. */
  lemma LinkedVisitsStay(events: map<nat, Option<int>>, visits: map<nat, Visit>, later: map<nat, Visit>, items: map<nat, Item>)
    requires ItemsOk(events, visits, items)
    requires forall id | id in visits :: id in later && later[id].user == visits[id].user && later[id].subject == visits[id].subject
    ensures ItemsOk(events, later, items)
  {
  }

  lemma CompletionKeeps(db: Db, v: Visit)
    requires Inv(db)
    ensures Inv(CompleteVisitStep(db, v).0)
  {
    if Exists(db.events, db.entries, v.subject) {
      var synced := EnsureVisited(db, (v.user, v.subject));
      EnsuringKeeps(db, (v.user, v.subject));
      if !VisitTokenClashes(synced, v.user, v.token) {
        AddedVisitKeeps(synced, v);
      }
    }
  }

  lemma VisitUpdateKeeps(db: Db, id: nat, visitedOn: int, review: string)
    requires Inv(db)
    ensures Inv(UpdateVisitStep(db, id, visitedOn, review).0)
  {
    if id in db.visits {
      LinkedVisitsStay(db.events, db.visits, UpdateVisitStep(db, id, visitedOn, review).0.visits, db.items);
    }
  }

  // ---------------------------------------------------------------- items

  lemma AddedItemKeeps(db: Db, item: Item)
    requires Inv(db) && ItemOk(db.events, db.visits, item) && !ItemTokenClashes(db, item.user, item.token)
    ensures Inv(ItemAdded(db, item))
  {
    var entry := ItemEntry(item, db.next, CollectionItemCreated, item.token);
    AppendingKeepsKeys(db.log, entry);
    TokensStayLogged(db.visits, db.items, db.log, db.log + [entry]);
    OtherEntryTells(db.events, db.statuses, db.log, entry);
  }

  lemma ItemCreationKeeps(db: Db, item: Item)
    requires Inv(db)
    ensures Inv(CreateItemStep(db, item).0)
  {
    if RefersTo(db, item.visit, item.event) && ValidQuantities(item.quantity, item.tradeable)
       && (item.visit.Some? ==> db.visits[item.visit.value].user == item.user) && !ItemTokenClashes(db, item.user, item.token) {
      assert item.visit.Some? ==> Exists(db.events, db.entries, db.visits[item.visit.value].subject);
      AddedItemKeeps(db, if item.visit.Some? then item.(event := EventOf(db.visits[item.visit.value].subject)) else item);
    }
  }

  /** Setting the fields one by one is merging the patch into the row: what the patch does not give stays. */
  lemma {:induction false} SetFieldsMerges(item: Item, fields: seq<Field>)
    ensures var r := SetFields(item, fields);
            && r.quantity == QuantityIn(fields, item.quantity)
            && r.tradeable == TradeableIn(fields, item.tradeable)
            && r.visit == (if VisitIn(fields).Some? then VisitIn(fields).value else item.visit)
            && r.event == (if EventIn(fields).Some? then EventIn(fields).value else item.event)
            && r.user == item.user && r.token == item.token
  {
    if fields != [] {
      SetFieldsMerges(item, fields[..|fields| - 1]);
    }
  }

  lemma SyncedFields(visits: map<nat, Visit>, fields: seq<Field>)
    requires Given(VisitIn(fields)).Some? ==> Given(VisitIn(fields)).value in visits
    ensures var synced, visit := Synced(visits, fields), Given(VisitIn(fields));
            && VisitIn(synced) == VisitIn(fields)
            && EventIn(synced) == (if visit.Some? then Some(EventOf(visits[visit.value].subject)) else EventIn(fields))
            && (forall d :: QuantityIn(synced, d) == QuantityIn(fields, d))
            && (forall d :: TradeableIn(synced, d) == TradeableIn(fields, d))
  {
  }

  /** The row a patch leads to, once the checks on quantities and links have passed. */
  lemma PatchedItemIsOk(db: Db, item: Item, fields: seq<Field>)
    requires Inv(db) && ItemOk(db.events, db.visits, item) && RefersTo(db, Given(VisitIn(fields)), Given(EventIn(fields)))
    requires ValidQuantities(QuantityIn(fields, item.quantity), TradeableIn(fields, item.tradeable))
    requires !LinksRefused(db.visits, item, fields)
    ensures var r := SetFields(item, Synced(db.visits, fields));
            ItemOk(db.events, db.visits, r) && !Conflicts(db.visits, r) && r.user == item.user && r.token == item.token
  {
    var synced, visit := Synced(db.visits, fields), Given(VisitIn(fields));
    SyncedFields(db.visits, fields);
    SetFieldsMerges(item, synced);
    assert visit.Some? ==> Exists(db.events, db.entries, db.visits[visit.value].subject);
  }

  lemma ItemUpdateKeeps(db: Db, id: nat, fields: seq<Field>)
    requires Inv(db)
    ensures Inv(UpdateItemStep(db, id, fields).0)
  {
    if id in db.items && UpdateItemStep(db, id, fields).1 == Row(id) {
      var item, r := db.items[id], SetFields(db.items[id], Synced(db.visits, fields));
      PatchedItemIsOk(db, item, fields);
      var entry := ItemEntry(r, id, CollectionItemOrganized, None);
      AppendingKeepsKeys(db.log, entry);
      OtherEntryTells(db.events, db.statuses, db.log, entry);
      assert ItemTokensLogged(db.items[id := r], db.log);
      TokensStayLogged(db.visits, db.items[id := r], db.log, db.log + [entry]);
    }
  }

  // ---------------------------------------------------------------- deletions

  lemma TokensAfterDeletion(visits: map<nat, Visit>, items: map<nat, Item>, log: seq<Entry>,
                            laterVisits: map<nat, Visit>, laterItems: map<nat, Item>, later: seq<Entry>)
    requires VisitTokensUnique(visits) && ItemTokensUnique(items) && VisitTokensLogged(visits, log) && ItemTokensLogged(items, log)
    requires forall id | id in laterVisits :: id in visits && laterVisits[id] == visits[id]
    requires forall id | id in laterItems :: id in items && laterItems[id].user == items[id].user && laterItems[id].token == items[id].token
    requires KeepsKeys(log, later)
    ensures VisitTokensUnique(laterVisits) && ItemTokensUnique(laterItems)
    ensures VisitTokensLogged(laterVisits, later) && ItemTokensLogged(laterItems, later)
  {
  }

  lemma ItemsAfterVisitsGo(events: map<nat, Option<int>>, visits: map<nat, Visit>, items: map<nat, Item>, gone: set<nat>)
    requires ItemsOk(events, visits, items)
    ensures ItemsOk(events, visits - gone, WithoutVisits(items, gone))
  {
  }

  lemma ItemsAfterEventGoes(events: map<nat, Option<int>>, visits: map<nat, Visit>, items: map<nat, Item>, e: nat)
    requires ItemsOk(events, visits, items) && forall id | id in visits :: visits[id].subject != OfEvent(e)
    ensures ItemsOk(events - {e}, visits, WithoutEvent(items, e))
  {
  }

  lemma RowsAfterSubjectGoes(db: Db, subject: Subject, events: map<nat, Option<int>>, entries: map<nat, nat>)
    requires RowsInv(db)
    requires forall s: Subject | s != subject && Exists(db.events, db.entries, s) :: Exists(events, entries, s)
    ensures var statuses, visits := db.statuses - StatusesOf(db.statuses, subject), db.visits - VisitsOf(db.visits, subject);
            SubjectsExist(events, entries, statuses, visits) && Agreement(statuses, visits) && Below(visits, db.next)
  {
  }

  lemma VisitDeletionKeeps(db: Db, id: nat)
    requires Inv(db)
    ensures Inv(DeleteVisitStep(db, id).0)
  {
    if id in db.visits {
      var items, log := WithoutVisits(db.items, {id}), Unlinked(db.log, {}, {id}, {});
      UnlinkingKeepsKeys(db.log, {}, {id}, {});
      TokensAfterDeletion(db.visits, db.items, db.log, db.visits - {id}, items, log);
      ItemsAfterVisitsGo(db.events, db.visits, db.items, {id});
      UnlinkingTells(db.events, db.statuses, db.statuses, db.log, {}, {id}, {});
      assert db.events - {} == db.events;
    }
  }

  lemma ItemDeletionKeeps(db: Db, id: nat)
    requires Inv(db)
    ensures Inv(DeleteItemStep(db, id).0)
  {
    if id in db.items {
      UnlinkingKeepsKeys(db.log, {}, {}, {id});
      TokensAfterDeletion(db.visits, db.items, db.log, db.visits, db.items - {id}, Unlinked(db.log, {}, {}, {id}));
      UnlinkingTells(db.events, db.statuses, db.statuses, db.log, {}, {}, {id});
      assert db.events - {} == db.events;
    }
  }

  lemma ItemsOutliveTheEvent(db: Db, e: nat)
    requires Inv(db) && e in db.events
    ensures var r := DeleteEventStep(db, e).0; ItemsOk(r.events, r.visits, r.items) && Below(r.items, r.next)
  {
    var gone := VisitsOf(db.visits, OfEvent(e));
    ItemsAfterVisitsGo(db.events, db.visits, db.items, gone);
    ItemsAfterEventGoes(db.events, db.visits - gone, WithoutVisits(db.items, gone), e);
  }

  lemma TokensOutliveTheEvent(db: Db, e: nat)
    requires Inv(db) && e in db.events
    ensures TokenInv(DeleteEventStep(db, e).0)
  {
    var r := DeleteEventStep(db, e).0;
    UnlinkingKeepsKeys(db.log, {e}, VisitsOf(db.visits, OfEvent(e)), {});
    TokensAfterDeletion(db.visits, db.items, db.log, r.visits, r.items, r.log);
  }

  lemma EventDeletionKeeps(db: Db, e: nat)
    requires Inv(db)
    ensures Inv(DeleteEventStep(db, e).0)
  {
    if e in db.events {
      var r := DeleteEventStep(db, e).0;
      ItemsOutliveTheEvent(db, e);
      TokensOutliveTheEvent(db, e);
      RowsAfterSubjectGoes(db, OfEvent(e), db.events - {e}, db.entries);
      UnlinkingTells(db.events, db.statuses, r.statuses, db.log, {e}, VisitsOf(db.visits, OfEvent(e)), {});
    }
  }

  lemma EntryDeletionKeeps(db: Db, p: nat)
    requires Inv(db)
    ensures Inv(DeleteEntryStep(db, p).0)
  {
    if p in db.entries {
      var gone, r := VisitsOf(db.visits, OfEntry(p)), DeleteEntryStep(db, p).0;
      UnlinkingKeepsKeys(db.log, {}, gone, {});
      TokensAfterDeletion(db.visits, db.items, db.log, r.visits, r.items, r.log);
      ItemsAfterVisitsGo(db.events, db.visits, db.items, gone);
      RowsAfterSubjectGoes(db, OfEntry(p), db.events, db.entries - {p});
      UnlinkingTells(db.events, db.statuses, r.statuses, db.log, {}, gone, {});
      assert db.events - {} == db.events;
    }
  }

  lemma NewEventKeeps(db: Db, end: Option<int>)
    requires Inv(db)
    ensures Inv(db.(events := db.events[db.next := end], next := db.next + 1))
  {
    forall user: nat, e | e in db.events[db.next := end]
      ensures StatusFromLog(db.log, user, e) == StoredStatus(db.statuses, user, e)
    {
      if e == db.next {
        UnheardOfEvent(db.log, user, e);
      }
    }
  }
}
