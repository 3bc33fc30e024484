/** The archive's tables and what each service call does to them, every call as one transaction (archive/services.py,
    archive/models.py). */
module ArchiveTables {
  import opened Options

  datatype Status = Planned | Visited | Missed

  /** Exactly one subject per status row and per visit record. */
  datatype Subject = OfEvent(event: nat) | OfEntry(entry: nat)

  /** The pair is unique in the status table, so it serves as the table's key. */
  type StatusKey = (nat, Subject)

  datatype StatusRow = StatusRow(status: Status, overridden: bool)

  datatype Visit = Visit(user: nat, subject: Subject, visitedOn: int, review: string, token: Option<nat>)

  datatype Item = Item(user: nat, visit: Option<nat>, event: Option<nat>, quantity: int, tradeable: int,
                       wanted: bool, acquiredOn: Option<int>, token: Option<nat>)

  datatype Kind =
    | StatusChanged(from: Option<Status>, to: Status)
    | StatusRemoved
    | VisitRecordCreated
    | CollectionItemCreated
    | CollectionItemOrganized

  /** One row of the activity log; `key` is the operation key. */
  datatype Entry = Entry(user: nat, kind: Kind, event: Option<nat>, visit: Option<nat>, item: Option<nat>, key: Option<nat>)

  /** Events carry their end date, personal entries their owner. Row ids are never used twice: every id handed out is
      below `next`. */
  datatype Db = Db(events: map<nat, Option<int>>, entries: map<nat, nat>, statuses: map<StatusKey, StatusRow>,
                   visits: map<nat, Visit>, items: map<nat, Item>, log: seq<Entry>, next: nat)

  datatype Error = DuplicateStatus | VisitRecordExists | Invalid | NotFound

  datatype Outcome = Done | Row(id: nat) | Fails(error: Error)

  function EventOf(s: Subject): Option<nat> {
    if s.OfEvent? then Some(s.event) else None
  }

  predicate Exists(events: map<nat, Option<int>>, entries: map<nat, nat>, s: Subject) {
    if s.OfEvent? then s.event in events else s.entry in entries
  }

  // ---------------------------------------------------------------- statuses

  predicate HasVisitRecord(visits: map<nat, Visit>, user: nat, subject: Subject) {
    exists id | id in visits :: visits[id].user == user && visits[id].subject == subject
  }

  function StatusEntry(key: StatusKey, kind: Kind): Entry {
    Entry(key.0, kind, EventOf(key.1), None, None, None)
  }

  function CreateStatusStep(db: Db, key: StatusKey, status: Status): (Db, Outcome) {
    if !Exists(db.events, db.entries, key.1) then (db, Fails(NotFound))
    else if key in db.statuses then (db, Fails(DuplicateStatus))
    else if !status.Visited? && HasVisitRecord(db.visits, key.0, key.1) then (db, Fails(VisitRecordExists))
    else (Transitioned(db, key, StatusRow(status, false)), Done)
  }

  /** The row is written, and logged if its status is new. */
  function Transitioned(db: Db, key: StatusKey, row: StatusRow): Db {
    var from := if key in db.statuses then Some(db.statuses[key].status) else None;
    var log := if from == Some(row.status) then db.log else db.log + [StatusEntry(key, StatusChanged(from, row.status))];
    db.(statuses := db.statuses[key := row], log := log)
  }

  function MarkVisitedStep(db: Db, key: StatusKey): (Db, Outcome) {
    if key !in db.statuses then (db, Fails(NotFound))
    else (Transitioned(db, key, StatusRow(Visited, db.statuses[key].overridden)), Done)
  }

  function MarkMissedStep(db: Db, key: StatusKey): (Db, Outcome) {
    if key !in db.statuses then (db, Fails(NotFound))
    else if HasVisitRecord(db.visits, key.0, key.1) then (db, Fails(VisitRecordExists))
    else (Transitioned(db, key, StatusRow(Missed, db.statuses[key].overridden)), Done)
  }

  function RevertToPlannedStep(db: Db, key: StatusKey): (Db, Outcome) {
    if key !in db.statuses then (db, Fails(NotFound))
    else if HasVisitRecord(db.visits, key.0, key.1) then (db, Fails(VisitRecordExists))
    else (Transitioned(db, key, StatusRow(Planned, true)), Done)
  }

  function RemoveStatusStep(db: Db, key: StatusKey): (Db, Outcome) {
    if key !in db.statuses then (db, Fails(NotFound))
    else (db.(statuses := db.statuses - {key}, log := db.log + [StatusEntry(key, StatusRemoved)]), Done)
  }

  // ---------------------------------------------------------------- visits

  predicate KeyTaken(log: seq<Entry>, user: nat, kind: Kind, key: nat) {
    exists i | 0 <= i < |log| :: log[i].user == user && log[i].kind == kind && log[i].key == Some(key)
  }

  predicate VisitTokenTaken(visits: map<nat, Visit>, user: nat, token: nat) {
    exists id | id in visits :: visits[id].user == user && visits[id].token == Some(token)
  }

  predicate VisitTokensUnique(visits: map<nat, Visit>) {
    forall i, j | i in visits && j in visits && i != j ::
      visits[i].user == visits[j].user && visits[i].token == visits[j].token ==> visits[i].token.None?
  }

  ghost function VisitWithToken(visits: map<nat, Visit>, user: nat, token: nat): (id: nat)
    requires VisitTokenTaken(visits, user, token)
    ensures id in visits && visits[id].user == user && visits[id].token == Some(token)
  {
    var id :| id in visits && visits[id].user == user && visits[id].token == Some(token);
    id
  }

  /** `_ensure_visited_status`, with nobody interfering. */
  function EnsureVisited(db: Db, key: StatusKey): Db {
    if key !in db.statuses then Transitioned(db, key, StatusRow(Visited, false))
    else if db.statuses[key].status.Visited? then db
    else Transitioned(db, key, StatusRow(Visited, db.statuses[key].overridden))
  }

  function VisitAdded(db: Db, v: Visit): Db {
    db.(visits := db.visits[db.next := v],
        log := db.log + [Entry(v.user, VisitRecordCreated, EventOf(v.subject), Some(db.next), None, v.token)],
        next := db.next + 1)
  }

  /** The token meets a surviving record or a surviving log entry: the insert, or the log entry after it, is refused by a
      unique constraint. */
  predicate VisitTokenClashes(db: Db, user: nat, token: Option<nat>) {
    token.Some? && (VisitTokenTaken(db.visits, user, token.value) || KeyTaken(db.log, user, VisitRecordCreated, token.value))
  }

  /** `complete_visit_with_record`: the status first, then the record; when the token is spent but its record is gone the
      lookup fails and takes the whole transaction with it. */
  ghost function CompleteVisitStep(db: Db, v: Visit): (Db, Outcome) {
    if !Exists(db.events, db.entries, v.subject) then (db, Fails(NotFound))
    else
      var synced := EnsureVisited(db, (v.user, v.subject));
      if !VisitTokenClashes(synced, v.user, v.token) then (VisitAdded(synced, v), Row(db.next))
      else if VisitTokenTaken(db.visits, v.user, v.token.value) then (synced, Row(VisitWithToken(db.visits, v.user, v.token.value)))
      else (db, Fails(NotFound))
  }

  function UpdateVisitStep(db: Db, id: nat, visitedOn: int, review: string): (Db, Outcome) {
    if id !in db.visits then (db, Fails(NotFound))
    else (db.(visits := db.visits[id := db.visits[id].(visitedOn := visitedOn, review := review)]), Done)
  }

  // ---------------------------------------------------------------- items

  predicate ValidQuantities(quantity: int, tradeable: int) {
    quantity >= 0 && 0 <= tradeable <= quantity
  }

  predicate ItemTokenTaken(items: map<nat, Item>, user: nat, token: nat) {
    exists id | id in items :: items[id].user == user && items[id].token == Some(token)
  }

  predicate ItemTokensUnique(items: map<nat, Item>) {
    forall i, j | i in items && j in items && i != j ::
      items[i].user == items[j].user && items[i].token == items[j].token ==> items[i].token.None?
  }

  ghost function ItemWithToken(items: map<nat, Item>, user: nat, token: nat): (id: nat)
    requires ItemTokenTaken(items, user, token)
    ensures id in items && items[id].user == user && items[id].token == Some(token)
  {
    var id :| id in items && items[id].user == user && items[id].token == Some(token);
    id
  }

  predicate ItemTokenClashes(db: Db, user: nat, token: Option<nat>) {
    token.Some? && (ItemTokenTaken(db.items, user, token.value) || KeyTaken(db.log, user, CollectionItemCreated, token.value))
  }

  function ItemEntry(item: Item, id: nat, kind: Kind, key: Option<nat>): Entry {
    Entry(item.user, kind, None, None, Some(id), key)
  }

  function ItemAdded(db: Db, item: Item): Db {
    db.(items := db.items[db.next := item],
        log := db.log + [ItemEntry(item, db.next, CollectionItemCreated, item.token)],
        next := db.next + 1)
  }

  predicate RefersTo(db: Db, visit: Option<nat>, event: Option<nat>) {
    (visit.Some? ==> visit.value in db.visits) && (event.Some? ==> event.value in db.events)
  }

  /** `create_collection_item`: a visit record decides the event, whatever event came with it. */
  ghost function CreateItemStep(db: Db, item: Item): (Db, Outcome) {
    if !RefersTo(db, item.visit, item.event) then (db, Fails(NotFound))
    else if !ValidQuantities(item.quantity, item.tradeable) then (db, Fails(Invalid))
    else if item.visit.Some? && db.visits[item.visit.value].user != item.user then (db, Fails(Invalid))
    else
      var linked := if item.visit.Some? then item.(event := EventOf(db.visits[item.visit.value].subject)) else item;
      if !ItemTokenClashes(db, item.user, item.token) then (ItemAdded(db, linked), Row(db.next))
      else if ItemTokenTaken(db.items, item.user, item.token.value) then (db, Row(ItemWithToken(db.items, item.user, item.token.value)))
      else (db, Fails(NotFound))
  }

  /** One keyword argument of a patch. A later one for the same field replaces an earlier one, as in a dictionary. */
  datatype Field =
    | Quantity(n: int)
    | Tradeable(n: int)
    | Wanted(wanted: bool)
    | AcquiredOn(day: Option<int>)
    | VisitRecord(visit: Option<nat>)
    | EventLink(event: Option<nat>)

  function SetField(item: Item, f: Field): Item {
    match f
    case Quantity(n) => item.(quantity := n)
    case Tradeable(n) => item.(tradeable := n)
    case Wanted(wanted) => item.(wanted := wanted)
    case AcquiredOn(day) => item.(acquiredOn := day)
    case VisitRecord(visit) => item.(visit := visit)
    case EventLink(event) => item.(event := event)
  }

  function SetFields(item: Item, fields: seq<Field>): Item {
    if fields == [] then item else SetField(SetFields(item, fields[..|fields| - 1]), fields[|fields| - 1])
  }

  /** The dictionary lookups of the patch: quantity and tradeable quantity with the row's own as default, visit record and
      event only if given. */
  function QuantityIn(fields: seq<Field>, default: int): int {
    if fields == [] then default
    else if fields[|fields| - 1].Quantity? then fields[|fields| - 1].n
    else QuantityIn(fields[..|fields| - 1], default)
  }

  function TradeableIn(fields: seq<Field>, default: int): int {
    if fields == [] then default
    else if fields[|fields| - 1].Tradeable? then fields[|fields| - 1].n
    else TradeableIn(fields[..|fields| - 1], default)
  }

  function VisitIn(fields: seq<Field>): Option<Option<nat>> {
    if fields == [] then None
    else if fields[|fields| - 1].VisitRecord? then Some(fields[|fields| - 1].visit)
    else VisitIn(fields[..|fields| - 1])
  }

  function EventIn(fields: seq<Field>): Option<Option<nat>> {
    if fields == [] then None
    else if fields[|fields| - 1].EventLink? then Some(fields[|fields| - 1].event)
    else EventIn(fields[..|fields| - 1])
  }

  function Given(o: Option<Option<nat>>): Option<nat> {
    if o.Some? then o.value else None
  }

  /** The checks on the links before anything is set. */
  predicate LinksRefused(visits: map<nat, Visit>, item: Item, fields: seq<Field>)
    requires Given(VisitIn(fields)).Some? ==> Given(VisitIn(fields)).value in visits
  {
    if VisitIn(fields).Some? then
      VisitIn(fields).value.Some? && visits[VisitIn(fields).value.value].user != item.user
    else
      item.visit.Some? && EventIn(fields).Some? && item.visit.value in visits
      && EventIn(fields).value != EventOf(visits[item.visit.value].subject)
  }

  /** A new visit record brings its event along. */
  function Synced(visits: map<nat, Visit>, fields: seq<Field>): seq<Field>
    requires Given(VisitIn(fields)).Some? ==> Given(VisitIn(fields)).value in visits
  {
    var visit := Given(VisitIn(fields));
    if visit.Some? then fields + [EventLink(EventOf(visits[visit.value].subject))] else fields
  }

  /** The model's own check in `full_clean`. */
  predicate Conflicts(visits: map<nat, Visit>, item: Item) {
    item.visit.Some? && item.visit.value in visits && item.event.Some? && EventOf(visits[item.visit.value].subject) != item.event
  }

  predicate Reorganized(was: Item, now: Item) {
    was.quantity != now.quantity || was.wanted != now.wanted || was.tradeable != now.tradeable || was.acquiredOn != now.acquiredOn
  }

  function UpdateItemStep(db: Db, id: nat, fields: seq<Field>): (Db, Outcome) {
    if id !in db.items || !RefersTo(db, Given(VisitIn(fields)), Given(EventIn(fields))) then (db, Fails(NotFound))
    else
      var item := db.items[id];
      if !ValidQuantities(QuantityIn(fields, item.quantity), TradeableIn(fields, item.tradeable)) then (db, Fails(Invalid))
      else if LinksRefused(db.visits, item, fields) then (db, Fails(Invalid))
      else
        var changed := SetFields(item, Synced(db.visits, fields));
        if Conflicts(db.visits, changed) then (db, Fails(Invalid))
        else
          var log := if Reorganized(item, changed) then db.log + [ItemEntry(changed, id, CollectionItemOrganized, None)] else db.log;
          (db.(items := db.items[id := changed], log := log), Row(id))
  }

  // ---------------------------------------------------------------- deletions

  function WithoutVisits(items: map<nat, Item>, gone: set<nat>): map<nat, Item> {
    map id | id in items :: if items[id].visit.Some? && items[id].visit.value in gone then items[id].(visit := None) else items[id]
  }

  function WithoutEvent(items: map<nat, Item>, e: nat): map<nat, Item> {
    map id | id in items :: if items[id].event == Some(e) then items[id].(event := None) else items[id]
  }

  /** SET_NULL in the log: only the links go. */
  function Unlinked(log: seq<Entry>, events: set<nat>, visits: set<nat>, items: set<nat>): (r: seq<Entry>)
    ensures |r| == |log|
    ensures forall i | 0 <= i < |log| ::
              r[i] == log[i].(event := Kept(log[i].event, events), visit := Kept(log[i].visit, visits), item := Kept(log[i].item, items))
  {
    seq(|log|, i requires 0 <= i < |log| =>
      log[i].(event := Kept(log[i].event, events), visit := Kept(log[i].visit, visits), item := Kept(log[i].item, items)))
  }

  function Kept(link: Option<nat>, gone: set<nat>): Option<nat> {
    if link.Some? && link.value in gone then None else link
  }

  function VisitsOf(visits: map<nat, Visit>, subject: Subject): set<nat> {
    set id | id in visits && visits[id].subject == subject
  }

  function StatusesOf(statuses: map<StatusKey, StatusRow>, subject: Subject): set<StatusKey> {
    set key | key in statuses && key.1 == subject
  }

  function DeleteVisitStep(db: Db, id: nat): (Db, Outcome) {
    if id !in db.visits then (db, Fails(NotFound))
    else (db.(visits := db.visits - {id}, items := WithoutVisits(db.items, {id}), log := Unlinked(db.log, {}, {id}, {})), Done)
  }

  function DeleteItemStep(db: Db, id: nat): (Db, Outcome) {
    if id !in db.items then (db, Fails(NotFound))
    else (db.(items := db.items - {id}, log := Unlinked(db.log, {}, {}, {id})), Done)
  }

  function DeleteEventStep(db: Db, e: nat): (Db, Outcome) {
    if e !in db.events then (db, Fails(NotFound))
    else
      var gone := VisitsOf(db.visits, OfEvent(e));
      (db.(events := db.events - {e},
           statuses := db.statuses - StatusesOf(db.statuses, OfEvent(e)),
           visits := db.visits - gone,
           items := WithoutEvent(WithoutVisits(db.items, gone), e),
           log := Unlinked(db.log, {e}, gone, {})), Done)
  }

  function DeleteEntryStep(db: Db, p: nat): (Db, Outcome) {
    if p !in db.entries then (db, Fails(NotFound))
    else
      var gone := VisitsOf(db.visits, OfEntry(p));
      (db.(entries := db.entries - {p},
           statuses := db.statuses - StatusesOf(db.statuses, OfEntry(p)),
           visits := db.visits - gone,
           items := WithoutVisits(db.items, gone),
           log := Unlinked(db.log, {}, gone, {})), Done)
  }

  // ---------------------------------------------------------------- the derived status

  /** `with_derived_status`. The visit test compares the row's event, so for a personal entry it finds nothing; such a row
      has no end date either. */
  function Derived(db: Db, key: StatusKey, today: int): Status
    requires key in db.statuses
  {
    var row := db.statuses[key];
    if row.status.Planned? && !row.overridden && EndedBefore(db.events, key.1, today)
       && !(key.1.OfEvent? && HasVisitRecord(db.visits, key.0, key.1)) then Missed
    else row.status
  }

  predicate EndedBefore(events: map<nat, Option<int>>, subject: Subject, today: int) {
    subject.OfEvent? && subject.event in events && events[subject.event].Some? && events[subject.event].value < today
  }
}
