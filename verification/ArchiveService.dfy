/** The archive's services as methods over the stored tables (archive/services.py). */
module ArchiveService {
  import opened Options
  import opened ArchiveTables

  class Archive {
    var events: map<nat, Option<int>>
    var entries: map<nat, nat>
    var statuses: map<StatusKey, StatusRow>
    var visits: map<nat, Visit>
    var items: map<nat, Item>
    var log: seq<Entry>
    var next: nat

    function Tables(): Db
      reads this
    {
      Db(events, entries, statuses, visits, items, log, next)
    }

    constructor ()
      ensures Tables() == Db(map[], map[], map[], map[], map[], [], 0)
    {
      events, entries, statuses, visits, items, log, next := map[], map[], map[], map[], map[], [], 0;
    }

    /** `_record_activity`; refused when the user, kind and operation key are taken. */
    method RecordActivity(entry: Entry) returns (ok: bool)
      modifies this`log
      ensures ok == !(entry.key.Some? && KeyTaken(old(log), entry.user, entry.kind, entry.key.value))
      ensures log == if ok then old(log) + [entry] else old(log)
    {
      ok := !(entry.key.Some? && KeyTaken(log, entry.user, entry.kind, entry.key.value));
      if ok {
        log := log + [entry];
      }
    }

    method CreateUserEventStatus(key: StatusKey, status: Status) returns (r: Outcome)
      modifies this
      ensures (Tables(), r) == CreateStatusStep(old(Tables()), key, status)
    {
      if !Exists(events, entries, key.1) {
        return Fails(NotFound);
      }
      if key in statuses {
        return Fails(DuplicateStatus);
      }
      if (status.Planned? || status.Missed?) && HasVisitRecord(visits, key.0, key.1) {
        return Fails(VisitRecordExists);
      }
      statuses := statuses[key := StatusRow(status, false)];
      var _ := RecordActivity(StatusEntry(key, StatusChanged(None, status)));
      return Done;
    }

    /** What the three transitions share: write the row, log a change. */
    method Save(key: StatusKey, row: StatusRow)
      requires key in statuses
      modifies this`statuses, this`log
      ensures Tables() == Transitioned(old(Tables()), key, row)
    {
      var previous := statuses[key].status;
      statuses := statuses[key := row];
      if previous != row.status {
        var _ := RecordActivity(StatusEntry(key, StatusChanged(Some(previous), row.status)));
      }
    }

    method MarkVisited(key: StatusKey) returns (r: Outcome)
      modifies this
      ensures (Tables(), r) == MarkVisitedStep(old(Tables()), key)
    {
      if key !in statuses {
        return Fails(NotFound);
      }
      Save(key, statuses[key].(status := Visited));
      return Done;
    }

    method MarkMissed(key: StatusKey) returns (r: Outcome)
      modifies this
      ensures (Tables(), r) == MarkMissedStep(old(Tables()), key)
    {
      if key !in statuses {
        return Fails(NotFound);
      }
      if HasVisitRecord(visits, key.0, key.1) {
        return Fails(VisitRecordExists);
      }
      Save(key, statuses[key].(status := Missed));
      return Done;
    }

    method RevertToPlanned(key: StatusKey) returns (r: Outcome)
      modifies this
      ensures (Tables(), r) == RevertToPlannedStep(old(Tables()), key)
    {
      if key !in statuses {
        return Fails(NotFound);
      }
      if HasVisitRecord(visits, key.0, key.1) {
        return Fails(VisitRecordExists);
      }
      Save(key, statuses[key].(status := Planned, overridden := true));
      return Done;
    }

    method RemoveUserEventStatus(key: StatusKey) returns (r: Outcome)
      modifies this
      ensures (Tables(), r) == RemoveStatusStep(old(Tables()), key)
    {
      if key !in statuses {
        return Fails(NotFound);
      }
      statuses := statuses - {key};
      var _ := RecordActivity(StatusEntry(key, StatusRemoved));
      return Done;
    }

    method EnsureVisitedStatus(key: StatusKey)
      requires Exists(events, entries, key.1)
      modifies this
      ensures Tables() == EnsureVisited(old(Tables()), key)
    {
      if key !in statuses {
        var _ := CreateUserEventStatus(key, Visited);
      } else if !statuses[key].status.Visited? {
        var _ := MarkVisited(key);
      }
    }

    /** The insert and its log entry stand or fall together; on a clash the row that holds the token is looked up. */
    method CreateVisitRecord(v: Visit) returns (r: Outcome)
      requires VisitTokensUnique(visits)
      modifies this`visits, this`log, this`next
      ensures !VisitTokenClashes(old(Tables()), v.user, v.token) ==>
                Tables() == VisitAdded(old(Tables()), v) && r == Row(old(next))
      ensures VisitTokenClashes(old(Tables()), v.user, v.token) ==>
                && Tables() == old(Tables())
                && r == if VisitTokenTaken(visits, v.user, v.token.value) then Row(VisitWithToken(visits, v.user, v.token.value))
                        else Fails(NotFound)
    {
      var clash := v.token.Some? && VisitTokenTaken(visits, v.user, v.token.value);
      if !clash {
        var ok := RecordActivity(Entry(v.user, VisitRecordCreated, EventOf(v.subject), Some(next), None, v.token));
        if ok {
          visits, next := visits[next := v], next + 1;
          return Row(next - 1);
        }
      }
      if VisitTokenTaken(visits, v.user, v.token.value) {
        var id: nat :| id in visits && visits[id].user == v.user && visits[id].token == v.token;
        return Row(id);
      }
      return Fails(NotFound);
    }

    method CompleteVisitWithRecord(v: Visit) returns (r: Outcome)
      requires VisitTokensUnique(visits)
      modifies this
      ensures (Tables(), r) == CompleteVisitStep(old(Tables()), v)
    {
      if !Exists(events, entries, v.subject) {
        return Fails(NotFound);
      }
      var before, logBefore := statuses, log;
      EnsureVisitedStatus((v.user, v.subject));
      r := CreateVisitRecord(v);
      if r.Fails? {
        statuses, log := before, logBefore;
      }
    }

    method UpdateVisitRecord(id: nat, visitedOn: int, review: string) returns (r: Outcome)
      modifies this`visits
      ensures (Tables(), r) == UpdateVisitStep(old(Tables()), id, visitedOn, review)
    {
      if id !in visits {
        return Fails(NotFound);
      }
      visits := visits[id := visits[id].(visitedOn := visitedOn, review := review)];
      return Done;
    }

    method CreateCollectionItem(item: Item) returns (r: Outcome)
      requires ItemTokensUnique(items)
      modifies this`items, this`log, this`next
      ensures (Tables(), r) == CreateItemStep(old(Tables()), item)
    {
      if !RefersTo(Tables(), item.visit, item.event) {
        return Fails(NotFound);
      }
      if !ValidQuantities(item.quantity, item.tradeable) {
        return Fails(Invalid);
      }
      var linked := item;
      if item.visit.Some? {
        if visits[item.visit.value].user != item.user {
          return Fails(Invalid);
        }
        linked := item.(event := EventOf(visits[item.visit.value].subject));
      }
      var clash := item.token.Some? && ItemTokenTaken(items, item.user, item.token.value);
      if !clash {
        var ok := RecordActivity(ItemEntry(linked, next, CollectionItemCreated, item.token));
        if ok {
          items, next := items[next := linked], next + 1;
          return Row(next - 1);
        }
      }
      if ItemTokenTaken(items, item.user, item.token.value) {
        var id: nat :| id in items && items[id].user == item.user && items[id].token == item.token;
        return Row(id);
      }
      return Fails(NotFound);
    }

    method UpdateCollectionItem(id: nat, fields: seq<Field>) returns (r: Outcome)
      modifies this`items, this`log
      ensures (Tables(), r) == UpdateItemStep(old(Tables()), id, fields)
    {
      if id !in items || !RefersTo(Tables(), Given(VisitIn(fields)), Given(EventIn(fields))) {
        return Fails(NotFound);
      }
      var previous := items[id];
      if !ValidQuantities(QuantityIn(fields, previous.quantity), TradeableIn(fields, previous.tradeable)) {
        return Fails(Invalid);
      }
      var toSet := fields;
      var visit := VisitIn(fields);
      if visit.Some? {
        if visit.value.Some? {
          if visits[visit.value.value].user != previous.user {
            return Fails(Invalid);
          }
          toSet := fields + [EventLink(EventOf(visits[visit.value.value].subject))];
        }
      } else if previous.visit.Some? && EventIn(fields).Some? && previous.visit.value in visits {
        if EventIn(fields).value != EventOf(visits[previous.visit.value].subject) {
          return Fails(Invalid);
        }
      }
      var item := previous;
      for i := 0 to |toSet|
        invariant item == SetFields(previous, toSet[..i])
      {
        item := SetField(item, toSet[i]);
        assert toSet[..i + 1][..i] == toSet[..i];
      }
      assert toSet[..|toSet|] == toSet;
      if Conflicts(visits, item) {
        return Fails(Invalid);
      }
      items := items[id := item];
      if Reorganized(previous, item) {
        var _ := RecordActivity(ItemEntry(item, id, CollectionItemOrganized, None));
      }
      return Row(id);
    }
  }
}
