/** What holds over every run of archive calls, one call after another. */
module ArchiveTheorems {
  import opened Options
  import opened ArchiveTables
  import opened ArchiveSafety

  lemma StatusCallsKeep(db: Db, key: StatusKey, status: Status)
    requires Inv(db)
    ensures Inv(CreateStatusStep(db, key, status).0) && Inv(MarkVisitedStep(db, key).0)
    ensures Inv(MarkMissedStep(db, key).0) && Inv(RevertToPlannedStep(db, key).0)
  {
    if Exists(db.events, db.entries, key.1) {
      var overridden := if key in db.statuses then db.statuses[key].overridden else false;
      TransitionKeeps(db, key, StatusRow(Visited, overridden));
      if status.Visited? || !HasVisitRecord(db.visits, key.0, key.1) {
        TransitionKeeps(db, key, StatusRow(status, false));
      }
      if !HasVisitRecord(db.visits, key.0, key.1) {
        TransitionKeeps(db, key, StatusRow(Missed, overridden));
        TransitionKeeps(db, key, StatusRow(Planned, true));
      }
    }
  }

  predicate Deletes(a: Action) {
    a.DeleteEvent? || a.DeleteEntry? || a.DeleteVisit? || a.DeleteItem?
  }

  predicate Moves(a: Action) {
    a.AddEvent? || a.MoveEvent? || a.AddEntry? || a.UpdateVisit?
  }

  predicate Transitions(a: Action) {
    a.CreateStatus? || a.MarkVisited? || a.MarkMissed? || a.RevertToPlanned?
  }

  lemma DeletionKeeps(db: Db, a: Action)
    requires Inv(db) && Deletes(a)
    ensures Inv(Step(db, a).0)
  {
    match a
    case DeleteEvent(e) => EventDeletionKeeps(db, e);
    case DeleteEntry(p) => EntryDeletionKeeps(db, p);
    case DeleteVisit(id) => VisitDeletionKeeps(db, id);
    case DeleteItem(id) => ItemDeletionKeeps(db, id);
  }

  lemma MoveKeeps(db: Db, a: Action)
    requires Inv(db) && Moves(a)
    ensures Inv(Step(db, a).0)
  {
    match a
    case AddEvent(end) => NewEventKeeps(db, end);
    case UpdateVisit(id, visitedOn, review) => VisitUpdateKeeps(db, id, visitedOn, review);
    case _ =>
  }

  lemma StepKeeps(db: Db, a: Action)
    requires Inv(db)
    ensures Inv(Step(db, a).0)
  {
    if Deletes(a) {
      DeletionKeeps(db, a);
    } else if Moves(a) {
      MoveKeeps(db, a);
    } else if Transitions(a) {
      StatusCallsKeep(db, a.key, if a.CreateStatus? then a.status else Visited);
    } else {
      match a
      case RemoveStatus(key) => RemovalKeeps(db, key);
      case CompleteVisit(v) => CompletionKeeps(db, v);
      case CreateItem(newItem) => ItemCreationKeeps(db, newItem);
      case UpdateItem(id, fields) => ItemUpdateKeeps(db, id, fields);
    }
  }

  /** A run: the state before each call, and the one after the last. */
  ghost predicate Run(states: seq<Db>, actions: seq<Action>) {
    && |states| == |actions| + 1
    && Inv(states[0])
    && forall i | 0 <= i < |actions| :: states[i + 1] == Step(states[i], actions[i]).0
  }

  lemma {:induction false} RunKeeps(states: seq<Db>, actions: seq<Action>, i: nat)
    requires Run(states, actions) && i < |states|
    ensures Inv(states[i])
  {
    if i > 0 {
      RunKeeps(states, actions, i - 1);
      StepKeeps(states[i - 1], actions[i - 1]);
    }
  }

  lemma EmptyArchiveIsSound()
    ensures Inv(Db(map[], map[], map[], map[], map[], [], 0))
  {
  }

  // ---------------------------------------------------------------- visits and statuses agree

  /** In a sound archive a visit record makes its status row read visited, whatever the date. */
  lemma RecordedVisitReadsVisited(db: Db, id: nat, today: int)
    requires Inv(db) && id in db.visits && (db.visits[id].user, db.visits[id].subject) in db.statuses
    ensures Derived(db, (db.visits[id].user, db.visits[id].subject), today) == Visited
  {
  }

  /** The derived status in full. The search for a visit record never decides it: where there is one the row is visited
      already. */
  lemma DerivedStatusInFull(db: Db, key: StatusKey, today: int)
    requires Inv(db) && key in db.statuses
    ensures Derived(db, key, today).Visited? <==> db.statuses[key].status.Visited?
    ensures Derived(db, key, today).Missed? <==>
              || db.statuses[key].status.Missed?
              || (db.statuses[key].status.Planned? && !db.statuses[key].overridden && EndedBefore(db.events, key.1, today))
  {
  }

  /** With no writes, the passing of time turns planned into missed and nothing else. */
  lemma TimeOnlyTurnsPlannedIntoMissed(db: Db, key: StatusKey, today: int, later: int)
    requires key in db.statuses && today <= later
    ensures Derived(db, key, today) == Derived(db, key, later) || (Derived(db, key, today).Planned? && Derived(db, key, later).Missed?)
    ensures db.statuses[key].overridden || key.1.OfEntry? ==> Derived(db, key, today) == Derived(db, key, later)
  {
  }

  // ---------------------------------------------------------------- once per token

  lemma EnsuringKeepsKeys(db: Db, key: StatusKey)
    ensures KeepsKeys(db.log, EnsureVisited(db, key).log)
  {
    var from := if key in db.statuses then Some(db.statuses[key].status) else None;
    AppendingKeepsKeys(db.log, StatusEntry(key, StatusChanged(from, Visited)));
  }

  lemma DeletionsKeepKeys(db: Db, id: nat)
    ensures KeepsKeys(db.log, DeleteEventStep(db, id).0.log) && KeepsKeys(db.log, DeleteEntryStep(db, id).0.log)
    ensures KeepsKeys(db.log, DeleteVisitStep(db, id).0.log) && KeepsKeys(db.log, DeleteItemStep(db, id).0.log)
  {
  }

  lemma CallsOnlyAppend(db: Db, a: Action)
    requires !Deletes(a)
    ensures db.log <= Step(db, a).0.log
  {
  }

  /** Operation keys stay in the log for good: calls append to it, and deletions only cut links. */
  lemma KeysNeverVanish(db: Db, a: Action)
    ensures KeepsKeys(db.log, Step(db, a).0.log)
  {
    match a
    case DeleteEvent(e) => DeletionsKeepKeys(db, e);
    case DeleteEntry(p) => DeletionsKeepKeys(db, p);
    case DeleteVisit(id) => DeletionsKeepKeys(db, id);
    case DeleteItem(id) => DeletionsKeepKeys(db, id);
    case _ =>
      CallsOnlyAppend(db, a);
      ExtensionKeepsKeys(db.log, Step(db, a).0.log);
  }

  lemma ExtensionKeepsKeys(log: seq<Entry>, later: seq<Entry>)
    requires log <= later
    ensures KeepsKeys(log, later)
  {
  }

  lemma CompletedVisitHadUnspentToken(db: Db, v: Visit)
    requires Below(db.visits, db.next)
    ensures var r := CompleteVisitStep(db, v).0;
            || r.visits == db.visits
            || (r.visits == db.visits[db.next := v] && (v.token.Some? ==> !KeyTaken(db.log, v.user, VisitRecordCreated, v.token.value)))
  {
    EnsuringKeepsKeys(db, (v.user, v.subject));
  }

  ghost predicate OldOrUnspentVisit(db: Db, visits: map<nat, Visit>, id: nat) {
    && id in visits
    && var v := visits[id];
       if id in db.visits then v.user == db.visits[id].user && v.token == db.visits[id].token
       else v.token.Some? ==> !KeyTaken(db.log, v.user, VisitRecordCreated, v.token.value)
  }

  ghost predicate OldOrUnspentItem(db: Db, items: map<nat, Item>, id: nat) {
    && id in items
    && var item := items[id];
       if id in db.items then item.user == db.items[id].user && item.token == db.items[id].token
       else item.token.Some? ==> !KeyTaken(db.log, item.user, CollectionItemCreated, item.token.value)
  }

  lemma NewVisitHasUnspentToken(db: Db, a: Action, id: nat)
    requires Below(db.visits, db.next) && id in Step(db, a).0.visits
    ensures OldOrUnspentVisit(db, Step(db, a).0.visits, id)
  {
    if a.CompleteVisit? {
      CompletedVisitHadUnspentToken(db, a.v);
    } else {
      assert id in db.visits;
    }
  }

  lemma NewItemHasUnspentToken(db: Db, a: Action, id: nat)
    requires Below(db.items, db.next) && id in Step(db, a).0.items
    ensures OldOrUnspentItem(db, Step(db, a).0.items, id)
  {
    if a.UpdateItem? {
      if a.id in db.items && UpdateItemStep(db, a.id, a.fields).1 == Row(a.id) {
        SetFieldsMerges(db.items[a.id], Synced(db.visits, a.fields));
      }
    } else if !a.CreateItem? {
      assert id in db.items;
    }
  }

  /** What a call does to tokens. */
  ghost predicate TokenStep(db: Db, later: Db) {
    && KeepsKeys(db.log, later.log)
    && (forall id | id in later.visits :: OldOrUnspentVisit(db, later.visits, id))
    && (forall id | id in later.items :: OldOrUnspentItem(db, later.items, id))
  }

  ghost predicate TokenRun(states: seq<Db>) {
    forall i | 0 <= i < |states| - 1 :: TokenStep(states[i], states[i + 1])
  }

  lemma CallsAreTokenSteps(db: Db, a: Action)
    requires Below(db.visits, db.next) && Below(db.items, db.next)
    ensures TokenStep(db, Step(db, a).0)
  {
    var later := Step(db, a).0;
    KeysNeverVanish(db, a);
    forall id | id in later.visits
      ensures OldOrUnspentVisit(db, later.visits, id)
    {
      NewVisitHasUnspentToken(db, a, id);
    }
    forall id | id in later.items
      ensures OldOrUnspentItem(db, later.items, id)
    {
      NewItemHasUnspentToken(db, a, id);
    }
  }

  lemma RunsAreTokenRuns(states: seq<Db>, actions: seq<Action>)
    requires Run(states, actions)
    ensures TokenRun(states)
  {
    forall i | 0 <= i < |states| - 1
      ensures TokenStep(states[i], states[i + 1])
    {
      RunKeeps(states, actions, i);
      CallsAreTokenSteps(states[i], actions[i]);
    }
  }

  lemma {:induction false} LogKeepsKey(states: seq<Db>, user: nat, kind: Kind, key: nat, i: nat, j: nat)
    requires TokenRun(states) && i <= j < |states| && KeyTaken(states[i].log, user, kind, key)
    ensures KeyTaken(states[j].log, user, kind, key)
    decreases j
  {
    if i < j {
      LogKeepsKey(states, user, kind, key, i, j - 1);
      assert TokenStep(states[j - 1], states[j - 1 + 1]);
    }
  }

  /** From the moment a token is in the log, only the record that holds it then can hold it later. */
  lemma {:induction false} SpentTokenNamesNoOther(states: seq<Db>, user: nat, token: nat, i: nat, j: nat, id: nat)
    requires TokenRun(states) && i <= j < |states| && KeyTaken(states[i].log, user, VisitRecordCreated, token)
    requires id in states[j].visits && states[j].visits[id].user == user && states[j].visits[id].token == Some(token)
    ensures id in states[i].visits && states[i].visits[id].user == user && states[i].visits[id].token == Some(token)
    decreases j
  {
    if i < j {
      LogKeepsKey(states, user, VisitRecordCreated, token, i, j - 1);
      assert TokenStep(states[j - 1], states[j - 1 + 1]);
      assert OldOrUnspentVisit(states[j - 1], states[j].visits, id);
      SpentTokenNamesNoOther(states, user, token, i, j - 1, id);
    }
  }

  lemma {:induction false} SpentTokenNamesNoOtherItem(states: seq<Db>, user: nat, token: nat, i: nat, j: nat, id: nat)
    requires TokenRun(states) && i <= j < |states| && KeyTaken(states[i].log, user, CollectionItemCreated, token)
    requires id in states[j].items && states[j].items[id].user == user && states[j].items[id].token == Some(token)
    ensures id in states[i].items && states[i].items[id].user == user && states[i].items[id].token == Some(token)
    decreases j
  {
    if i < j {
      LogKeepsKey(states, user, CollectionItemCreated, token, i, j - 1);
      assert TokenStep(states[j - 1], states[j - 1 + 1]);
      assert OldOrUnspentItem(states[j - 1], states[j].items, id);
      SpentTokenNamesNoOtherItem(states, user, token, i, j - 1, id);
    }
  }

  /** Once per token: two visit records that ever hold the same user's token, at any two moments of a run and whatever was
      deleted in between, are the same row. */
  lemma OneVisitRecordPerToken(states: seq<Db>, actions: seq<Action>, i: nat, j: nat, first: nat, second: nat)
    requires Run(states, actions) && i <= j < |states| && first in states[i].visits && second in states[j].visits
    requires states[i].visits[first].user == states[j].visits[second].user
    requires states[i].visits[first].token == states[j].visits[second].token != None
    ensures first == second
  {
    RunKeeps(states, actions, i);
    RunsAreTokenRuns(states, actions);
    SpentTokenNamesNoOther(states, states[i].visits[first].user, states[i].visits[first].token.value, i, j, second);
  }

  lemma OneItemPerToken(states: seq<Db>, actions: seq<Action>, i: nat, j: nat, first: nat, second: nat)
    requires Run(states, actions) && i <= j < |states| && first in states[i].items && second in states[j].items
    requires states[i].items[first].user == states[j].items[second].user
    requires states[i].items[first].token == states[j].items[second].token != None
    ensures first == second
  {
    RunKeeps(states, actions, i);
    RunsAreTokenRuns(states, actions);
    SpentTokenNamesNoOtherItem(states, states[i].items[first].user, states[i].items[first].token.value, i, j, second);
  }

  /** The record a completed visit names holds the request's user and token. */
  lemma CompletionNamesItsRecord(db: Db, v: Visit, id: nat)
    requires Inv(db) && CompleteVisitStep(db, v).1 == Row(id)
    ensures var r := CompleteVisitStep(db, v).0;
            id in r.visits && r.visits[id].user == v.user && (v.token.Some? ==> r.visits[id].token == v.token)
  {
    EnsuringKeeps(db, (v.user, v.subject));
  }

  /** What the client sees: all requests of a user with one token that succeed name the same record. */
  lemma EveryRetryNamesTheSameRecord(states: seq<Db>, actions: seq<Action>, i: nat, j: nat)
    requires Run(states, actions) && i <= j < |actions| && actions[i].CompleteVisit? && actions[j].CompleteVisit?
    requires actions[i].v.user == actions[j].v.user && actions[i].v.token == actions[j].v.token != None
    requires Step(states[i], actions[i]).1.Row? && Step(states[j], actions[j]).1.Row?
    ensures Step(states[i], actions[i]).1 == Step(states[j], actions[j]).1
  {
    RunKeeps(states, actions, i);
    RunKeeps(states, actions, j);
    CompletionNamesItsRecord(states[i], actions[i].v, Step(states[i], actions[i]).1.id);
    CompletionNamesItsRecord(states[j], actions[j].v, Step(states[j], actions[j]).1.id);
    OneVisitRecordPerToken(states, actions, i + 1, j + 1, Step(states[i], actions[i]).1.id, Step(states[j], actions[j]).1.id);
  }

  /** A request whose token a record still holds returns that record, whatever the request's subject is; it changes no
      table exactly when the status row of that subject is there and reads visited. Otherwise the subject is marked
      visited, also if it is another one than the record's. */
  lemma SpentTokenReturnsItsRecord(db: Db, v: Visit, id: nat)
    requires Inv(db) && id in db.visits && v.token.Some? && db.visits[id].token == v.token && db.visits[id].user == v.user
    requires Exists(db.events, db.entries, v.subject)
    ensures var (r, outcome) := CompleteVisitStep(db, v);
            var key := (v.user, v.subject);
            && outcome == Row(id) && r.visits == db.visits && r.items == db.items
            && key in r.statuses && r.statuses[key].status.Visited? && (forall other | other != key :: other in r.statuses <==> other in db.statuses)
            && (r == db <==> key in db.statuses && db.statuses[key].status.Visited?)
  {
    assert VisitTokenTaken(db.visits, v.user, v.token.value);
    var found := VisitWithToken(db.visits, v.user, v.token.value);
    assert db.visits[found].token == db.visits[id].token;
    var key := (v.user, v.subject);
    assert EnsureVisited(db, key) == db ==> key in db.statuses && db.statuses[key].status.Visited?;
  }

  /** So a replay of the request that made the record changes no table exactly when the status row is still there. A row
      that the user removed in between comes back as visited. */
  lemma ReplayedVisitChangesNothing(db: Db, v: Visit, id: nat)
    requires Inv(db) && id in db.visits && v.token.Some? && db.visits[id].token == v.token
    requires db.visits[id].user == v.user && db.visits[id].subject == v.subject
    ensures var (r, outcome) := CompleteVisitStep(db, v);
            && outcome == Row(id) && r.visits == db.visits && r.items == db.items
            && (r == db <==> (v.user, v.subject) in db.statuses)
            && r.statuses == if r == db then db.statuses else db.statuses[(v.user, v.subject) := StatusRow(Visited, false)]
  {
    assert Exists(db.events, db.entries, v.subject);
    SpentTokenReturnsItsRecord(db, v, id);
  }

  lemma ReplayedItemChangesNothing(db: Db, item: Item, id: nat)
    requires Inv(db) && id in db.items && item.token.Some? && db.items[id].token == item.token && db.items[id].user == item.user
    requires RefersTo(db, item.visit, item.event) && ValidQuantities(item.quantity, item.tradeable)
    requires item.visit.Some? ==> db.visits[item.visit.value].user == item.user
    ensures CreateItemStep(db, item) == (db, Row(id))
  {
  }

  /** A record that is gone, by its own deletion or with its event or personal entry, leaves its token in the log and in
      no record. */
  lemma LostTokenStaysFree(states: seq<Db>, actions: seq<Action>, i: nat, j: nat, id: nat)
    requires Run(states, actions) && i <= j < |states| && id in states[i].visits && id !in states[j].visits
    requires states[i].visits[id].token.Some?
    ensures var was := states[i].visits[id];
            && KeyTaken(states[j].log, was.user, VisitRecordCreated, was.token.value)
            && !VisitTokenTaken(states[j].visits, was.user, was.token.value)
  {
    var was := states[i].visits[id];
    RunKeeps(states, actions, i);
    RunsAreTokenRuns(states, actions);
    LogKeepsKey(states, was.user, VisitRecordCreated, was.token.value, i, j);
    if VisitTokenTaken(states[j].visits, was.user, was.token.value) {
      var other := VisitWithToken(states[j].visits, was.user, was.token.value);
      SpentTokenNamesNoOther(states, was.user, was.token.value, i, j, other);
      assert false;
    }
  }

  /** Once its record is gone a token is spent for good: every later request with it fails and changes no table, the
      status included. */
  lemma DeletedRecordIsNotRecreated(states: seq<Db>, actions: seq<Action>, i: nat, j: nat, id: nat, v: Visit)
    requires Run(states, actions) && i <= j < |states| && id in states[i].visits && id !in states[j].visits
    requires v.user == states[i].visits[id].user && v.token == states[i].visits[id].token != None
    ensures CompleteVisitStep(states[j], v) == (states[j], Fails(NotFound))
  {
    LostTokenStaysFree(states, actions, i, j, id);
    EnsuringKeepsKeys(states[j], (v.user, v.subject));
  }

  /** The same for collection items. A request that is not refused for its quantities or links fails on the token. */
  lemma DeletedItemIsNotRecreated(states: seq<Db>, actions: seq<Action>, i: nat, j: nat, id: nat, item: Item)
    requires Run(states, actions) && i <= j < |states| && id in states[i].items && id !in states[j].items
    requires item.user == states[i].items[id].user && item.token == states[i].items[id].token != None
    ensures var (r, outcome) := CreateItemStep(states[j], item); r == states[j] && outcome.Fails?
  {
    RunKeeps(states, actions, i);
    RunsAreTokenRuns(states, actions);
    LogKeepsKey(states, item.user, CollectionItemCreated, item.token.value, i, j);
    if ItemTokenTaken(states[j].items, item.user, item.token.value) {
      var other := ItemWithToken(states[j].items, item.user, item.token.value);
      SpentTokenNamesNoOtherItem(states, item.user, item.token.value, i, j, other);
      assert false;
    }
  }

  // ---------------------------------------------------------------- items

  /** A patch is accepted exactly when the merged quantities are sound and the links pass; the model's own check never
      fires after that. The row is then the old one with the given fields merged in, and a given visit record brings its
      event along. */
  lemma PatchInFull(db: Db, id: nat, fields: seq<Field>)
    requires Inv(db) && id in db.items && RefersTo(db, Given(VisitIn(fields)), Given(EventIn(fields)))
    ensures var item := db.items[id];
            var (r, outcome) := UpdateItemStep(db, id, fields);
            && (outcome == Row(id) <==>
                  && ValidQuantities(QuantityIn(fields, item.quantity), TradeableIn(fields, item.tradeable))
                  && !LinksRefused(db.visits, item, fields))
            && (outcome != Row(id) ==> r == db)
            && (outcome == Row(id) ==>
                  && r.items[id].quantity == QuantityIn(fields, item.quantity)
                  && r.items[id].tradeable == TradeableIn(fields, item.tradeable)
                  && r.items[id].visit == (if VisitIn(fields).Some? then VisitIn(fields).value else item.visit)
                  && (r.items[id].visit.Some? ==> r.items[id].event == EventOf(db.visits[r.items[id].visit.value].subject))
                  && (r.items[id].visit.None? ==> r.items[id].event == if EventIn(fields).Some? then EventIn(fields).value else item.event))
  {
    var item := db.items[id];
    if ValidQuantities(QuantityIn(fields, item.quantity), TradeableIn(fields, item.tradeable)) && !LinksRefused(db.visits, item, fields) {
      PatchedItemIsOk(db, item, fields);
      SetFieldsMerges(item, Synced(db.visits, fields));
      SyncedFields(db.visits, fields);
    }
  }

  /** Deleting an event leaves every item in place, and only the links into what is gone are cut. */
  lemma ItemsOutliveTheirEvent(db: Db, e: nat)
    requires Inv(db) && e in db.events
    ensures var r := DeleteEventStep(db, e).0;
            && r.items.Keys == db.items.Keys
            && (forall id | id in db.items ::
                  if db.items[id].event == Some(e) then r.items[id] == db.items[id].(event := None, visit := None)
                  else r.items[id] == db.items[id])
  {
  }

  // ---------------------------------------------------------------- one user's calls

  /** Whose rows a call is about; calls on events and personal entries are about nobody's alone. */
  function UserOf(db: Db, a: Action): Option<nat> {
    match a
    case CreateStatus(key, _) => Some(key.0)
    case MarkVisited(key) => Some(key.0)
    case MarkMissed(key) => Some(key.0)
    case RevertToPlanned(key) => Some(key.0)
    case RemoveStatus(key) => Some(key.0)
    case CompleteVisit(v) => Some(v.user)
    case UpdateVisit(id, _, _) => if id in db.visits then Some(db.visits[id].user) else None
    case DeleteVisit(id) => if id in db.visits then Some(db.visits[id].user) else None
    case CreateItem(newItem) => Some(newItem.user)
    case UpdateItem(id, _) => if id in db.items then Some(db.items[id].user) else None
    case DeleteItem(id) => if id in db.items then Some(db.items[id].user) else None
    case _ => None
  }

  ghost predicate OtherStatusesUntouched(statuses: map<StatusKey, StatusRow>, later: map<StatusKey, StatusRow>, user: nat) {
    forall key: StatusKey | key.0 != user ::
      (key in later <==> key in statuses) && (key in statuses ==> later[key] == statuses[key])
  }

  ghost predicate OtherVisitsUntouched(visits: map<nat, Visit>, later: map<nat, Visit>, user: nat) {
    && (forall id | id in visits && visits[id].user != user :: id in later && later[id] == visits[id])
    && (forall id | id in later && later[id].user != user :: id in visits)
  }

  ghost predicate OtherItemsUntouched(items: map<nat, Item>, later: map<nat, Item>, user: nat) {
    && (forall id | id in items && items[id].user != user :: id in later && later[id] == items[id])
    && (forall id | id in later && later[id].user != user :: id in items)
  }

  lemma ItemPatchStays(db: Db, id: nat, fields: seq<Field>)
    requires id in db.items
    ensures OtherItemsUntouched(db.items, UpdateItemStep(db, id, fields).0.items, db.items[id].user)
  {
    if RefersTo(db, Given(VisitIn(fields)), Given(EventIn(fields))) {
      SetFieldsMerges(db.items[id], Synced(db.visits, fields));
    }
  }

  lemma NewItemStays(db: Db, item: Item)
    requires Below(db.items, db.next)
    ensures OtherItemsUntouched(db.items, CreateItemStep(db, item).0.items, item.user)
  {
  }

  lemma VisitDeletionStays(db: Db, id: nat)
    requires id in db.visits && ItemsOk(db.events, db.visits, db.items)
    ensures OtherItemsUntouched(db.items, DeleteVisitStep(db, id).0.items, db.visits[id].user)
  {
  }

  lemma ItemCallsStay(db: Db, a: Action, user: nat)
    requires UserOf(db, a) == Some(user) && Below(db.items, db.next)
    requires a.DeleteVisit? ==> ItemsOk(db.events, db.visits, db.items)
    ensures OtherItemsUntouched(db.items, Step(db, a).0.items, user)
  {
    match a
    case UpdateItem(id, fields) => ItemPatchStays(db, id, fields);
    case CreateItem(newItem) => NewItemStays(db, newItem);
    case DeleteVisit(id) => VisitDeletionStays(db, id);
    case _ =>
  }

  lemma VisitCallsStay(db: Db, a: Action, user: nat)
    requires UserOf(db, a) == Some(user) && Below(db.visits, db.next)
    ensures OtherVisitsUntouched(db.visits, Step(db, a).0.visits, user)
  {
  }

  predicate WritesStatus(a: Action) {
    Transitions(a) || a.RemoveStatus? || a.CompleteVisit?
  }

  lemma StatusCallsStay(db: Db, a: Action, user: nat, key: StatusKey)
    requires UserOf(db, a) == Some(user) && WritesStatus(a) && key.0 != user
    ensures var later := Step(db, a).0.statuses;
            (key in later <==> key in db.statuses) && (key in db.statuses ==> later[key] == db.statuses[key])
  {
  }

  lemma OtherCallsWriteNoStatus(db: Db, a: Action, user: nat)
    requires UserOf(db, a) == Some(user) && !WritesStatus(a)
    ensures Step(db, a).0.statuses == db.statuses
  {
  }

  /** A call about one user's rows leaves the rows of all others alone, links included. */
  lemma CallsStayWithTheirUser(db: Db, a: Action, user: nat)
    requires Inv(db) && UserOf(db, a) == Some(user)
    ensures var r := Step(db, a).0;
            && OtherStatusesUntouched(db.statuses, r.statuses, user)
            && OtherVisitsUntouched(db.visits, r.visits, user)
            && OtherItemsUntouched(db.items, r.items, user)
  {
    if WritesStatus(a) {
      forall key: StatusKey | key.0 != user
        ensures var later := Step(db, a).0.statuses;
                (key in later <==> key in db.statuses) && (key in db.statuses ==> later[key] == db.statuses[key])
      {
        StatusCallsStay(db, a, user, key);
      }
    } else {
      OtherCallsWriteNoStatus(db, a, user);
    }
    VisitCallsStay(db, a, user);
    ItemCallsStay(db, a, user);
  }

  // ---------------------------------------------------------------- the log explains the statuses

  /** The activity log alone tells the status of every user at every existing event. */
  lemma LogExplainsStatuses(states: seq<Db>, actions: seq<Action>, i: nat, user: nat, e: nat)
    requires Run(states, actions) && i < |states| && e in states[i].events
    ensures StatusFromLog(states[i].log, user, e) == StoredStatus(states[i].statuses, user, e)
  {
    RunKeeps(states, actions, i);
  }
}
