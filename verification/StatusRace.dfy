/** `_ensure_visited_status` statement by statement, with other transactions free to insert, change or delete the status
    row of the same user and subject in between (archive/services.py). */
module StatusRace {
  import opened Options
  import opened ArchiveTables

  /** What this transaction will leave behind if it commits. */
  datatype Pending = Nothing | Inserts(id: nat) | Marks(id: nat)

  /** Where the transaction stands. `second` is set after the one retry. */
  datatype Pc =
    | Reading(second: bool)
    | Checking(second: bool)
    | Inserting(second: bool)
    | Marking
    | Recording
    | Committed
    | Aborted(lostTwice: bool)

  /** `rows` are the committed rows of the user and subject; `locked` is the row this transaction has locked. `attempts`,
      `inserts` and `deletes` count its creation attempts and the other transactions' insertions and deletions. */
  datatype World = World(rows: map<nat, Status>, next: nat, pc: Pc, locked: Option<nat>, pending: Pending,
                         attempts: nat, inserts: nat, deletes: nat)

  datatype Action =
    | Own(recordFails: bool)
    | OtherInserts(status: Status)
    | OtherChanges(id: nat, status: Status)
    | OtherDeletes(id: nat)

  function Start(rows: map<nat, Status>, next: nat): World {
    World(rows, next, Reading(false), None, Nothing, 0, 0, 0)
  }

  /** `first()`: there is never more than one. */
  ghost function First(rows: map<nat, Status>): (id: nat)
    requires rows != map[]
    ensures id in rows
  {
    assert rows.Keys != {};
    var id :| id in rows.Keys;
    id
  }

  /** The next statement of the transaction. */
  ghost function OwnStep(w: World, recordFails: bool): World {
    match w.pc
    case Reading(second) =>
      if w.rows == map[] then w.(pc := Checking(second))
      else
        var id := First(w.rows);
        w.(locked := Some(id), pc := if w.rows[id].Visited? then Recording else Marking)
    case Checking(second) =>
      if w.rows != map[] then w.(attempts := w.attempts + 1, pc := if second then Aborted(true) else Reading(true))
      else w.(attempts := w.attempts + 1, pc := Inserting(second))
    case Inserting(second) =>
      if w.rows != map[] then w.(pc := if second then Aborted(true) else Reading(true))
      else w.(pending := Inserts(w.next), next := w.next + 1, pc := Recording)
    case Marking => if w.locked.Some? then w.(pending := Marks(w.locked.value), pc := Recording) else w
    case Recording =>
      if recordFails then w.(pc := Aborted(false), locked := None, pending := Nothing)
      else w.(rows := Written(w.rows, w.pending), pc := Committed, locked := None, pending := Nothing)
    case Committed => w
    case Aborted(_) => w
  }

  function Written(rows: map<nat, Status>, pending: Pending): map<nat, Status> {
    match pending
    case Nothing => rows
    case Inserts(id) => rows[id := Visited]
    case Marks(id) => rows[id := Visited]
  }

  /** Others are held up by the row lock and, once this transaction has inserted, by the unique constraint; the constraint
      also stops them from inserting beside a committed row. A step that must wait does nothing. */
  ghost function Next(w: World, a: Action): World {
    match a
    case Own(recordFails) => OwnStep(w, recordFails)
    case OtherInserts(status) =>
      if w.rows != map[] || w.pending.Inserts? then w
      else w.(rows := w.rows[w.next := status], next := w.next + 1, inserts := w.inserts + 1)
    case OtherChanges(id, status) => if id in w.rows && w.locked != Some(id) then w.(rows := w.rows[id := status]) else w
    case OtherDeletes(id) => if id in w.rows && w.locked != Some(id) then w.(rows := w.rows - {id}, deletes := w.deletes + 1) else w
  }

  ghost function After(w: World, actions: seq<Action>): World {
    if actions == [] then w else Next(After(w, actions[..|actions| - 1]), actions[|actions| - 1])
  }

  // ---------------------------------------------------------------- the invariant

  predicate AtMostOne(rows: map<nat, Status>) {
    forall i, j | i in rows && j in rows :: i == j
  }

  /** What is known at each statement, over whatever others have done so far. */
  predicate Knows(w: World) {
    match w.pc
    case Reading(second) => w.locked.None? && w.pending.Nothing?
    case Checking(second) => w.locked.None? && w.pending.Nothing?
    case Inserting(second) => w.locked.None? && w.pending.Nothing?
    case Marking => w.locked.Some? && w.locked.value in w.rows && w.pending.Nothing?
    case Recording =>
      (match w.pending
       case Nothing => w.locked.Some? && w.locked.value in w.rows && w.rows[w.locked.value].Visited?
       case Inserts(id) => w.rows == map[] && id < w.next
       case Marks(id) => w.locked == Some(id) && id in w.rows)
    case Committed => w.locked.None? && w.pending.Nothing?
    case Aborted(_) => w.locked.None? && w.pending.Nothing?
  }

  /** The creation attempts so far, and what others must have done for a statement to be reached: a creation loses only to
      an insertion after an empty read, and the second read is empty only after a deletion. */
  predicate Counts(w: World) {
    match w.pc
    case Reading(second) =>
      if second then w.attempts == 1 && w.inserts >= 1 && (w.rows == map[] ==> w.deletes >= 1) else w.attempts == 0
    case Checking(second) =>
      if second then w.attempts == 1 && w.deletes >= 1 && w.inserts >= (if w.rows == map[] then 1 else 2)
      else w.attempts == 0 && (w.rows != map[] ==> w.inserts >= 1)
    case Inserting(second) =>
      if second then w.attempts == 2 && w.deletes >= 1 && w.inserts >= (if w.rows == map[] then 1 else 2)
      else w.attempts == 1 && (w.rows != map[] ==> w.inserts >= 1)
    case Aborted(lostTwice) => w.attempts <= 2 && (lostTwice ==> w.inserts >= 2 && w.deletes >= 1)
    case _ => w.attempts <= 2
  }

  predicate Sound(w: World) {
    AtMostOne(w.rows) && (forall id | id in w.rows :: id < w.next) && Knows(w) && Counts(w)
  }

  lemma StepKeeps(w: World, a: Action)
    requires Sound(w)
    ensures Sound(Next(w, a))
  {
  }

  lemma {:induction false} RunKeeps(w: World, actions: seq<Action>)
    requires Sound(w)
    ensures Sound(After(w, actions))
  {
    if actions != [] {
      RunKeeps(w, actions[..|actions| - 1]);
      StepKeeps(After(w, actions[..|actions| - 1]), actions[|actions| - 1]);
    }
  }

  // ---------------------------------------------------------------- theorems

  /** Whatever others do in between: at most two creation attempts; the moment the transaction commits there is exactly one
      row and it says visited; no statement before the commit, nor an exception, changes a committed row; and the creation
      fails for good only if others inserted twice and deleted once while it was under way. */
  lemma EnsureVisitedSurvivesTheRace(rows: map<nat, Status>, next: nat, actions: seq<Action>, recordFails: bool)
    requires AtMostOne(rows) && forall id | id in rows :: id < next
    ensures var w := After(Start(rows, next), actions);
            var r := Next(w, Own(recordFails));
            && r.attempts <= 2
            && (r.pc.Committed? && !w.pc.Committed? ==> |r.rows| == 1 && forall id | id in r.rows :: r.rows[id] == Visited)
            && (!r.pc.Committed? ==> r.rows == w.rows)
            && (r.pc == Aborted(true) ==> r.inserts >= 2 && r.deletes >= 1)
  {
    RunKeeps(Start(rows, next), actions);
    var w := After(Start(rows, next), actions);
    var r := Next(w, Own(recordFails));
    StepKeeps(w, Own(recordFails));
    if r.pc.Committed? && !w.pc.Committed? {
      CommitLeavesOneVisited(w);
    }
  }

  lemma CommitLeavesOneVisited(w: World)
    requires Sound(w) && w.pc.Recording?
    ensures var rows := Written(w.rows, w.pending); |rows| == 1 && forall id | id in rows :: rows[id] == Visited
  {
    var rows := Written(w.rows, w.pending);
    var id := if w.pending.Nothing? then w.locked.value else w.pending.id;
    assert rows.Keys == {id};
    assert |rows| == |rows.Keys|;
  }

  /** Left alone, the statements amount to the one step the archive's services are modelled with. */
  lemma UndisturbedRunIsOneStep(db: Db, key: StatusKey, id: nat, next: nat)
    ensures var rows := if key in db.statuses then map[id := db.statuses[key].status] else map[];
            var w := After(Start(rows, next), [Own(false), Own(false), Own(false), Own(false)]);
            && w.pc.Committed?
            && w.rows == map[(if key in db.statuses then id else next) := EnsureVisited(db, key).statuses[key].status]
  {
    var rows := if key in db.statuses then map[id := db.statuses[key].status] else map[];
    var own, w := Own(false), Start(rows, next);
    FourSteps(w, own);
    if key in db.statuses {
      assert id in rows && First(rows) == id;
      assert rows[id := Visited] == map[id := Visited];
    } else {
      var inserted := Next(Next(Next(w, own), own), own);
      assert inserted.pending == Inserts(next) && inserted.rows == map[];
      assert Next(inserted, own).rows == map[next := Visited];
    }
  }

  lemma FourSteps(w: World, a: Action)
    ensures After(w, [a, a, a, a]) == Next(Next(Next(Next(w, a), a), a), a)
  {
    assert [a, a, a, a][..3] == [a, a, a] && [a, a, a][..2] == [a, a] && [a, a][..1] == [a];
    assert After(w, [a]) == Next(After(w, [a][..0]), a);
    assert After(w, [a, a]) == Next(After(w, [a]), a);
    assert After(w, [a, a, a]) == Next(After(w, [a, a]), a);
  }
}
