/** The bounded table of error groups (core/error_groups.py) refines a recency list: per source it holds exactly the k
    most recently recorded distinct fingerprints, for some k up to 250. */
module ErrorGroups {
  import opened Options
  import opened ErrorKeys

  const SOURCE_GROUP_LIMIT := 250
  const SECONDS_PER_DAY := 86400

  /** A fingerprint, standing for the hashed text; its source is readable from that text (ErrorKeys.KeyIsInjective). */
  datatype Key = Key(source: Source, errorType: string, location: string)

  datatype Group = Group(id: nat, source: Source, count: nat, firstSeen: int, lastSeen: int, sample: string)

  type Rows = map<Key, Group>

  /** Calls, with the time at which each was made. */
  datatype Call = Record(key: Key, sample: string, now: int) | Prune(days: int, now: int)

  /** The key under which `record_error` files an error. */
  function StoredKey(source: Source, errorType: string, location: string): Key {
    var e, l := Normalize(errorType, ERROR_TYPE_LIMIT), Normalize(location, LOCATION_LIMIT);
    Key(source, Normalize(e, ERROR_TYPE_LIMIT), Normalize(l, LOCATION_LIMIT))
  }

  /** Keys and fingerprints group errors in the same way. */
  lemma KeysStandForFingerprints(s1: Source, e1: string, l1: string, s2: Source, e2: string, l2: string)
    ensures StoredKey(s1, e1, l1) == StoredKey(s2, e2, l2) <==> StoredFingerprint(s1, e1, l1) == StoredFingerprint(s2, e2, l2)
  {
    NormalizeTwice(Normalize(e1, ERROR_TYPE_LIMIT), ERROR_TYPE_LIMIT);
    NormalizeTwice(Normalize(e2, ERROR_TYPE_LIMIT), ERROR_TYPE_LIMIT);
    var k1, k2 := StoredKey(s1, e1, l1), StoredKey(s2, e2, l2);
    KeyIsInjective(s1, k1.errorType, k1.location, s2, k2.errorType, k2.location);
  }

  // ---------------------------------------------------------------- what one call does

  function KeysOf(rows: Rows, source: Source): set<Key> {
    set k | k in rows && rows[k].source == source
  }

  /** `order_by("last_seen", "id")`. */
  predicate Before(a: Group, b: Group) {
    a.lastSeen < b.lastSeen || (a.lastSeen == b.lastSeen && a.id < b.id)
  }

  /** `after` lacks only groups of the source, each older than every group of the source that is left. */
  ghost predicate EvictsOldest(rows: Rows, source: Source, after: Rows) {
    && after.Keys <= rows.Keys
    && (forall k | k in after :: after[k] == rows[k])
    && (forall k | k in rows && rows[k].source != source :: k in after)
    && (forall gone, kept | gone in rows && gone !in after && kept in after && after[kept].source == source ::
          Before(rows[gone], after[kept]))
  }

  /** `after` is `rows` cut back to the limit of the source by evicting its oldest groups. */
  ghost predicate Trimmed(rows: Rows, source: Source, after: Rows) {
    && EvictsOldest(rows, source, after)
    && var count := |KeysOf(rows, source)|;
       |KeysOf(after, source)| == if count <= SOURCE_GROUP_LIMIT then count else SOURCE_GROUP_LIMIT
  }

  function NewGroup(id: nat, key: Key, sample: string, now: int): Group {
    Group(id, key.source, 1, now, now, sample)
  }

  function Bumped(g: Group, sample: string, now: int): Group {
    g.(count := g.count + 1, lastSeen := now, sample := sample)
  }

  ghost predicate Step(rows: Rows, call: Call, after: Rows) {
    match call
    case Record(key, sample, now) =>
      if key in rows then after == rows[key := Bumped(rows[key], sample, now)]
      else exists id: nat ::
        && (forall k | k in rows :: rows[k].id < id)
        && Trimmed(rows[key := NewGroup(id, key, sample, now)], key.source, after)
    case Prune(days, now) =>
      after == map k | k in rows && rows[k].lastSeen >= now - days * SECONDS_PER_DAY :: rows[k]
  }

  lemma EvictOneMore(rows: Rows, source: Source, sofar: Rows, oldest: Key)
    requires EvictsOldest(rows, source, sofar) && oldest in KeysOf(sofar, source)
    requires forall k | k in KeysOf(sofar, source) && k != oldest :: Before(sofar[oldest], sofar[k])
    ensures EvictsOldest(rows, source, sofar - {oldest})
  {
  }

  // ---------------------------------------------------------------- the table, updated in place

  class ErrorTable {
    var rows: Rows
    var nextId: nat

    ghost predicate Valid()
      reads this
    {
      && (forall k | k in rows :: rows[k].id < nextId)
      && (forall a, b | a in rows && b in rows && a != b :: rows[a].id != rows[b].id)
    }

    constructor ()
      ensures Valid() && rows == map[]
    {
      rows, nextId := map[], 0;
    }

    method Bump(key: Key, sample: string, now: int) returns (updated: bool)
      requires Valid()
      modifies this`rows
      ensures Valid() && updated == (key in old(rows))
      ensures rows == if updated then old(rows)[key := Bumped(old(rows)[key], sample, now)] else old(rows)
    {
      updated := key in rows;
      if updated {
        rows := rows[key := Bumped(rows[key], sample, now)];
      }
    }

    method Oldest(source: Source) returns (oldest: Key)
      requires Valid() && KeysOf(rows, source) != {}
      ensures oldest in KeysOf(rows, source)
      ensures forall k | k in KeysOf(rows, source) && k != oldest :: Before(rows[oldest], rows[k])
    {
      var todo := KeysOf(rows, source);
      oldest :| oldest in todo;
      todo := todo - {oldest};
      while todo != {}
        invariant todo <= KeysOf(rows, source) && oldest in KeysOf(rows, source)
        invariant forall k | k in KeysOf(rows, source) && k !in todo && k != oldest :: Before(rows[oldest], rows[k])
        decreases todo
      {
        var k :| k in todo;
        todo := todo - {k};
        if k != oldest && Before(rows[k], rows[oldest]) {
          oldest := k;
        }
      }
    }

    /** Deletes the oldest groups of the source, one at a time, until it is back within its limit. */
    method TrimSource(source: Source)
      requires Valid()
      modifies this`rows
      ensures Valid() && Trimmed(old(rows), source, rows)
    {
      var excess := |KeysOf(rows, source)| - SOURCE_GROUP_LIMIT;
      ghost var count := |KeysOf(rows, source)|;
      while excess > 0
        invariant Valid()
        invariant EvictsOldest(old(rows), source, rows)
        invariant |KeysOf(rows, source)| == if excess > 0 then SOURCE_GROUP_LIMIT + excess
                                            else if count <= SOURCE_GROUP_LIMIT then count else SOURCE_GROUP_LIMIT
      {
        var oldest := Oldest(source);
        EvictOneMore(old(rows), source, rows, oldest);
        assert KeysOf(rows - {oldest}, source) == KeysOf(rows, source) - {oldest};
        rows := rows - {oldest};
        excess := excess - 1;
      }
    }

    /** Another transaction may commit the same fingerprint, at `raced`, between the update that finds no row and the
        insert; the insert then fails and the update is tried once more. */
    method UpsertErrorGroup(key: Key, sample: string, now: int, raced: Option<int>) returns (ghost between: Rows)
      requires Valid()
      modifies this
      ensures Valid()
      ensures raced.None? || key in old(rows) ==> Step(old(rows), Record(key, sample, now), rows)
      ensures raced.Some? && key !in old(rows) ==>
                Step(old(rows), Record(key, "", raced.value), between) && Step(between, Record(key, sample, now), rows)
    {
      between := rows;
      var updated := Bump(key, sample, now);
      if updated {
        return;
      }
      if raced.Some? {
        Insert(key, "", raced.value);
        between := rows;
      }
      if key in rows {
        updated := Bump(key, sample, now);
      } else {
        Insert(key, sample, now);
      }
    }

    method RecordError(source: Source, errorType: string, location: string, sample: string, now: int)
      requires Valid()
      modifies this
      ensures Valid() && Step(old(rows), Record(StoredKey(source, errorType, location), sample, now), rows)
    {
      var e, l := Normalize(errorType, ERROR_TYPE_LIMIT), Normalize(location, LOCATION_LIMIT);
      var key := Key(source, Normalize(e, ERROR_TYPE_LIMIT), Normalize(l, LOCATION_LIMIT));
      ghost var between := UpsertErrorGroup(key, sample, now, None);
    }

    method Insert(key: Key, sample: string, now: int)
      requires Valid() && key !in rows
      modifies this
      ensures Valid() && Step(old(rows), Record(key, sample, now), rows)
      ensures Trimmed(old(rows)[key := NewGroup(old(nextId), key, sample, now)], key.source, rows)
    {
      rows := rows[key := NewGroup(nextId, key, sample, now)];
      nextId := nextId + 1;
      TrimSource(key.source);
    }

    /** With `dryRun` the stale groups are only counted. */
    method PruneStale(days: int, now: int, dryRun: bool) returns (count: nat)
      requires Valid()
      modifies this`rows
      ensures Valid() && count == |set k | k in old(rows) && old(rows)[k].lastSeen < now - days * SECONDS_PER_DAY|
      ensures if dryRun then rows == old(rows) else Step(old(rows), Prune(days, now), rows)
    {
      var stale := set k | k in rows && rows[k].lastSeen < now - days * SECONDS_PER_DAY;
      if !dryRun {
        rows := rows - stale;
      }
      count := |stale|;
    }
  }

  // ---------------------------------------------------------------- refinement

  /** When the key was last recorded. */
  function LastRecorded(calls: seq<Call>, key: Key): Option<int> {
    if calls == [] then None
    else
      var last := calls[|calls| - 1];
      if last.Record? && last.key == key then Some(last.now) else LastRecorded(calls[..|calls| - 1], key)
  }

  /** How often the key was recorded at or after `since`. */
  function RecordsSince(calls: seq<Call>, key: Key, since: int): nat {
    if calls == [] then 0
    else
      var last := calls[|calls| - 1];
      RecordsSince(calls[..|calls| - 1], key, since) + if last.Record? && last.key == key && last.now >= since then 1 else 0
  }

  predicate Increasing(calls: seq<Call>) {
    forall i, j | 0 <= i < j < |calls| :: calls[i].now < calls[j].now
  }

  ghost predicate IsTrace(states: seq<Rows>, calls: seq<Call>) {
    && |states| == |calls| + 1 && states[0] == map[]
    && forall i | 0 <= i < |calls| :: Step(states[i], calls[i], states[i + 1])
  }

  /** `keys` are recorded fingerprints of the source, each recorded more recently than all the others of the source. */
  ghost predicate MostRecent(keys: set<Key>, calls: seq<Call>, source: Source) {
    && (forall k | k in keys :: k.source == source && LastRecorded(calls, k).Some?)
    && (forall kept: Key, gone: Key | kept in keys && gone !in keys && gone.source == source && LastRecorded(calls, gone).Some? ::
          LastRecorded(calls, gone).value < LastRecorded(calls, kept).value)
  }

  ghost predicate RowsTell(rows: Rows, calls: seq<Call>) {
    forall k | k in rows ::
      && rows[k].source == k.source
      && rows[k].firstSeen <= rows[k].lastSeen
      && LastRecorded(calls, k) == Some(rows[k].lastSeen)
      && rows[k].count == RecordsSince(calls, k, rows[k].firstSeen) > 0
  }

  ghost predicate Refines(rows: Rows, calls: seq<Call>) {
    && RowsTell(rows, calls)
    && forall source :: MostRecent(KeysOf(rows, source), calls, source) && |KeysOf(rows, source)| <= SOURCE_GROUP_LIMIT
  }

  lemma {:induction false} LastRecordedIsPast(calls: seq<Call>, key: Key, now: int)
    requires forall c | c in calls :: c.now < now
    ensures LastRecorded(calls, key).Some? ==> LastRecorded(calls, key).value < now
    ensures RecordsSince(calls, key, now) == 0
  {
    if calls != [] {
      var earlier := calls[..|calls| - 1];
      assert calls[|calls| - 1] in calls;
      assert forall c | c in earlier :: c in calls;
      LastRecordedIsPast(earlier, key, now);
    }
  }

  /** The group just recorded is never evicted, whatever the clock does between calls, as long as it does not run back. */
  lemma RecordedGroupStays(rows: Rows, g: Group, key: Key, after: Rows)
    requires key !in rows && g.source == key.source
    requires forall k | k in rows :: rows[k].lastSeen <= g.lastSeen && rows[k].id < g.id
    requires Trimmed(rows[key := g], key.source, after)
    ensures key in after
  {
    var all := rows[key := g];
    assert key in KeysOf(all, key.source);
    var kept :| kept in KeysOf(after, key.source);
    assert kept != key ==> !Before(all[key], after[kept]);
  }

  lemma KeysOfBumped(rows: Rows, key: Key, sample: string, now: int, source: Source)
    requires key in rows
    ensures KeysOf(rows[key := Bumped(rows[key], sample, now)], source) == KeysOf(rows, source)
  {
  }

  lemma LastRecordedAppend(calls: seq<Call>, call: Call, k: Key)
    requires Increasing(calls + [call])
    ensures LastRecorded(calls + [call], k) == if call.Record? && k == call.key then Some(call.now) else LastRecorded(calls, k)
    ensures LastRecorded(calls, k).Some? ==> LastRecorded(calls, k).value < call.now
  {
    var all := calls + [call];
    assert all[..|calls|] == calls;
    forall c | c in calls
      ensures c.now < call.now
    {
      var i :| 0 <= i < |calls| && calls[i] == c;
      assert all[i].now < all[|calls|].now;
    }
    LastRecordedIsPast(calls, k, call.now);
  }

  lemma {:induction false} RecordTimesDiffer(calls: seq<Call>, a: Key, b: Key)
    requires Increasing(calls) && a != b && LastRecorded(calls, a).Some?
    ensures LastRecorded(calls, a) != LastRecorded(calls, b)
  {
    var earlier, last := calls[..|calls| - 1], calls[|calls| - 1];
    assert calls == earlier + [last];
    LastRecordedAppend(earlier, last, a);
    LastRecordedAppend(earlier, last, b);
    if !(last.Record? && last.key == a) && !(last.Record? && last.key == b) {
      RecordTimesDiffer(earlier, a, b);
    }
  }

  lemma RecordKeepsMostRecent(rows: Rows, calls: seq<Call>, call: Call, after: Rows, source: Source)
    requires call.Record? && Increasing(calls + [call])
    requires Refines(rows, calls) && Step(rows, call, after)
    ensures MostRecent(KeysOf(after, source), calls + [call], source)
  {
    var all := calls + [call];
    forall k: Key
      ensures LastRecorded(all, k) == if k == call.key then Some(call.now) else LastRecorded(calls, k)
      ensures LastRecorded(calls, k).Some? ==> LastRecorded(calls, k).value < call.now
    {
      LastRecordedAppend(calls, call, k);
    }
    assert MostRecent(KeysOf(rows, source), calls, source);
    if call.key in rows {
      KeysOfBumped(rows, call.key, call.sample, call.now, source);
    } else {
      forall a: Key, b: Key | a != b && LastRecorded(calls, a).Some?
        ensures LastRecorded(calls, a) != LastRecorded(calls, b)
      {
        assert forall i | 0 <= i < |calls| :: calls[i] == all[i];
        RecordTimesDiffer(calls, a, b);
      }
      NewGroupKeepsMostRecent(rows, calls, call, after, source);
    }
  }

  /** The case of a group that is new to the table: the eviction follows the recency order. */
  lemma NewGroupKeepsMostRecent(rows: Rows, calls: seq<Call>, call: Call, after: Rows, source: Source)
    requires call.Record? && call.key !in rows
    requires forall k: Key :: LastRecorded(calls + [call], k) == if k == call.key then Some(call.now) else LastRecorded(calls, k)
    requires forall k: Key :: LastRecorded(calls, k).Some? ==> LastRecorded(calls, k).value < call.now
    requires RowsTell(rows, calls) && MostRecent(KeysOf(rows, source), calls, source) && Step(rows, call, after)
    requires forall a: Key, b: Key | a != b && LastRecorded(calls, a).Some? :: LastRecorded(calls, a) != LastRecorded(calls, b)
    ensures MostRecent(KeysOf(after, source), calls + [call], source)
  {
    var id: nat :| Trimmed(rows[call.key := NewGroup(id, call.key, call.sample, call.now)], call.key.source, after)
                   && forall k | k in rows :: rows[k].id < id;
    var g := NewGroup(id, call.key, call.sample, call.now);
    RecordedGroupStays(rows, g, call.key, after);
    forall kept: Key, gone: Key | kept in KeysOf(after, source) && gone !in KeysOf(after, source) && gone.source == source
                                  && LastRecorded(calls + [call], gone).Some?
      ensures LastRecorded(calls + [call], gone).value < LastRecorded(calls + [call], kept).value
    {
      assert kept == call.key || kept in KeysOf(rows, source);
      if gone in rows {
        assert Before(rows[gone], after[kept]);
      }
    }
  }

  lemma RecordsSinceAppend(calls: seq<Call>, call: Call, k: Key, since: int)
    ensures RecordsSince(calls + [call], k, since)
         == RecordsSince(calls, k, since) + if call.Record? && call.key == k && call.now >= since then 1 else 0
  {
  }

  lemma StepKeepsTelling(rows: Rows, calls: seq<Call>, call: Call, after: Rows)
    requires Increasing(calls + [call]) && RowsTell(rows, calls) && Step(rows, call, after)
    ensures RowsTell(after, calls + [call])
  {
    forall k | k in after
      ensures && after[k].source == k.source && after[k].firstSeen <= after[k].lastSeen
              && LastRecorded(calls + [call], k) == Some(after[k].lastSeen)
              && after[k].count == RecordsSince(calls + [call], k, after[k].firstSeen) > 0
    {
      LastRecordedAppend(calls, call, k);
      RecordsSinceAppend(calls, call, k, after[k].firstSeen);
      if k !in rows {
        NothingSinceNow(calls, call, k);
      }
    }
  }

  lemma NothingSinceNow(calls: seq<Call>, call: Call, k: Key)
    requires Increasing(calls + [call])
    ensures RecordsSince(calls, k, call.now) == 0
  {
    forall c | c in calls
      ensures c.now < call.now
    {
      var i :| 0 <= i < |calls| && calls[i] == c;
      assert (calls + [call])[i].now < (calls + [call])[|calls|].now;
    }
    LastRecordedIsPast(calls, k, call.now);
  }

  lemma PruneKeepsMostRecent(rows: Rows, calls: seq<Call>, call: Call, after: Rows, source: Source)
    requires call.Prune? && Increasing(calls + [call]) && Refines(rows, calls) && Step(rows, call, after)
    ensures MostRecent(KeysOf(after, source), calls + [call], source)
    ensures KeysOf(after, source) <= KeysOf(rows, source)
  {
  }

  lemma StepKeepsLimit(rows: Rows, call: Call, after: Rows, source: Source)
    requires |KeysOf(rows, source)| <= SOURCE_GROUP_LIMIT && call.Record? && Step(rows, call, after)
    ensures |KeysOf(after, source)| <= SOURCE_GROUP_LIMIT
  {
    if call.key in rows {
      KeysOfBumped(rows, call.key, call.sample, call.now, source);
    } else if source != call.key.source {
      assert KeysOf(after, source) == KeysOf(rows, source);
    }
  }

  lemma StepKeepsRefinement(rows: Rows, calls: seq<Call>, call: Call, after: Rows)
    requires Increasing(calls + [call]) && Refines(rows, calls) && Step(rows, call, after)
    ensures Refines(after, calls + [call])
  {
    StepKeepsTelling(rows, calls, call, after);
    forall source
      ensures MostRecent(KeysOf(after, source), calls + [call], source) && |KeysOf(after, source)| <= SOURCE_GROUP_LIMIT
    {
      if call.Record? {
        RecordKeepsMostRecent(rows, calls, call, after, source);
        StepKeepsLimit(rows, call, after, source);
      } else {
        PruneKeepsMostRecent(rows, calls, call, after, source);
        SubsetIsSmaller(KeysOf(after, source), KeysOf(rows, source));
      }
    }
  }

  lemma SubsetIsSmaller(a: set<Key>, b: set<Key>)
    requires a <= b
    ensures |a| <= |b|
  {
    assert b == a + (b - a);
  }

  /** After any calls, with the clock moving on between them, each source holds exactly its most recently recorded
      fingerprints, at most 250 of them; each row counts the records since it was created. */
  lemma {:induction false} TableRefinesRecency(states: seq<Rows>, calls: seq<Call>)
    requires IsTrace(states, calls) && Increasing(calls)
    ensures Refines(states[|calls|], calls)
  {
    if calls != [] {
      var n := |calls| - 1;
      TableRefinesRecency(states[..n + 1], calls[..n]);
      assert calls == calls[..n] + [calls[n]];
      StepKeepsRefinement(states[n], calls[..n], calls[n], states[n + 1]);
    }
  }

  /** The call that records a fingerprint leaves its group in the table. */
  lemma RecordedGroupIsThere(states: seq<Rows>, calls: seq<Call>)
    requires IsTrace(states, calls) && Increasing(calls) && calls != [] && calls[|calls| - 1].Record?
    ensures calls[|calls| - 1].key in states[|calls|]
    ensures states[|calls|][calls[|calls| - 1].key].lastSeen == calls[|calls| - 1].now
  {
    var n := |calls| - 1;
    TableRefinesRecency(states[..n + 1], calls[..n]);
    TableRefinesRecency(states, calls);
    assert calls == calls[..n] + [calls[n]];
    forall k | k in states[n]
      ensures states[n][k].lastSeen < calls[n].now
    {
      LastRecordedAppend(calls[..n], calls[n], k);
    }
    var key, sample, now := calls[n].key, calls[n].sample, calls[n].now;
    if key !in states[n] {
      var id: nat :| Trimmed(states[n][key := NewGroup(id, key, sample, now)], key.source, states[n + 1])
                     && forall k | k in states[n] :: states[n][k].id < id;
      RecordedGroupStays(states[n], NewGroup(id, key, sample, now), key, states[n + 1]);
    }
    LastRecordedAppend(calls[..n], calls[n], key);
  }
}
