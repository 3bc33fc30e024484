/** What each call leaves in the error table, row by row, and how many groups a source then has. */
module ErrorEffects {
  import opened Options
  import opened ErrorKeys
  import opened ErrorGroups

  function GroupsOf(rows: Rows, source: Source): set<Key> {
    set k | k in rows && k.source == source
  }

  lemma SourcesAgree(rows: Rows, calls: seq<Call>, source: Source)
    requires RowsTell(rows, calls)
    ensures GroupsOf(rows, source) == KeysOf(rows, source)
  {
  }

  /** The rows other than those named are the same. */
  ghost predicate SameRows(rows: Rows, after: Rows, except: set<Key>) {
    forall k | k !in except :: (k in after <==> k in rows) && (k in rows ==> after[k] == rows[k])
  }

  predicate IsFirst(g: Group, key: Key, sample: string, now: int) {
    g.source == key.source && g.count == 1 && g.firstSeen == now && g.lastSeen == now && g.sample == sample
  }

  /** What recording an error does: it counts on in its group; or it opens a group, for which the source gives up its oldest
      group exactly if it has 250. */
  ghost predicate RecordedRightly(rows: Rows, key: Key, sample: string, now: int, after: Rows) {
    if key in rows then
      && SameRows(rows, after, {key}) && key in after
      && after[key] == rows[key].(count := rows[key].count + 1, lastSeen := now, sample := sample)
    else
      && key in after && IsFirst(after[key], key, sample, now)
      && if |GroupsOf(rows, key.source)| < 250 then SameRows(rows, after, {key})
         else exists oldest | oldest in GroupsOf(rows, key.source) :: EvictedFor(rows, key, oldest, after)
  }

  ghost predicate EvictedFor(rows: Rows, key: Key, oldest: Key, after: Rows)
    requires oldest in rows
  {
    && oldest !in after && SameRows(rows, after, {key, oldest})
    && forall k | k in GroupsOf(rows, key.source) && k != oldest :: rows[oldest].lastSeen < rows[k].lastSeen
  }

  /** The one element that is missing. */
  lemma OneIsMissing(all: set<Key>, kept: set<Key>) returns (gone: Key)
    requires kept <= all && |kept| == |all| - 1
    ensures gone in all && kept == all - {gone}
  {
    assert !(all <= kept) by {
      if all <= kept {
        SubsetIsSmaller(all, kept);
      }
    }
    gone :| gone in all && gone !in kept;
    NothingIsMissing(all - {gone}, kept);
  }

  lemma NothingIsMissing(all: set<Key>, kept: set<Key>)
    requires kept <= all && |kept| == |all|
    ensures kept == all
  {
    if all - kept != {} {
      var k :| k in all - kept;
      SubsetIsSmaller(kept, all - {k});
    }
  }

  /** The groups of the source when a new one is opened and nothing evicted yet, and after. */
  lemma KeysOfNew(rows: Rows, key: Key, g: Group, after: Rows)
    requires key !in rows && g.source == key.source && EvictsOldest(rows[key := g], key.source, after)
    ensures KeysOf(rows[key := g], key.source) == KeysOf(rows, key.source) + {key}
    ensures |KeysOf(rows[key := g], key.source)| == |KeysOf(rows, key.source)| + 1
    ensures KeysOf(after, key.source) <= KeysOf(rows[key := g], key.source)
  {
    assert KeysOf(rows[key := g], key.source) == KeysOf(rows, key.source) + {key};
  }

  lemma NothingGoes(rows: Rows, key: Key, after: Rows)
    requires key !in rows && key in after && after[key].source == key.source
    requires EvictsOldest(rows[key := after[key]], key.source, after)
    requires KeysOf(after, key.source) == KeysOf(rows[key := after[key]], key.source)
    ensures SameRows(rows, after, {key})
  {
    forall k | k !in {key}
      ensures (k in after <==> k in rows) && (k in rows ==> after[k] == rows[k])
    {
      if k in rows && rows[k].source == key.source {
        assert k in KeysOf(rows[key := after[key]], key.source);
      }
    }
  }

  lemma NewGroupStays(rows: Rows, calls: seq<Call>, call: Call, g: Group, after: Rows)
    requires call.Record? && call.key !in rows && Increasing(calls + [call]) && RowsTell(rows, calls)
    requires g.source == call.key.source && g.lastSeen == call.now && forall k | k in rows :: rows[k].id < g.id
    requires Trimmed(rows[call.key := g], call.key.source, after)
    ensures call.key in after && after[call.key] == g
  {
    forall k | k in rows
      ensures rows[k].lastSeen < call.now
    {
      LastRecordedAppend(calls, call, k);
    }
    RecordedGroupStays(rows, g, call.key, after);
  }

  lemma NewGroupIsRecorded(rows: Rows, calls: seq<Call>, call: Call, after: Rows)
    requires call.Record? && call.key !in rows && Increasing(calls) && Increasing(calls + [call])
    requires RowsTell(rows, calls) && |KeysOf(rows, call.key.source)| <= 250 && Step(rows, call, after)
    ensures RecordedRightly(rows, call.key, call.sample, call.now, after)
  {
    var key, source := call.key, call.key.source;
    var id: nat :| Trimmed(rows[key := NewGroup(id, key, call.sample, call.now)], source, after) && forall k | k in rows :: rows[k].id < id;
    var g := NewGroup(id, key, call.sample, call.now);
    NewGroupStays(rows, calls, call, g, after);
    SourcesAgree(rows, calls, source);
    KeysOfNew(rows, key, g, after);
    if |KeysOf(rows, source)| < 250 {
      NothingIsMissing(KeysOf(rows[key := g], source), KeysOf(after, source));
      NothingGoes(rows, key, after);
    } else {
      var oldest := OneIsMissing(KeysOf(rows[key := g], source), KeysOf(after, source));
      OldestGoes(rows, calls, source, rows[key := g], after, key, oldest);
    }
  }

  lemma OldestGoes(rows: Rows, calls: seq<Call>, source: Source, all: Rows, after: Rows, key: Key, oldest: Key)
    requires RowsTell(rows, calls) && Increasing(calls) && key !in rows && key in after && key.source == source
    requires all == rows[key := after[key]] && all[key].source == source && EvictsOldest(all, source, after)
    requires oldest in KeysOf(all, source) && KeysOf(after, source) == KeysOf(all, source) - {oldest}
    ensures oldest in GroupsOf(rows, source) && EvictedFor(rows, key, oldest, after)
  {
    assert oldest !in KeysOf(after, source);
    assert oldest != key;
    forall k | k in GroupsOf(rows, source) && k != oldest
      ensures rows[oldest].lastSeen < rows[k].lastSeen
    {
      assert k in KeysOf(all, source) && k in KeysOf(after, source);
      assert Before(all[oldest], after[k]);
      RecordTimesDiffer(calls, oldest, k);
    }
    forall k | k !in {key, oldest}
      ensures (k in after <==> k in rows) && (k in rows ==> after[k] == rows[k])
    {
      if k in rows && rows[k].source == source {
        assert k in KeysOf(after, source);
      }
    }
  }

  lemma {:induction false} StatesRefine(states: seq<Rows>, calls: seq<Call>, i: nat)
    requires IsTrace(states, calls) && Increasing(calls) && i <= |calls|
    ensures Refines(states[i], calls[..i])
  {
    TableRefinesRecency(states[..i + 1], calls[..i]);
  }

  /** Any call of any sequence of calls, in full: recording as above; a prune removes exactly the groups not seen since. */
  lemma EachCallDoesThis(states: seq<Rows>, calls: seq<Call>, i: nat)
    requires IsTrace(states, calls) && Increasing(calls) && i < |calls|
    ensures match calls[i]
            case Record(key, sample, now) => RecordedRightly(states[i], key, sample, now, states[i + 1])
            case Prune(days, now) =>
              && (forall k :: k in states[i + 1] <==> k in states[i] && states[i][k].lastSeen >= now - days * 86400)
              && (forall k | k in states[i + 1] :: states[i + 1][k] == states[i][k])
  {
    StatesRefine(states, calls, i);
    assert calls[..i] + [calls[i]] == calls[..i + 1];
    if calls[i].Record? && calls[i].key !in states[i] {
      assert |KeysOf(states[i], calls[i].key.source)| <= SOURCE_GROUP_LIMIT;
      assert Increasing(calls[..i]) && Increasing(calls[..i + 1]);
      NewGroupIsRecorded(states[i], calls[..i], calls[i], states[i + 1]);
    }
  }

  // ---------------------------------------------------------------- how many

  function RecordedOf(calls: seq<Call>, source: Source): set<Key> {
    set c | c in calls && c.Record? && c.key.source == source :: c.key
  }

  function Least(a: nat, b: nat): nat {
    if a < b then a else b
  }

  /** As full as can be: everything that was recorded, or 250 of it. */
  predicate AsFullAsCanBe(groups: set<Key>, recorded: set<Key>) {
    groups <= recorded && |groups| == Least(250, |recorded|)
  }

  /** Without prunes a source has all its recorded fingerprints, or 250 of them; which 250, the refinement says. */
  lemma {:induction false} SourceIsAsFullAsItCanBe(states: seq<Rows>, calls: seq<Call>, source: Source)
    requires IsTrace(states, calls) && Increasing(calls) && forall i | 0 <= i < |calls| :: calls[i].Record?
    ensures AsFullAsCanBe(GroupsOf(states[|calls|], source), RecordedOf(calls, source))
  {
    if calls != [] {
      var n := |calls| - 1;
      SourceIsAsFullAsItCanBe(states[..n + 1], calls[..n], source);
      EachCallDoesThis(states, calls, n);
      RecordedOneMore(calls, source);
      OneMoreCall(states[n], RecordedOf(calls[..n], source), calls[n], states[n + 1], source, RecordedOf(calls, source));
    }
  }

  lemma RecordedOneMore(calls: seq<Call>, source: Source)
    requires calls != [] && calls[|calls| - 1].Record?
    ensures var key := calls[|calls| - 1].key;
            RecordedOf(calls, source) == RecordedOf(calls[..|calls| - 1], source) + if key.source == source then {key} else {}
  {
    assert calls == calls[..|calls| - 1] + [calls[|calls| - 1]];
  }

  lemma RoomForOne(groups: set<Key>, recorded: set<Key>, key: Key)
    requires AsFullAsCanBe(groups, recorded) && |groups| < 250 && key !in groups
    ensures AsFullAsCanBe(groups + {key}, recorded + {key})
  {
    NothingIsMissing(recorded, groups);
  }

  lemma OneForAnother(groups: set<Key>, recorded: set<Key>, key: Key, oldest: Key)
    requires AsFullAsCanBe(groups, recorded) && |groups| >= 250 && key !in groups && oldest in groups
    ensures AsFullAsCanBe(groups - {oldest} + {key}, recorded + {key})
  {
    SubsetIsSmaller(recorded, recorded + {key});
  }

  lemma GroupsAfterAdding(rows: Rows, after: Rows, key: Key, source: Source)
    requires key in after && SameRows(rows, after, {key})
    ensures GroupsOf(after, source) == if key.source == source then GroupsOf(rows, source) + {key} else GroupsOf(rows, source)
  {
  }

  lemma GroupsAfterEvicting(rows: Rows, after: Rows, key: Key, oldest: Key, source: Source)
    requires key in after && oldest !in after && oldest.source == key.source && SameRows(rows, after, {key, oldest})
    ensures GroupsOf(after, source) == if key.source == source then GroupsOf(rows, source) - {oldest} + {key} else GroupsOf(rows, source)
  {
  }

  lemma NoNewGroup(rows: Rows, call: Call, after: Rows, source: Source)
    requires call.Record? && RecordedRightly(rows, call.key, call.sample, call.now, after)
    requires call.key.source != source || call.key in rows
    ensures GroupsOf(after, source) == GroupsOf(rows, source)
  {
    var key := call.key;
    if key in rows || |GroupsOf(rows, key.source)| < 250 {
      GroupsAfterAdding(rows, after, key, source);
      assert key in rows && key.source == source ==> GroupsOf(rows, source) + {key} == GroupsOf(rows, source);
    } else {
      var oldest :| oldest in GroupsOf(rows, key.source) && EvictedFor(rows, key, oldest, after);
      GroupsAfterEvicting(rows, after, key, oldest, source);
    }
  }

  lemma OneMoreCall(rows: Rows, recorded: set<Key>, call: Call, after: Rows, source: Source, now: set<Key>)
    requires call.Record? && RecordedRightly(rows, call.key, call.sample, call.now, after)
    requires AsFullAsCanBe(GroupsOf(rows, source), recorded)
    requires now == recorded + if call.key.source == source then {call.key} else {}
    ensures AsFullAsCanBe(GroupsOf(after, source), now)
  {
    var key, groups := call.key, GroupsOf(rows, source);
    if key.source != source || key in rows {
      NoNewGroup(rows, call, after, source);
      assert key.source == source ==> key in groups;
      assert now == recorded;
    } else {
      if |groups| < 250 {
        GroupsAfterAdding(rows, after, key, source);
        RoomForOne(groups, recorded, key);
      } else {
        var oldest :| oldest in groups && EvictedFor(rows, key, oldest, after);
        GroupsAfterEvicting(rows, after, key, oldest, source);
        OneForAnother(groups, recorded, key, oldest);
      }
    }
  }
}
