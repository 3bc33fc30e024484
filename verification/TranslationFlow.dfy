/** The runner's translation batches against the server's queue: the retry budget and the progress it buys
    (local_runner/translation_flow.py, events/translation_queue.py). */
module TranslationFlow {
  import opened Options
  import opened Translation

  const PENDING_LIMIT := 20
  const TRANSLATION_MAX_ATTEMPTS: nat := 2

  /** What reaches the runner of the server's answer to a submission: the answer, nothing (network, 5xx, 429), or something
      that is no answer (a body that cannot be read). In the last two cases the server may have saved all the same. */
  datatype Reply = Heard | Lost | Garbled

  /** What one try comes to: unusable model output, a server that is never reached, or a submission. */
  datatype Result = BadOutput | Unavailable | Submits(texts: Submission, reply: Reply)

  /** While the model was at work, staff may have changed events in any way: texts, publication, manual translations. An
      event not written yet is a row that is not published. */
  datatype Try = Try(edits: map<nat, Event>, result: Result)

  /** An event and the hash of its source when the list was fetched; the id is the event's position. */
  type Key = (nat, string)

  /** `attempts` lives in the runner, `events` in the server. */
  datatype Queue = Queue(events: seq<Event>, attempts: map<Key, nat>)

  // ---------------------------------------------------------------- the server's queue

  predicate Pending(rules: Rules, e: Event) {
    e.published && !e.stored.manual && e.stored.sourceHash != Some(SourceHash(rules, e.fields))
  }

  function KeyOf(rules: Rules, events: seq<Event>, id: nat): Key
    requires id < |events|
  {
    (id, SourceHash(rules, events[id].fields))
  }

  /** The pending events in the order of their ids. */
  function PendingKeys(rules: Rules, events: seq<Event>): seq<Key> {
    if events == [] then []
    else
      var n := |events| - 1;
      PendingKeys(rules, events[..n]) + if Pending(rules, events[n]) then [KeyOf(rules, events, n)] else []
  }

  function Take<T>(s: seq<T>, n: int): seq<T> {
    if n <= 0 then [] else if |s| <= n then s else s[..n]
  }

  method PendingEvents(rules: Rules, events: seq<Event>, limit: int) returns (results: seq<Key>)
    ensures results == Take(PendingKeys(rules, events), limit)
  {
    if limit <= 0 {
      return [];
    }
    results := [];
    for i := 0 to |events|
      invariant results == PendingKeys(rules, events[..i]) && |results| < limit
    {
      assert events[..i + 1][..i] == events[..i];
      if events[i].published {
        if events[i].stored.manual {
          continue;
        }
        var current := SourceHash(rules, events[i].fields);
        if events[i].stored.sourceHash == Some(current) {
          continue;
        }
        results := results + [(i, current)];
        if |results| >= limit {
          PendingKeysGrow(rules, events, i + 1);
          return;
        }
      }
    }
    assert events[..|events|] == events;
  }

  lemma {:induction false} PendingKeysGrow(rules: Rules, events: seq<Event>, n: nat)
    requires n <= |events|
    ensures PendingKeys(rules, events[..n]) <= PendingKeys(rules, events)
  {
    if n < |events| {
      assert events[..|events| - 1][..n] == events[..n];
      PendingKeysGrow(rules, events[..|events| - 1], n);
    } else {
      assert events[..n] == events;
    }
  }

  function Edited(events: seq<Event>, edits: map<nat, Event>): (r: seq<Event>)
    ensures |r| == |events|
    ensures edits == map[] ==> r == events
  {
    seq(|events|, i requires 0 <= i < |events| => if i in edits then edits[i] else events[i])
  }

  // ---------------------------------------------------------------- one batch

  function Attempts(attempts: map<Key, nat>, key: Key): nat {
    if key in attempts then attempts[key] else 0
  }

  datatype Progress = Progress(queue: Queue, attempted: nat, succeeded: nat, aborted: bool)

  /** The server's view of a submission: the stored event and whether it answered with success. */
  function Judged(rules: Rules, events: seq<Event>, key: Key, texts: Submission): (seq<Event>, bool) {
    if key.0 >= |events| then (events, false)
    else
      var (e, outcome) := SubmitStep(rules, events[key.0], key.1, texts);
      (events[key.0 := e], outcome.Saved? || outcome.AlreadyCurrent?)
  }

  datatype Ending = Accepted | Failed | Stopped

  /** What one try leaves behind. */
  function AttemptOn(rules: Rules, q: Queue, key: Key, t: Try): (Queue, Ending) {
    var edited := Edited(q.events, t.edits);
    var counted := q.attempts[key := Attempts(q.attempts, key) + 1];
    match t.result
    case BadOutput => (Queue(edited, counted), Failed)
    case Unavailable => (Queue(edited, q.attempts), Stopped)
    case Submits(texts, reply) =>
      var (events, accepted) := Judged(rules, edited, key, texts);
      match reply
      case Lost => (Queue(events, q.attempts), Stopped)
      case Garbled => (Queue(events, counted), Failed)
      case Heard => if accepted then (Queue(events, q.attempts - {key}), Accepted) else (Queue(events, counted), Failed)
  }

  /** One event of the fetched list. */
  function TryOne(rules: Rules, p: Progress, key: Key, t: Try): Progress {
    var (q, ending) := AttemptOn(rules, p.queue, key, t);
    Progress(q, p.attempted + 1, if ending.Accepted? then p.succeeded + 1 else p.succeeded, ending.Stopped?)
  }

  /** The rest of a batch, from the i-th fetched event on; `tries(n)` is what the n-th try of the batch comes to. */
  function BatchRest(rules: Rules, p: Progress, keys: seq<Key>, i: nat, tries: nat -> Try, limit: nat): Progress
    decreases |keys| - i
  {
    if i >= |keys| || p.attempted >= limit || p.aborted then p
    else if Attempts(p.queue.attempts, keys[i]) >= TRANSLATION_MAX_ATTEMPTS then BatchRest(rules, p, keys, i + 1, tries, limit)
    else BatchRest(rules, TryOne(rules, p, keys[i], tries(p.attempted)), keys, i + 1, tries, limit)
  }

  function Window(rules: Rules, events: seq<Event>): seq<Key> {
    Take(PendingKeys(rules, events), PENDING_LIMIT)
  }

  function Batch(rules: Rules, q: Queue, tries: nat -> Try, limit: nat): Progress {
    BatchRest(rules, Progress(q, 0, 0, false), Window(rules, q.events), 0, tries, limit)
  }

  /** The runner with its attempts, and the server's events. */
  class Runner {
    var events: seq<Event>
    var attempts: map<Key, nat>

    ghost function State(): Queue
      reads this
    {
      Queue(events, attempts)
    }

    constructor (events: seq<Event>)
      ensures State() == Queue(events, map[])
    {
      this.events, attempts := events, map[];
    }

    /** One submission: whether the server took it. */
    method TranslateOne(rules: Rules, key: Key, texts: Submission) returns (accepted: bool)
      modifies this`events
      ensures (events, accepted) == Judged(rules, old(events), key, texts)
    {
      if key.0 >= |events| {
        return false;
      }
      var (e, outcome) := SubmitStep(rules, events[key.0], key.1, texts);
      events := events[key.0 := e];
      accepted := outcome.Saved? || outcome.AlreadyCurrent?;
    }

    /** One round of the loop below, for an event that is not given up. */
    method Attempt(rules: Rules, key: Key, t: Try) returns (ending: Ending)
      modifies this
      ensures (State(), ending) == AttemptOn(rules, old(State()), key, t)
    {
      events := Edited(events, t.edits);
      if t.result.Unavailable? {
        return Stopped;
      }
      var accepted := false;
      if t.result.Submits? {
        accepted := TranslateOne(rules, key, t.result.texts);
        if t.result.reply.Lost? {
          return Stopped;
        }
        accepted := accepted && t.result.reply.Heard?;
      }
      if !accepted {
        attempts := attempts[key := Attempts(attempts, key) + 1];
        return Failed;
      }
      attempts := attempts - {key};
      return Accepted;
    }

    method TranslatePendingBatch(rules: Rules, tries: nat -> Try, limit: nat) returns (attempted: nat, succeeded: nat, aborted: bool)
      modifies this
      ensures Progress(State(), attempted, succeeded, aborted) == Batch(rules, old(State()), tries, limit)
    {
      var keys := PendingEvents(rules, events, PENDING_LIMIT);
      attempted, succeeded, aborted := TryEach(rules, keys, tries, limit);
    }

    method TryEach(rules: Rules, keys: seq<Key>, tries: nat -> Try, limit: nat) returns (attempted: nat, succeeded: nat, aborted: bool)
      modifies this
      ensures Progress(State(), attempted, succeeded, aborted)
           == BatchRest(rules, Progress(old(State()), 0, 0, false), keys, 0, tries, limit)
    {
      attempted, succeeded, aborted := 0, 0, false;
      ghost var result := BatchRest(rules, Progress(State(), 0, 0, false), keys, 0, tries, limit);
      for i := 0 to |keys|
        invariant !aborted
        invariant BatchRest(rules, Progress(State(), attempted, succeeded, false), keys, i, tries, limit) == result
      {
        if attempted >= limit {
          break;
        }
        if Attempts(attempts, keys[i]) >= TRANSLATION_MAX_ATTEMPTS {
          continue;
        }
        ghost var next := TryOne(rules, Progress(State(), attempted, succeeded, false), keys[i], tries(attempted));
        assert BatchRest(rules, next, keys, i + 1, tries, limit) == result;
        var ending := Attempt(rules, keys[i], tries(attempted));
        attempted := attempted + 1;
        if ending.Stopped? {
          aborted := true;
          return;
        }
        if ending.Accepted? {
          succeeded := succeeded + 1;
        }
      }
    }
  }

  // ---------------------------------------------------------------- the budget

  predicate WithinBudget(attempts: map<Key, nat>) {
    forall key | key in attempts :: attempts[key] <= TRANSLATION_MAX_ATTEMPTS
  }

  lemma {:induction false} BatchKeepsBudget(rules: Rules, p: Progress, keys: seq<Key>, i: nat, tries: nat -> Try, limit: nat)
    requires WithinBudget(p.queue.attempts) && p.attempted <= limit && p.succeeded <= p.attempted
    ensures var r := BatchRest(rules, p, keys, i, tries, limit);
            WithinBudget(r.queue.attempts) && r.succeeded <= r.attempted <= limit
    decreases |keys| - i
  {
    if i >= |keys| || p.attempted >= limit || p.aborted {
    } else if Attempts(p.queue.attempts, keys[i]) >= TRANSLATION_MAX_ATTEMPTS {
      BatchKeepsBudget(rules, p, keys, i + 1, tries, limit);
    } else {
      BatchKeepsBudget(rules, TryOne(rules, p, keys[i], tries(p.attempted)), keys, i + 1, tries, limit);
    }
  }

  function StaffEdit(q: Queue, edits: map<nat, Event>): Queue {
    q.(events := Edited(q.events, edits))
  }

  /** The states of the queue at the start of successive batches; `tries(n)` are the tries of the n-th, `edits(n)` the
      changes staff make between it and the next. */
  ghost predicate Rounds(rules: Rules, qs: seq<Queue>, tries: nat -> nat -> Try, edits: nat -> map<nat, Event>, limit: nat) {
    qs != [] && forall n: nat | n < |qs| - 1 :: qs[n + 1] == StaffEdit(Batch(rules, qs[n], tries(n), limit).queue, edits(n))
  }

  /** Whatever the model, the network and staff do: a batch makes at most `limit` attempts, and no event is recorded with
      more than two failed attempts at the same source text. */
  lemma {:induction false} RetriesAreBounded(rules: Rules, qs: seq<Queue>, tries: nat -> nat -> Try, edits: nat -> map<nat, Event>,
                                             limit: nat, n: nat)
    requires Rounds(rules, qs, tries, edits, limit) && qs[0].attempts == map[] && n < |qs|
    ensures WithinBudget(qs[n].attempts)
    ensures var batch := Batch(rules, qs[n], tries(n), limit); batch.succeeded <= batch.attempted <= limit
  {
    if n > 0 {
      RetriesAreBounded(rules, qs, tries, edits, limit, n - 1);
      BatchKeepsBudget(rules, Progress(qs[n - 1], 0, 0, false), Window(rules, qs[n - 1].events), 0, tries(n - 1), limit);
    }
    BatchKeepsBudget(rules, Progress(qs[n], 0, 0, false), Window(rules, qs[n].events), 0, tries(n), limit);
  }

  // ---------------------------------------------------------------- progress

  /** The failed attempts an event still has before it is given up. */
  function Left(rules: Rules, q: Queue, id: nat): nat
    requires id < |q.events|
  {
    var used := Attempts(q.attempts, KeyOf(rules, q.events, id));
    if Pending(rules, q.events[id]) && used < TRANSLATION_MAX_ATTEMPTS then TRANSLATION_MAX_ATTEMPTS - used else 0
  }

  function Sum(s: seq<nat>): nat {
    if s == [] then 0 else Sum(s[..|s| - 1]) + s[|s| - 1]
  }

  /** The failed attempts that can still come. */
  function Work(rules: Rules, q: Queue): nat {
    Sum(seq(|q.events|, i requires 0 <= i < |q.events| => Left(rules, q, i)))
  }

  /** Fetched keys that still describe the queue: pending events with their current hashes, each once. */
  ghost predicate Current(rules: Rules, events: seq<Event>, keys: seq<Key>, from: nat) {
    && (forall i | from <= i < |keys| ::
          keys[i].0 < |events| && Pending(rules, events[keys[i].0]) && keys[i] == KeyOf(rules, events, keys[i].0))
    && (forall i, j | from <= i < j < |keys| :: keys[i].0 != keys[j].0)
  }

  lemma {:induction false} PendingKeysAreCurrent(rules: Rules, events: seq<Event>)
    ensures Current(rules, events, PendingKeys(rules, events), 0)
    ensures forall i | 0 <= i < |PendingKeys(rules, events)| :: PendingKeys(rules, events)[i].0 < |events|
    ensures forall id: nat | id < |events| && Pending(rules, events[id]) :: KeyOf(rules, events, id) in PendingKeys(rules, events)
  {
    if events != [] {
      PendingKeysAreCurrent(rules, events[..|events| - 1]);
    }
  }

  lemma {:induction false} SmallerSum(s: seq<nat>, t: seq<nat>, k: nat)
    requires |s| == |t| && k < |s| && t[k] < s[k] && forall i | 0 <= i < |s| && i != k :: t[i] == s[i]
    ensures Sum(t) < Sum(s)
  {
    if k < |s| - 1 {
      SmallerSum(s[..|s| - 1], t[..|s| - 1], k);
    } else {
      assert s[..k] == t[..k];
    }
  }

  lemma {:induction false} PartOfSum(s: seq<nat>, k: nat)
    requires k < |s|
    ensures s[k] <= Sum(s)
  {
    if k < |s| - 1 {
      PartOfSum(s[..|s| - 1], k);
    }
  }

  lemma {:induction false} PositiveSum(s: seq<nat>) returns (k: nat)
    requires Sum(s) > 0
    ensures k < |s| && s[k] > 0
  {
    if s[|s| - 1] > 0 {
      k := |s| - 1;
    } else {
      k := PositiveSum(s[..|s| - 1]);
    }
  }

  predicate Stops(r: Result) {
    r.Unavailable? || (r.Submits? && r.reply.Lost?)
  }

  /** One undisturbed try at an event uses up some of its budget and touches no other event. */
  lemma TryUsesBudget(rules: Rules, p: Progress, key: Key, t: Try)
    requires t.edits == map[] && !Stops(t.result)
    requires key.0 < |p.queue.events| && Pending(rules, p.queue.events[key.0]) && key == KeyOf(rules, p.queue.events, key.0)
    requires Attempts(p.queue.attempts, key) < TRANSLATION_MAX_ATTEMPTS
    ensures var r := TryOne(rules, p, key, t);
            && !r.aborted && |r.queue.events| == |p.queue.events|
            && Left(rules, r.queue, key.0) < Left(rules, p.queue, key.0)
            && forall other: nat | other < |p.queue.events| && other != key.0 ::
                 r.queue.events[other] == p.queue.events[other] && Left(rules, r.queue, other) == Left(rules, p.queue, other)
  {
  }

  lemma TryReducesWork(rules: Rules, p: Progress, keys: seq<Key>, i: nat, t: Try)
    requires t.edits == map[] && !Stops(t.result) && i < |keys| && Current(rules, p.queue.events, keys, i)
    requires Attempts(p.queue.attempts, keys[i]) < TRANSLATION_MAX_ATTEMPTS
    ensures var r := TryOne(rules, p, keys[i], t);
            Work(rules, r.queue) < Work(rules, p.queue) && Current(rules, r.queue.events, keys, i + 1)
  {
    TryUsesBudget(rules, p, keys[i], t);
    var q, r := p.queue, TryOne(rules, p, keys[i], t).queue;
    SmallerSum(seq(|q.events|, k requires 0 <= k < |q.events| => Left(rules, q, k)),
               seq(|r.events|, k requires 0 <= k < |r.events| => Left(rules, r, k)), keys[i].0);
  }

  lemma {:induction false} BatchAddsNoWork(rules: Rules, p: Progress, keys: seq<Key>, i: nat, tries: nat -> Try, limit: nat)
    requires Current(rules, p.queue.events, keys, i) && !p.aborted && forall n :: tries(n).edits == map[]
    requires !BatchRest(rules, p, keys, i, tries, limit).aborted
    ensures Work(rules, BatchRest(rules, p, keys, i, tries, limit).queue) <= Work(rules, p.queue)
    decreases |keys| - i
  {
    if i >= |keys| || p.attempted >= limit {
    } else if Attempts(p.queue.attempts, keys[i]) >= TRANSLATION_MAX_ATTEMPTS {
      BatchAddsNoWork(rules, p, keys, i + 1, tries, limit);
    } else {
      TryReducesWork(rules, p, keys, i, tries(p.attempted));
      BatchAddsNoWork(rules, TryOne(rules, p, keys[i], tries(p.attempted)), keys, i + 1, tries, limit);
    }
  }

  /** With the j-th fetched event still to be tried, a batch makes a try, at that event or an earlier one. */
  lemma {:induction false} BatchReducesWork(rules: Rules, p: Progress, keys: seq<Key>, i: nat, j: nat, tries: nat -> Try, limit: nat)
    requires Current(rules, p.queue.events, keys, i) && !p.aborted && forall n :: tries(n).edits == map[]
    requires !BatchRest(rules, p, keys, i, tries, limit).aborted
    requires p.attempted < limit && i <= j < |keys| && Attempts(p.queue.attempts, keys[j]) < TRANSLATION_MAX_ATTEMPTS
    ensures Work(rules, BatchRest(rules, p, keys, i, tries, limit).queue) < Work(rules, p.queue)
    decreases |keys| - i
  {
    if Attempts(p.queue.attempts, keys[i]) >= TRANSLATION_MAX_ATTEMPTS {
      BatchReducesWork(rules, p, keys, i + 1, j, tries, limit);
    } else {
      TryReducesWork(rules, p, keys, i, tries(p.attempted));
      BatchAddsNoWork(rules, TryOne(rules, p, keys[i], tries(p.attempted)), keys, i + 1, tries, limit);
    }
  }

  function ExhaustedCount(attempts: map<Key, nat>, keys: seq<Key>): nat {
    if keys == [] then 0
    else ExhaustedCount(attempts, keys[..|keys| - 1]) + if Attempts(attempts, keys[|keys| - 1]) >= TRANSLATION_MAX_ATTEMPTS then 1 else 0
  }

  lemma {:induction false} ExhaustedPrefix(attempts: map<Key, nat>, keys: seq<Key>, n: nat)
    requires n <= |keys|
    ensures ExhaustedCount(attempts, keys[..n]) <= ExhaustedCount(attempts, keys)
    ensures (forall k | k in keys[..n] :: Attempts(attempts, k) >= TRANSLATION_MAX_ATTEMPTS) ==> ExhaustedCount(attempts, keys[..n]) == n
    decreases |keys|
  {
    if n < |keys| {
      assert keys[..|keys| - 1][..n] == keys[..n];
      ExhaustedPrefix(attempts, keys[..|keys| - 1], n);
    } else if n > 0 {
      assert keys[..n] == keys;
      ExhaustedPrefix(attempts, keys[..n - 1], n - 1);
      assert keys[..n - 1][..n - 1] == keys[..n - 1];
      assert forall k | k in keys[..n - 1] :: k in keys[..n];
      assert keys[n - 1] in keys[..n];
    }
  }

  // ---------------------------------------------------------------- progress and starvation

  /** Every pending event is given up: nothing is left to do. */
  ghost predicate Settled(rules: Rules, q: Queue) {
    forall id: nat | id < |q.events| && Pending(rules, q.events[id]) ::
      Attempts(q.attempts, KeyOf(rules, q.events, id)) >= TRANSLATION_MAX_ATTEMPTS
  }

  /** Some of the events that are fetched is not given up. */
  ghost predicate SomethingToTry(rules: Rules, q: Queue) {
    exists j: nat | j < |Window(rules, q.events)| :: Attempts(q.attempts, Window(rules, q.events)[j]) < TRANSLATION_MAX_ATTEMPTS
  }

  lemma WindowIsCurrent(rules: Rules, events: seq<Event>)
    ensures Current(rules, events, Window(rules, events), 0)
  {
    PendingKeysAreCurrent(rules, events);
  }

  lemma SettledLeavesNothingToTry(rules: Rules, q: Queue)
    requires SomethingToTry(rules, q)
    ensures !Settled(rules, q)
  {
    WindowIsCurrent(rules, q.events);
    var j: nat :| j < |Window(rules, q.events)| && Attempts(q.attempts, Window(rules, q.events)[j]) < TRANSLATION_MAX_ATTEMPTS;
    assert Pending(rules, q.events[Window(rules, q.events)[j].0]);
  }

  /** With fewer than 20 events given up, the fetched list reaches past them. */
  lemma FewGivenUpLeaveSomethingToTry(rules: Rules, q: Queue)
    requires !Settled(rules, q) && ExhaustedCount(q.attempts, PendingKeys(rules, q.events)) < PENDING_LIMIT
    ensures SomethingToTry(rules, q)
  {
    var keys, window := PendingKeys(rules, q.events), Window(rules, q.events);
    PendingKeysAreCurrent(rules, q.events);
    var id: nat :| id < |q.events| && Pending(rules, q.events[id]) && Attempts(q.attempts, KeyOf(rules, q.events, id)) < TRANSLATION_MAX_ATTEMPTS;
    assert KeyOf(rules, q.events, id) in keys;
    if |keys| > PENDING_LIMIT {
      ExhaustedPrefix(q.attempts, keys, PENDING_LIMIT);
    }
    var k :| k in window && Attempts(q.attempts, k) < TRANSLATION_MAX_ATTEMPTS;
    var j: nat :| j < |window| && window[j] == k;
  }

  /** A batch in which nobody edits and that is not aborted. */
  ghost predicate Quiet(rules: Rules, q: Queue, tries: nat -> Try, limit: nat) {
    && (forall n :: tries(n).edits == map[])
    && !Batch(rules, q, tries, limit).aborted
  }

  /** Given-up events keep their places in the fetched list. When they fill it, a batch does nothing at all, whatever waits
      behind them and whatever the model and staff would do. */
  lemma GivenUpEventsStarveTheRest(rules: Rules, q: Queue, tries: nat -> Try, limit: nat)
    requires !SomethingToTry(rules, q)
    ensures Batch(rules, q, tries, limit) == Progress(q, 0, 0, false)
  {
    GivenUpKeysAreSkipped(rules, Progress(q, 0, 0, false), Window(rules, q.events), 0, tries, limit);
  }

  lemma {:induction false} GivenUpKeysAreSkipped(rules: Rules, p: Progress, keys: seq<Key>, i: nat, tries: nat -> Try, limit: nat)
    requires forall j | 0 <= j < |keys| :: Attempts(p.queue.attempts, keys[j]) >= TRANSLATION_MAX_ATTEMPTS
    ensures BatchRest(rules, p, keys, i, tries, limit) == p
    decreases |keys| - i
  {
    if i < |keys| {
      GivenUpKeysAreSkipped(rules, p, keys, i + 1, tries, limit);
    }
  }

  /** A quiet batch gets nearer to the end exactly when some fetched event is not given up. */
  lemma EveryBatchMakesProgress(rules: Rules, q: Queue, tries: nat -> Try, limit: nat)
    requires limit > 0 && Quiet(rules, q, tries, limit)
    ensures Work(rules, Batch(rules, q, tries, limit).queue) <= Work(rules, q)
    ensures Work(rules, Batch(rules, q, tries, limit).queue) < Work(rules, q) <==> SomethingToTry(rules, q)
  {
    if SomethingToTry(rules, q) {
      var j: nat :| j < |Window(rules, q.events)| && Attempts(q.attempts, Window(rules, q.events)[j]) < TRANSLATION_MAX_ATTEMPTS;
      WindowIsCurrent(rules, q.events);
      BatchReducesWork(rules, Progress(q, 0, 0, false), Window(rules, q.events), 0, j, tries, limit);
    } else {
      GivenUpEventsStarveTheRest(rules, q, tries, limit);
    }
  }

  // ---------------------------------------------------------------- many batches

  /** Until staff change an event, a starved queue stays as it is. */
  lemma {:induction false} StarvationLasts(rules: Rules, qs: seq<Queue>, tries: nat -> nat -> Try, edits: nat -> map<nat, Event>,
                                           limit: nat, m: nat, n: nat)
    requires Rounds(rules, qs, tries, edits, limit) && m <= n < |qs| && forall k: nat | m <= k < n :: edits(k) == map[]
    requires !SomethingToTry(rules, qs[m])
    ensures qs[n] == qs[m]
    decreases n
  {
    if m < n {
      StarvationLasts(rules, qs, tries, edits, limit, m, n - 1);
      GivenUpEventsStarveTheRest(rules, qs[n - 1], tries(n - 1), limit);
    }
  }

  lemma NoWorkMeansSettled(rules: Rules, q: Queue)
    ensures Work(rules, q) == 0 <==> Settled(rules, q)
  {
    var left := seq(|q.events|, i requires 0 <= i < |q.events| => Left(rules, q, i));
    if Work(rules, q) == 0 {
      forall id: nat | id < |q.events| && Pending(rules, q.events[id])
        ensures Attempts(q.attempts, KeyOf(rules, q.events, id)) >= TRANSLATION_MAX_ATTEMPTS
      {
        PartOfSum(left, id);
      }
    } else {
      var id := PositiveSum(left);
      assert Left(rules, q, id) > 0;
    }
  }

  lemma {:induction false} Countdown(w: seq<nat>)
    requires w != [] && forall i | 0 <= i < |w| - 1 :: w[i + 1] < w[i] || w[i + 1] == 0 == w[i]
    ensures w[|w| - 1] == 0 || w[|w| - 1] + |w| - 1 <= w[0]
  {
    if |w| > 1 {
      Countdown(w[..|w| - 1]);
    }
  }

  /** Rounds of quiet batches. */
  ghost predicate QuietRounds(rules: Rules, qs: seq<Queue>, tries: nat -> nat -> Try, edits: nat -> map<nat, Event>, limit: nat) {
    && Rounds(rules, qs, tries, edits, limit)
    && forall n: nat | n < |qs| - 1 :: Quiet(rules, qs[n], tries(n), limit) && edits(n) == map[]
  }

  lemma RoundReducesWork(rules: Rules, qs: seq<Queue>, tries: nat -> nat -> Try, edits: nat -> map<nat, Event>, limit: nat, n: nat)
    requires limit > 0 && QuietRounds(rules, qs, tries, edits, limit) && n < |qs| - 1
    requires SomethingToTry(rules, qs[n]) || Settled(rules, qs[n])
    ensures Work(rules, qs[n + 1]) < Work(rules, qs[n]) || Work(rules, qs[n + 1]) == 0 == Work(rules, qs[n])
  {
    EveryBatchMakesProgress(rules, qs[n], tries(n), limit);
    NoWorkMeansSettled(rules, qs[n]);
  }

  /** After as many quiet batches as there is work, every event is translated or given up exactly if, at the start of each,
      some fetched event was still to be tried or everything was settled already. */
  lemma EveryEventEndsTranslatedOrGivenUp(rules: Rules, qs: seq<Queue>, tries: nat -> nat -> Try, edits: nat -> map<nat, Event>, limit: nat)
    requires limit > 0 && QuietRounds(rules, qs, tries, edits, limit) && |qs| > Work(rules, qs[0])
    ensures Settled(rules, qs[|qs| - 1]) <==> forall n: nat | n < |qs| - 1 :: SomethingToTry(rules, qs[n]) || Settled(rules, qs[n])
  {
    var last := |qs| - 1;
    if Settled(rules, qs[last]) {
      forall n: nat | n < |qs| - 1
        ensures SomethingToTry(rules, qs[n]) || Settled(rules, qs[n])
      {
        if !SomethingToTry(rules, qs[n]) {
          StarvationLasts(rules, qs, tries, edits, limit, n, last);
        }
      }
    }
    if forall n: nat | n < |qs| - 1 :: SomethingToTry(rules, qs[n]) || Settled(rules, qs[n]) {
      var w := seq(|qs|, n requires 0 <= n < |qs| => Work(rules, qs[n]));
      forall n: nat | n < last
        ensures w[n + 1] < w[n] || w[n + 1] == 0 == w[n]
      {
        RoundReducesWork(rules, qs, tries, edits, limit, n);
      }
      Countdown(w);
      NoWorkMeansSettled(rules, qs[last]);
    }
  }

  /** In particular if fewer than 20 pending events are given up at the start of each batch. */
  lemma WithFewGivenUpEveryEventEnds(rules: Rules, qs: seq<Queue>, tries: nat -> nat -> Try, edits: nat -> map<nat, Event>, limit: nat)
    requires limit > 0 && QuietRounds(rules, qs, tries, edits, limit) && |qs| > Work(rules, qs[0])
    requires forall n: nat | n < |qs| - 1 :: ExhaustedCount(qs[n].attempts, PendingKeys(rules, qs[n].events)) < PENDING_LIMIT
    ensures Settled(rules, qs[|qs| - 1])
  {
    forall n: nat | n < |qs| - 1
      ensures SomethingToTry(rules, qs[n]) || Settled(rules, qs[n])
    {
      if !Settled(rules, qs[n]) {
        FewGivenUpLeaveSomethingToTry(rules, qs[n]);
      }
    }
    EveryEventEndsTranslatedOrGivenUp(rules, qs, tries, edits, limit);
  }
}
