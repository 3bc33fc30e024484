/** Photo uploads under the lock on their visit record, among any number of uploaders and deleters
    (archive/services.py, archive/models.py). */
module PhotoUpload {
  import opened Options

  const MAX_PHOTOS_PER_RECORD := 5

  datatype Photo = Photo(record: nat, token: Option<nat>)

  datatype Answer = Existing(id: nat) | Created(id: nat) | LimitExceeded | RecordGone

  /** Where an upload stands: waiting for the lock, holding it at one of the statements, or answered and out. */
  datatype Pc = Waiting | Looking | Counting | Inserting | Committing | Answered(answer: Answer)

  datatype Upload = Upload(record: nat, token: Option<nat>, pc: Pc)

  /** `locks` says which upload holds a record. Ids of photos are never used twice. */
  datatype World = World(records: set<nat>, photos: map<nat, Photo>, next: nat, uploads: map<nat, Upload>, locks: map<nat, nat>)

  datatype Action =
    | AddRecord(record: nat)
    | DeleteRecord(record: nat)
    | DeletePhoto(id: nat)
    | Begin(u: nat, record: nat, token: Option<nat>)
    | Advance(u: nat)

  function PhotosOf(photos: map<nat, Photo>, record: nat): set<nat> {
    set id | id in photos && photos[id].record == record
  }

  predicate TokenHeld(photos: map<nat, Photo>, record: nat, token: Option<nat>) {
    token.Some? && exists id | id in photos :: photos[id] == Photo(record, token)
  }

  ghost function Holder(photos: map<nat, Photo>, record: nat, token: Option<nat>): (id: nat)
    requires TokenHeld(photos, record, token)
    ensures id in photos && photos[id] == Photo(record, token)
  {
    var id :| id in photos && photos[id] == Photo(record, token);
    id
  }

  function Moved(w: World, u: nat, pc: Pc): World
    requires u in w.uploads
  {
    w.(uploads := w.uploads[u := w.uploads[u].(pc := pc)])
  }

  /** The transaction ends: the answer is given and the lock released. */
  function Ended(w: World, u: nat, answer: Answer): World
    requires u in w.uploads
  {
    Moved(w.(locks := w.locks - {w.uploads[u].record}), u, Answered(answer))
  }

  /** The next statement of `create_visit_record_photo`. The insert becomes visible with the commit. */
  ghost function AdvanceStep(w: World, u: nat): World
    requires u in w.uploads
  {
    var me := w.uploads[u];
    match me.pc
    case Waiting =>
      if me.record !in w.records then Moved(w, u, Answered(RecordGone))
      else if me.record in w.locks then w
      else Moved(w.(locks := w.locks[me.record := u]), u, Looking)
    case Looking =>
      if TokenHeld(w.photos, me.record, me.token) then Ended(w, u, Existing(Holder(w.photos, me.record, me.token)))
      else Moved(w, u, Counting)
    case Counting =>
      if |PhotosOf(w.photos, me.record)| >= MAX_PHOTOS_PER_RECORD then Ended(w, u, LimitExceeded)
      else Moved(w, u, Inserting)
    case Inserting =>
      if TokenHeld(w.photos, me.record, me.token) then Ended(w, u, Existing(Holder(w.photos, me.record, me.token)))
      else Moved(w, u, Committing)
    case Committing =>
      Ended(w.(photos := w.photos[w.next := Photo(me.record, me.token)], next := w.next + 1), u, Created(w.next))
    case Answered(_) => w
  }

  /** Deleting a record waits for its lock and takes its photos along; deleting a photo waits for nothing. */
  ghost function Step(w: World, a: Action): World {
    match a
    case AddRecord(record) =>
      w.(records := w.records + {record})
    case DeleteRecord(record) =>
      if record !in w.records || record in w.locks then w
      else w.(records := w.records - {record}, photos := w.photos - PhotosOf(w.photos, record))
    case DeletePhoto(id) => w.(photos := w.photos - {id})
    case Begin(u, record, token) => if u in w.uploads then w else w.(uploads := w.uploads[u := Upload(record, token, Waiting)])
    case Advance(u) => if u in w.uploads then AdvanceStep(w, u) else w
  }

  ghost function After(w: World, actions: seq<Action>): World {
    if actions == [] then w else Step(After(w, actions[..|actions| - 1]), actions[|actions| - 1])
  }

  // ---------------------------------------------------------------- the invariant

  predicate Locking(pc: Pc) {
    pc.Looking? || pc.Counting? || pc.Inserting? || pc.Committing?
  }

  predicate TokensUnique(photos: map<nat, Photo>) {
    forall i, j | i in photos && j in photos && i != j && photos[i] == photos[j] :: photos[i].token.None?
  }

  /** An upload past its lock holds it, on a record that exists. */
  predicate LocksHeld(records: set<nat>, uploads: map<nat, Upload>, locks: map<nat, nat>) {
    && (forall u | u in uploads && Locking(uploads[u].pc) ::
          uploads[u].record in records && uploads[u].record in locks && locks[uploads[u].record] == u)
    && (forall r | r in locks :: locks[r] in uploads && uploads[locks[r]].record == r && Locking(uploads[locks[r]].pc))
  }

  /** What an upload has read stays true while it holds the lock: its token is free, and there is room. */
  predicate Knows(photos: map<nat, Photo>, me: Upload) {
    && (me.pc.Counting? || me.pc.Inserting? || me.pc.Committing? ==> !TokenHeld(photos, me.record, me.token))
    && (me.pc.Inserting? || me.pc.Committing? ==> |PhotosOf(photos, me.record)| < MAX_PHOTOS_PER_RECORD)
  }

  ghost predicate Within(photos: map<nat, Photo>) {
    forall r: nat :: |PhotosOf(photos, r)| <= MAX_PHOTOS_PER_RECORD
  }

  ghost predicate Inv(w: World) {
    && (forall id | id in w.photos :: id < w.next && w.photos[id].record in w.records)
    && TokensUnique(w.photos)
    && Within(w.photos)
    && LocksHeld(w.records, w.uploads, w.locks)
    && forall u | u in w.uploads :: Knows(w.photos, w.uploads[u])
  }

  // ---------------------------------------------------------------- what each step keeps

  lemma FewerPhotos(photos: map<nat, Photo>, later: map<nat, Photo>, record: nat)
    requires forall id | id in later :: id in photos && later[id] == photos[id]
    ensures |PhotosOf(later, record)| <= |PhotosOf(photos, record)|
    ensures forall token | TokenHeld(later, record, token) :: TokenHeld(photos, record, token)
  {
    assert PhotosOf(later, record) <= PhotosOf(photos, record);
    Smaller(PhotosOf(later, record), PhotosOf(photos, record));
  }

  lemma {:induction false} Smaller(s: set<nat>, t: set<nat>)
    requires s <= t
    ensures |s| <= |t|
  {
    if s != {} {
      var x :| x in s;
      Smaller(s - {x}, t - {x});
    }
  }

  /** Deletions take nothing away from what uploads know. */
  lemma DeletionKeeps(w: World, records: set<nat>, photos: map<nat, Photo>)
    requires Inv(w) && forall id | id in photos :: id in w.photos && photos[id] == w.photos[id] && photos[id].record in records
    requires forall u | u in w.uploads && Locking(w.uploads[u].pc) :: w.uploads[u].record in records
    ensures Inv(w.(records := records, photos := photos))
  {
    forall r: nat
      ensures |PhotosOf(photos, r)| <= |PhotosOf(w.photos, r)|
      ensures forall token | TokenHeld(photos, r, token) :: TokenHeld(w.photos, r, token)
    {
      FewerPhotos(w.photos, photos, r);
    }
  }

  lemma OneMorePhoto(photos: map<nat, Photo>, id: nat, photo: Photo)
    requires id !in photos
    ensures |PhotosOf(photos[id := photo], photo.record)| == |PhotosOf(photos, photo.record)| + 1
    ensures forall r | r != photo.record :: PhotosOf(photos[id := photo], r) == PhotosOf(photos, r)
    ensures forall r, token | r != photo.record && TokenHeld(photos[id := photo], r, token) :: TokenHeld(photos, r, token)
  {
    assert PhotosOf(photos[id := photo], photo.record) == PhotosOf(photos, photo.record) + {id};
  }

  lemma LockTaken(w: World, u: nat)
    requires LocksHeld(w.records, w.uploads, w.locks) && u in w.uploads && w.uploads[u].pc.Waiting?
    requires w.uploads[u].record in w.records && w.uploads[u].record !in w.locks
    ensures var later := AdvanceStep(w, u); LocksHeld(later.records, later.uploads, later.locks)
  {
  }

  lemma LockKept(w: World, u: nat, pc: Pc)
    requires LocksHeld(w.records, w.uploads, w.locks) && u in w.uploads && (Locking(w.uploads[u].pc) <==> Locking(pc))
    ensures LocksHeld(w.records, Moved(w, u, pc).uploads, w.locks)
  {
  }

  lemma LockReleased(w: World, u: nat, answer: Answer)
    requires LocksHeld(w.records, w.uploads, w.locks) && u in w.uploads && Locking(w.uploads[u].pc)
    ensures var later := Ended(w, u, answer); LocksHeld(later.records, later.uploads, later.locks)
  {
  }

  /** A new photo under the lock, its token free and room for it. */
  lemma NewPhotoFits(photos: map<nat, Photo>, id: nat, photo: Photo)
    requires id !in photos && TokensUnique(photos) && Within(photos)
    requires !TokenHeld(photos, photo.record, photo.token) && |PhotosOf(photos, photo.record)| < MAX_PHOTOS_PER_RECORD
    ensures TokensUnique(photos[id := photo]) && Within(photos[id := photo])
  {
    OneMorePhoto(photos, id, photo);
    var later := photos[id := photo];
    forall r: nat
      ensures |PhotosOf(later, r)| <= MAX_PHOTOS_PER_RECORD
    {
      assert r != photo.record ==> PhotosOf(later, r) == PhotosOf(photos, r);
    }
  }

  lemma CommitKeeps(w: World, u: nat)
    requires Inv(w) && u in w.uploads && w.uploads[u].pc.Committing?
    ensures Inv(AdvanceStep(w, u))
  {
    var me, later := w.uploads[u], AdvanceStep(w, u);
    assert Knows(w.photos, me);
    NewPhotoFits(w.photos, w.next, Photo(me.record, me.token));
    LockReleased(w, u, Created(w.next));
    OneMorePhoto(w.photos, w.next, Photo(me.record, me.token));
    forall other | other in later.uploads
      ensures Knows(later.photos, later.uploads[other])
    {
      assert other != u && Locking(w.uploads[other].pc) ==> w.uploads[other].record != me.record;
    }
  }

  /** An advance that adds no photo. */
  lemma ReadKeeps(w: World, later: World, u: nat)
    requires Inv(w) && u in w.uploads && u in later.uploads
    requires later == w.(uploads := w.uploads[u := later.uploads[u]], locks := later.locks)
    requires LocksHeld(later.records, later.uploads, later.locks) && Knows(later.photos, later.uploads[u])
    ensures Inv(later)
  {
  }

  lemma AdvanceKeeps(w: World, u: nat)
    requires Inv(w) && u in w.uploads
    ensures Inv(AdvanceStep(w, u))
  {
    var me, later := w.uploads[u], AdvanceStep(w, u);
    assert Knows(w.photos, me);
    if me.pc.Committing? {
      CommitKeeps(w, u);
    } else if me.pc.Waiting? {
      if me.record !in w.records {
        LockKept(w, u, Answered(RecordGone));
        ReadKeeps(w, later, u);
      } else if me.record !in w.locks {
        LockTaken(w, u);
        ReadKeeps(w, later, u);
      }
    } else if later.uploads[u].pc.Answered? {
      if !me.pc.Answered? {
        LockReleased(w, u, later.uploads[u].pc.answer);
        ReadKeeps(w, later, u);
      }
    } else {
      LockKept(w, u, later.uploads[u].pc);
      ReadKeeps(w, later, u);
    }
  }

  lemma StepKeeps(w: World, a: Action)
    requires Inv(w)
    ensures Inv(Step(w, a))
  {
    match a
    case AddRecord(record) =>
    case DeleteRecord(record) =>
      if record in w.records && record !in w.locks {
        DeletionKeeps(w, w.records - {record}, w.photos - PhotosOf(w.photos, record));
      }
    case DeletePhoto(id) => DeletionKeeps(w, w.records, w.photos - {id});
    case Begin(u, record, token) =>
    case Advance(u) =>
      if u in w.uploads {
        AdvanceKeeps(w, u);
      }
  }

  // ---------------------------------------------------------------- theorems

  /** In every interleaving each record has at most five photos and at most one per token. */
  lemma {:induction false} PhotosStayWithinBounds(w: World, actions: seq<Action>)
    requires Inv(w)
    ensures Inv(After(w, actions))
    ensures var photos := After(w, actions).photos;
            && (forall r: nat :: |PhotosOf(photos, r)| <= 5)
            && forall i, j | i in photos && j in photos && photos[i] == photos[j] && photos[i].token.Some? :: i == j
  {
    if actions != [] {
      PhotosStayWithinBounds(w, actions[..|actions| - 1]);
      StepKeeps(After(w, actions[..|actions| - 1]), actions[|actions| - 1]);
    }
  }

  /** A world with any records and no uploads under way. */
  lemma AnyFewPhotosAreSound(records: set<nat>, photos: map<nat, Photo>, next: nat)
    requires TokensUnique(photos) && Within(photos) && forall id | id in photos :: id < next && photos[id].record in records
    ensures Inv(World(records, photos, next, map[], map[]))
  {
  }

  /** The answers, over every interleaving. A replay that finds its photo while holding the lock is answered with that
      photo, five photos or not. The limit is reported only to an upload whose photo does not exist, with five photos in
      place. A photo is created only where there was room and no photo with the token, and the unique constraint never has
      to step in. */
  lemma AnswersAreRight(start: World, actions: seq<Action>, u: nat)
    requires Inv(start)
    requires var w := After(start, actions); u in w.uploads && !w.uploads[u].pc.Answered? && Step(w, Advance(u)).uploads[u].pc.Answered?
    ensures var w, later := After(start, actions), Step(After(start, actions), Advance(u));
            var me := w.uploads[u];
            var room := |PhotosOf(w.photos, me.record)| < MAX_PHOTOS_PER_RECORD;
            && !me.pc.Inserting?
            && match later.uploads[u].pc.answer
               case Existing(id) =>
                 later.photos == w.photos && id in w.photos && w.photos[id] == Photo(me.record, me.token) && me.token.Some?
               case Created(id) =>
                 && room && !TokenHeld(w.photos, me.record, me.token)
                 && id !in w.photos && later.photos == w.photos[id := Photo(me.record, me.token)]
               case LimitExceeded => !room && !TokenHeld(w.photos, me.record, me.token) && later.photos == w.photos
               case RecordGone => me.record !in w.records && later.photos == w.photos
  {
    PhotosStayWithinBounds(start, actions);
    var w := After(start, actions);
    assert Knows(w.photos, w.uploads[u]);
    assert Inv(w);
  }

  /** The replay of a token whose photo is there returns that photo at the first statement under the lock. */
  lemma ReplayReturnsThePhoto(start: World, actions: seq<Action>, u: nat, id: nat)
    requires Inv(start)
    requires var w := After(start, actions);
             && u in w.uploads && w.uploads[u].pc.Looking? && w.uploads[u].token.Some?
             && id in w.photos && w.photos[id] == Photo(w.uploads[u].record, w.uploads[u].token)
    ensures Step(After(start, actions), Advance(u)).uploads[u].pc == Answered(Existing(id))
  {
    PhotosStayWithinBounds(start, actions);
    var w := After(start, actions);
    var me := w.uploads[u];
    assert TokenHeld(w.photos, me.record, me.token);
    var found := Holder(w.photos, me.record, me.token);
    assert w.photos[found] == w.photos[id];
  }

  // ---------------------------------------------------------------- one upload in full

  /** The states an upload leads through, statement by statement, with nobody else about. */
  ghost predicate Alone(ws: seq<World>, u: nat) {
    forall n: nat | n < |ws| - 1 :: ws[n + 1] == Step(ws[n], Advance(u))
  }

  lemma AnsweredStays(w: World, u: nat)
    requires u in w.uploads && w.uploads[u].pc.Answered?
    ensures Step(w, Advance(u)) == w
  {
  }

  predicate HoldsToken(w: World, me: Upload) {
    me.token.Some? && exists id | id in w.photos :: w.photos[id] == Photo(me.record, me.token)
  }

  predicate IsFull(w: World, record: nat) {
    |set id | id in w.photos && w.photos[id].record == record| >= 5
  }

  /** The upload is over, its record free again, and nothing else but possibly one photo has changed. */
  predicate Ends(w: World, end: World, u: nat, locks: map<nat, nat>)
    requires u in w.uploads
  {
    end.records == w.records && end.locks == locks && end.uploads.Keys == w.uploads.Keys && end.uploads[u].pc.Answered?
  }

  ghost predicate AnsweredRightly(w: World, me: Upload, answer: Answer, photos: map<nat, Photo>) {
    if me.record !in w.records then answer == RecordGone && photos == w.photos
    else if HoldsToken(w, me) then
      answer.Existing? && answer.id in w.photos && w.photos[answer.id] == Photo(me.record, me.token) && photos == w.photos
    else if IsFull(w, me.record) then answer == LimitExceeded && photos == w.photos
    else answer.Created? && answer.id !in w.photos && photos == w.photos[answer.id := Photo(me.record, me.token)]
  }

  lemma LookStep(w: World, u: nat)
    requires u in w.uploads && w.uploads[u].pc == Looking
    ensures var a, me := Step(w, Advance(u)), w.uploads[u];
            if HoldsToken(w, me) then
              && Ends(w, a, u, w.locks - {me.record}) && a.photos == w.photos
              && var answer := a.uploads[u].pc.answer;
                 answer.Existing? && answer.id in w.photos && w.photos[answer.id] == Photo(me.record, me.token)
            else a == Moved(w, u, Counting)
  {
  }

  lemma CountStep(w: World, u: nat)
    requires u in w.uploads && w.uploads[u].pc == Counting
    ensures var a, me := Step(w, Advance(u)), w.uploads[u];
            if IsFull(w, me.record) then
              Ends(w, a, u, w.locks - {me.record}) && a.photos == w.photos && a.uploads[u].pc.answer == LimitExceeded
            else a == Moved(w, u, Inserting)
  {
    assert PhotosOf(w.photos, w.uploads[u].record) == set id | id in w.photos && w.photos[id].record == w.uploads[u].record;
  }

  lemma InsertSteps(w: World, a: World, b: World, u: nat)
    requires u in w.uploads && w.uploads[u].pc == Inserting && !HoldsToken(w, w.uploads[u])
    requires a == Step(w, Advance(u)) && b == Step(a, Advance(u))
    ensures var me := w.uploads[u];
            && Ends(w, b, u, w.locks - {me.record}) && b.uploads[u].pc.answer == Created(w.next)
            && b.photos == w.photos[w.next := Photo(me.record, me.token)]
  {
    assert a == Moved(w, u, Committing);
  }

  lemma LockStep(w: World, u: nat)
    requires u in w.uploads && w.uploads[u].pc == Waiting && w.uploads[u].record !in w.locks
    ensures var a, me := Step(w, Advance(u)), w.uploads[u];
            if me.record !in w.records then Ends(w, a, u, w.locks) && a.photos == w.photos && a.uploads[u].pc.answer == RecordGone
            else a == Moved(w.(locks := w.locks[me.record := u]), u, Looking) && a.locks - {me.record} == w.locks
  {
  }

  lemma UploadUnderLock(ws: seq<World>, u: nat)
    requires |ws| == 5 && Alone(ws, u) && u in ws[0].uploads && ws[0].uploads[u].pc == Looking
    requires ws[0].uploads[u].record in ws[0].records && forall id | id in ws[0].photos :: id < ws[0].next
    ensures var w, end, me := ws[0], ws[4], ws[0].uploads[u];
            Ends(w, end, u, w.locks - {me.record}) && AnsweredRightly(w, me, end.uploads[u].pc.answer, end.photos)
  {
    var w, me := ws[0], ws[0].uploads[u];
    assert ws[0 + 1] == Step(ws[0], Advance(u)) && ws[1 + 1] == Step(ws[1], Advance(u));
    assert ws[2 + 1] == Step(ws[2], Advance(u)) && ws[3 + 1] == Step(ws[3], Advance(u));
    LookStep(w, u);
    if HoldsToken(w, me) {
      AnsweredStays(ws[1], u);
    } else {
      CountStep(ws[1], u);
      assert IsFull(ws[1], me.record) <==> IsFull(w, me.record);
      if IsFull(w, me.record) {
        AnsweredStays(ws[2], u);
      } else {
        InsertSteps(ws[2], ws[3], ws[4], u);
      }
    }
  }

  /** An upload whose record is free and that nobody disturbs is answered after its five statements: with the photo that
      holds its token, else with the limit if the record has five, else with its own new photo. */
  lemma UndisturbedUpload(ws: seq<World>, u: nat)
    requires |ws| == 6 && Alone(ws, u) && Inv(ws[0])
    requires u in ws[0].uploads && ws[0].uploads[u].pc == Waiting && ws[0].uploads[u].record !in ws[0].locks
    ensures var w, end, me := ws[0], ws[5], ws[0].uploads[u];
            Ends(w, end, u, w.locks) && AnsweredRightly(w, me, end.uploads[u].pc.answer, end.photos)
  {
    var w, me := ws[0], ws[0].uploads[u];
    assert ws[0 + 1] == Step(ws[0], Advance(u));
    LockStep(w, u);
    if me.record !in w.records {
      AnsweredStays(ws[1], u);
      assert ws[1 + 1] == ws[1] && ws[2 + 1] == ws[1] && ws[3 + 1] == ws[1] && ws[4 + 1] == ws[1];
    } else {
      assert Alone(ws[1..], u) by {
        forall n: nat | n < 4
          ensures ws[1..][n + 1] == Step(ws[1..][n], Advance(u))
        {
          assert ws[n + 1 + 1] == Step(ws[n + 1], Advance(u));
        }
      }
      UploadUnderLock(ws[1..], u);
    }
  }

  /** A record goes with its photos, unless an upload holds it; a photo goes alone and at any time. */
  lemma DeletionsDoThis(w: World, record: nat, id: nat)
    ensures var r := Step(w, DeleteRecord(record));
            if record in w.records && record !in w.locks then
              r == w.(records := w.records - {record}, photos := map p | p in w.photos && w.photos[p].record != record :: w.photos[p])
            else r == w
    ensures Step(w, DeletePhoto(id)) == w.(photos := map p | p in w.photos && p != id :: w.photos[p])
  {
  }
}
