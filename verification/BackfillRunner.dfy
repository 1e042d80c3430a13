/**
 The resumable runner over one pending-row job. A run can be refused, cancelled, fail or die between
 any two statements; a statement can be lost, or take effect and report an error. `calm` stands for a
 run in which none of that happens.
 */
module BackfillRunner {
  import opened Common
  import opened OrderedScan
  import opened AuthorTable

  const DEFAULT_CHUNK_SIZE := 100

  datatype Status = Running | Paused | Done | Stopped

  datatype Checkpoint = Checkpoint(status: Status, lastCursor: int, rowsTotal: int, rowsDone: int)

  datatype Cause = Drift | WriteConflict | Database

  datatype Chunk = Processed(cursor: int, processed: nat, done: bool) | Refused(cause: Cause)

  datatype Ending =
    | LockHeld | NotLoaded | AlreadyCompleted | Died
    | PausedRun(persisted: bool) | FailedRun(cause: Cause, persisted: bool) | CompletedRun(persisted: bool)

  /** Some row the scan will reach carries a text the job refuses to bless. */
  ghost predicate Blocked(job: Job, normalize: Normalizer, rows: seq<Author>) {
    exists i :: 0 <= i < |rows| && rows[i].id > 0 && Pending(job, rows[i]) && Drifts(job, normalize, rows[i])
  }

  /** The selected rows are pending and share no id, so the UPDATE reaches every one of them. */
  lemma ChunkIsWritable(job: Job, normalize: Normalizer, rows: seq<Author>, cursor: int, n: nat,
                        values: map<int, string>)
    requires Table(rows) && n <= |Select(job, rows, cursor)|
    requires var chunk := Select(job, rows, cursor)[..n];
             && values.Keys == (set id | id in Ids(chunk))
             && forall i :: 0 <= i < n ==> chunk[i].id in values && values[chunk[i].id] == normalize(chunk[i].name)
    ensures var ids := Ids(Select(job, rows, cursor)[..n]);
            && UpdateRows(rows, values) == StampAll(normalize, rows, ids)
            && Affected(rows, values) == n
  {
    var chunk := Select(job, rows, cursor)[..n];
    var ids := Ids(chunk);
    SelectIsAbove(job, rows, cursor);
    assert ids == Above(Self, PendingKeys(job, rows), cursor)[..n];
    forall i | 0 <= i < |rows| && rows[i].id in ids
      ensures Pending(job, rows[i]) && values[rows[i].id] == normalize(rows[i].name)
    {
      var k :| 0 <= k < n && ids[k] == rows[i].id;
      assert chunk[k] in Select(job, rows, cursor);
      SameIdSameRow(rows, rows[i], chunk[k]);
    }
    UpdateIsStamp(job, normalize, rows, ids, values);
    PendingKeysAscend(job, rows);
    WithoutShrinks(Self, PendingKeys(job, rows), cursor, n);
  }

  lemma ChunkIdsDiffer(job: Job, rows: seq<Author>, cursor: int, n: nat)
    requires Table(rows) && n <= |Select(job, rows, cursor)|
    ensures forall i, j :: 0 <= i < j < n ==>
              Select(job, rows, cursor)[i].id != Select(job, rows, cursor)[j].id
  {
    SelectIsAbove(job, rows, cursor);
    PendingKeysAscend(job, rows);
    AboveAscends(Self, PendingKeys(job, rows), cursor);
    assert forall i :: 0 <= i < n ==> Select(job, rows, cursor)[i].id == Above(Self, PendingKeys(job, rows), cursor)[i];
  }

  /** A committed chunk moves its rows from the waiting ones, wherever the cursor stood behind them. */
  lemma ChunkAdvances(job: Job, normalize: Normalizer, rows: seq<Author>, cursor: int, ids: seq<int>)
    requires Table(rows) && 0 < |ids| <= |Above(Self, PendingKeys(job, rows), cursor)|
    requires ids == Above(Self, PendingKeys(job, rows), cursor)[..|ids|]
    requires Above(Self, PendingKeys(job, rows), 0) == Above(Self, PendingKeys(job, rows), cursor)
    ensures var keys := PendingKeys(job, StampAll(normalize, rows, ids));
            && Ascending(Self, keys) && |keys| + |ids| == |PendingKeys(job, rows)|
            && ids + Above(Self, keys, 0) == Above(Self, PendingKeys(job, rows), 0)
            && Above(Self, keys, ids[|ids| - 1]) == Above(Self, keys, 0)
            && ids[|ids| - 1] > cursor
  {
    PendingKeysAscend(job, rows);
    StampRemoves(job, normalize, rows, ids);
    ScanStep(Self, PendingKeys(job, rows), 0, cursor, |ids|);
  }

  /** A cursor with no row waiting behind it stays so, whatever is stamped. */
  lemma CursorStaysBehind(job: Job, normalize: Normalizer, rows: seq<Author>, cursor: int, ids: seq<int>)
    requires Above(Self, PendingKeys(job, rows), cursor) == Above(Self, PendingKeys(job, rows), 0)
    ensures var keys := PendingKeys(job, StampAll(normalize, rows, ids));
            Above(Self, keys, cursor) == Above(Self, keys, 0)
  {
    StampRemoves(job, normalize, rows, ids);
    AboveWithout(Self, PendingKeys(job, rows), cursor, ids);
    AboveWithout(Self, PendingKeys(job, rows), 0, ids);
  }

  /** A pending row has never been stamped, so it is still as it was at first. */
  lemma PendingIsUntouched(job: Job, normalize: Normalizer, first: seq<Author>, stamped: seq<int>, a: Author)
    requires a in StampAll(normalize, first, stamped) && Pending(job, a)
    ensures a in first && a.id !in stamped
  {
    StampAllAt(normalize, first, stamped);
    var i :| 0 <= i < |first| && StampAll(normalize, first, stamped)[i] == a;
    assert first[i] in first;
  }

  /** The chunk's rows that drift would have drifted at first. */
  lemma DriftAtFirst(job: Job, normalize: Normalizer, first: seq<Author>, stamped: seq<int>, cursor: int, n: nat)
    requires cursor >= 0 && n <= |Select(job, StampAll(normalize, first, stamped), cursor)|
    ensures var chunk := Select(job, StampAll(normalize, first, stamped), cursor)[..n];
            && (forall i :: 0 <= i < n && Drifts(job, normalize, chunk[i]) ==> Blocked(job, normalize, first))
            && (Table(first) ==> forall i, k :: 0 <= i < |first| && 0 <= k < n && first[i].id == chunk[k].id ==> first[i] == chunk[k])
  {
    var rows := StampAll(normalize, first, stamped);
    SelectIsAbove(job, rows, cursor);
    var chunk := Select(job, rows, cursor)[..n];
    forall k | 0 <= k < n
      ensures chunk[k] in first && Pending(job, chunk[k]) && chunk[k].id > 0
    {
      assert chunk[k] in Select(job, rows, cursor);
      PendingIsUntouched(job, normalize, first, stamped, chunk[k]);
    }
  }

  /** A row that blocks the job is among the rows that waited at first. */
  lemma BlockedKeyWaits(job: Job, normalize: Normalizer, rows: seq<Author>, stamped: seq<int>)
    requires stamped == Above(Self, PendingKeys(job, rows), 0)
    requires forall i :: 0 <= i < |rows| && rows[i].id in stamped ==> !Drifts(job, normalize, rows[i])
    ensures !Blocked(job, normalize, rows)
  {
    forall i | 0 <= i < |rows| && rows[i].id > 0 && Pending(job, rows[i])
      ensures rows[i].id in stamped
    {
      PendingKeyListed(job, rows, i);
    }
  }

  lemma {:induction false} PendingKeyListed(job: Job, rows: seq<Author>, i: nat)
    requires i < |rows| && Pending(job, rows[i])
    ensures rows[i].id in PendingKeys(job, rows)
  {
    if i > 0 {
      PendingKeyListed(job, rows[1..], i - 1);
    }
  }

  /** A row the job finishes: it has an id above 0 and lacks what the job fills. */
  predicate Lacks(job: Job, a: Author) {
    a.id > 0 && match job
                case FillNameSearch => a.search == None
                case StampVersion => a.version == None
  }

  /** Every row that lacked something now has the text derived from its name, at version 1; no other row changed. */
  ghost predicate AllFinished(job: Job, normalize: Normalizer, before: seq<Author>, after: seq<Author>) {
    && |after| == |before|
    && forall i :: 0 <= i < |after| ==>
         var a := before[i];
         after[i] == if Lacks(job, a) then Author(a.id, a.name, Some(normalize(a.name)), Some(1)) else a
  }

  lemma StampedAll(job: Job, normalize: Normalizer, rows: seq<Author>)
    requires Table(rows)
    ensures AllFinished(job, normalize, rows, StampAll(normalize, rows, Above(Self, PendingKeys(job, rows), 0)))
  {
    hide Above, Drifts;
    var ids := Above(Self, PendingKeys(job, rows), 0);
    StampAllAt(normalize, rows, ids);
    PendingKeysAscend(job, rows);
    forall i | 0 <= i < |rows| ensures rows[i].id in ids <==> Lacks(job, rows[i]) {
      if Pending(job, rows[i]) {
        PendingKeyListed(job, rows, i);
      }
      if rows[i].id in ids {
        var k :| 0 <= k < |rows| && rows[k].id == rows[i].id && Pending(job, rows[k]);
        SameIdSameRow(rows, rows[i], rows[k]);
      }
    }
  }

  /** The job is blocked by a row with an id above 0 and a text but no version, whose text is not the derived one. */
  lemma BlockedExactly(job: Job, normalize: Normalizer, rows: seq<Author>)
    ensures Blocked(job, normalize, rows) <==>
            job == StampVersion
            && exists a :: a in rows && a.id > 0 && a.version == None && a.search.Some? && a.search != Some(normalize(a.name))
  {}

  method Answer(calm: bool) returns (r: WriteResult)
    ensures calm ==> r.Written?
  {
    r := *;
    if calm {
      r := Written;
    }
  }

  method Happens(calm: bool) returns (b: bool)
    ensures calm ==> !b
  {
    b := *;
    b := b && !calm;
  }

  // ---- The checkpoint row, for any job ------------------------------------------------------

  /** The checkpoint a run begins with: new or restarted jobs at cursor 0, others where they were, with a refreshed total. */
  function Begun(row: Option<Checkpoint>, restart: bool, remaining: nat): Checkpoint {
    if row.None? || restart then Checkpoint(Running, 0, remaining, 0)
    else Checkpoint(Running, row.value.lastCursor, row.value.rowsDone + remaining, row.value.rowsDone)
  }

  /** loadOrInitState: `remaining` is what CountRemaining finds. */
  method LoadCheckpoint(row: Option<Checkpoint>, restart: bool, remaining: nat, calm: bool)
    returns (refusal: Option<Ending>, state: Checkpoint, stored: Option<Checkpoint>)
    ensures refusal.None? ==> state == Begun(row, restart, remaining) && stored == Some(state)
    ensures stored == row || stored == Some(Begun(row, restart, remaining)) || (row.None? && stored == Some(Checkpoint(Running, 0, 0, 0)))
    ensures row.Some? && row.value.status.Done? && !restart ==> refusal.Some? && stored == row
    ensures refusal.Some? ==> refusal.value.LockHeld? || refusal.value.NotLoaded? || refusal.value.AlreadyCompleted? || refusal.value.Died?
    ensures refusal.Some? && refusal.value.AlreadyCompleted? ==> row.Some? && row.value.status.Done? && !restart
    ensures calm && refusal.Some? ==> refusal.value.AlreadyCompleted?
  {
    state, stored := Checkpoint(Running, 0, 0, 0), row;
    var unread := Happens(calm);
    if unread {
      return Some(NotLoaded), state, stored;
    }
    var found := row.Some?;
    if found {
      state := row.value;
    }
    if found && state.status.Done? && !restart {
      return Some(AlreadyCompleted), state, stored;
    }
    if !found || restart {
      state := state.(lastCursor := 0, rowsDone := 0);
    }
    if !found {
      var seed := Answer(calm);
      if !seed.Lost? {
        stored := Some(Checkpoint(Running, 0, 0, 0));
      }
      if !seed.Written? {
        return Some(NotLoaded), state, stored;
      }
    }
    var dies := Happens(calm);
    if dies {
      return Some(Died), state, stored;
    }
    var uncounted := Happens(calm);
    if uncounted {
      return Some(NotLoaded), state, stored;
    }
    state := Checkpoint(Running, state.lastCursor, state.rowsDone + remaining, state.rowsDone);
    var upsert := Answer(calm);
    if !upsert.Lost? {
      stored := Some(state);
    }
    if !upsert.Written? {
      return Some(NotLoaded), state, stored;
    }
    return None, state, stored;
  }

  /** UPDATE backfill_jobs SET status, last_cursor, rows_done: the total stays as loaded. */
  method StoreCheckpoint(row: Option<Checkpoint>, state: Checkpoint, status: Status, calm: bool)
    returns (stored: Option<Checkpoint>, saved: bool)
    requires row.Some? && row.value.rowsTotal == state.rowsTotal
    ensures calm ==> saved
    ensures stored == row || stored == Some(state.(status := status))
    ensures saved ==> stored == Some(state.(status := status))
  {
    stored := row;
    var write := Answer(calm);
    if !write.Lost? {
      stored := Some(row.value.(status := status, lastCursor := state.lastCursor, rowsDone := state.rowsDone));
    }
    saved := write.Written?;
  }

  class Runner {
    const job: Job
    const normalize: Normalizer
    const chunkSize: int
    var authors: seq<Author>
    var checkpoint: Option<Checkpoint>
    ghost const initial: seq<Author>
    ghost var stamped: seq<int>

    constructor (job: Job, normalize: Normalizer, chunkSize: int, rows: seq<Author>)
      requires Table(rows)
      ensures Valid() && initial == authors == rows && stamped == [] && checkpoint == None
      ensures this.job == job && this.normalize == normalize
    {
      this.job, this.normalize, this.chunkSize := job, normalize, chunkSize;
      authors, initial, checkpoint, stamped := rows, rows, None, [];
      new;
      hide StampAll, Above, Table, Drifts, Stamp, Ascending;
      StampNone(normalize, rows);
      PendingKeysAscend(job, rows);
    }

    ghost function Waiting(): seq<int>
      reads this
    {
      Above(Self, PendingKeys(job, authors), 0)
    }

    /** No row below the cursor is waiting. */
    ghost predicate CursorIsBehind(cursor: int)
      reads this
    {
      cursor >= 0 && Above(Self, PendingKeys(job, authors), cursor) == Waiting()
    }

    ghost predicate CheckpointHolds(c: Checkpoint)
      reads this
    {
      && CursorIsBehind(c.lastCursor)
      && 0 <= c.rowsDone <= |stamped|
      && (c.status.Done? ==> Waiting() == [] && c.rowsDone + |PendingKeys(job, authors)| == c.rowsTotal)
    }

    /**
     The rows stamped so far, in the order they were, followed by the rows still waiting are the rows
     that waited at first; every stamped row carries its derived text, and nothing else has changed.
     */
    ghost predicate Valid()
      reads this
    {
      && Table(initial) && Table(authors)
      && Ascending(Self, PendingKeys(job, initial)) && Ascending(Self, PendingKeys(job, authors))
      && authors == StampAll(normalize, initial, stamped)
      && stamped + Waiting() == Above(Self, PendingKeys(job, initial), 0)
      && (forall i :: 0 <= i < |initial| && initial[i].id in stamped ==> !Drifts(job, normalize, initial[i]))
      && (checkpoint.Some? ==> CheckpointHolds(checkpoint.value))
    }

    /** A state from which another run can go on without losing a row. */
    ghost predicate Resumable(state: Checkpoint)
      reads this
    {
      && CursorIsBehind(state.lastCursor)
      && 0 <= state.rowsDone <= |stamped|
      && checkpoint.Some? && checkpoint.value.rowsTotal == state.rowsTotal
    }

    /** A resumable state in which the rows still pending are exactly those not counted yet. */
    ghost predicate InStep(state: Checkpoint)
      reads this
    {
      Resumable(state) && state.rowsDone + |PendingKeys(job, authors)| == state.rowsTotal
    }

    /** The stored checkpoint lacks at most one chunk of the work done since it was loaded. */
    ghost predicate LosesAtMost(limit: int)
      reads this
    {
      && checkpoint.Some?
      && checkpoint.value.rowsTotal - limit <= checkpoint.value.rowsDone + |PendingKeys(job, authors)| <= checkpoint.value.rowsTotal
    }

    // ---- One chunk ------------------------------------------------------------------------

    ghost function ChunkKeys(cursor: int, limit: nat): seq<int>
      reads this
    {
      var waiting := Above(Self, PendingKeys(job, authors), cursor);
      waiting[..Min(limit, |waiting|)]
    }

    /** The row loop: collect ids and derived texts, and stop at the first drifting row. */
    method VerifyRows(chunk: seq<Author>) returns (drift: bool, ids: seq<int>, values: map<int, string>)
      requires forall i, j :: 0 <= i < j < |chunk| ==> chunk[i].id != chunk[j].id
      ensures drift <==> exists i :: 0 <= i < |chunk| && Drifts(job, normalize, chunk[i])
      ensures !drift ==> ids == Ids(chunk) && values.Keys == (set id | id in ids)
      ensures !drift ==> forall i :: 0 <= i < |chunk| ==> chunk[i].id in values && values[chunk[i].id] == normalize(chunk[i].name)
    {
      ids, values := [], map[];
      for k := 0 to |chunk|
        invariant ids == Ids(chunk[..k]) && values.Keys == (set id | id in ids)
        invariant forall i :: 0 <= i < k ==> !Drifts(job, normalize, chunk[i])
        invariant forall i :: 0 <= i < k ==> chunk[i].id in ids
        invariant forall i :: 0 <= i < k ==> chunk[i].id in values && values[chunk[i].id] == normalize(chunk[i].name)
      {
        if Drifts(job, normalize, chunk[k]) {
          return true, ids, values;
        }
        ids := ids + [chunk[k].id];
        values := values[chunk[k].id := normalize(chunk[k].name)];
      }
      assert chunk[..|chunk|] == chunk;
      drift := false;
    }

    /** Commit the UPDATE of one chunk: rows, cursor and count move together, or nothing does. */
    method CommitChunk(cursor: int, ids: seq<int>, values: map<int, string>, calm: bool) returns (commit: WriteResult)
      requires Valid() && CursorIsBehind(cursor)
      requires 0 < |ids| <= |Above(Self, PendingKeys(job, authors), cursor)|
      requires ids == Above(Self, PendingKeys(job, authors), cursor)[..|ids|]
      requires UpdateRows(authors, values) == StampAll(normalize, authors, ids)
      requires forall i :: 0 <= i < |initial| && initial[i].id in ids ==> !Drifts(job, normalize, initial[i])
      modifies `authors, `stamped
      ensures Valid() && CursorIsBehind(cursor) && (calm ==> commit.Written?)
      ensures commit.Lost? ==> authors == old(authors) && stamped == old(stamped)
      ensures !commit.Lost? ==> stamped == old(stamped) + ids && CursorIsBehind(ids[|ids| - 1])
      ensures !commit.Lost? ==> ids + Waiting() == old(Waiting())
      ensures |PendingKeys(job, authors)| + |stamped| == old(|PendingKeys(job, authors)| + |stamped|)
    {
      hide PendingKeys, StampAll, Above, UpdateRows, Table, Drifts, Stamp, Ascending;
      commit := Answer(calm);
      if !commit.Lost? {
        ChunkAdvances(job, normalize, authors, cursor, ids);
        StampKeepsTable(normalize, authors, ids);
        StampTwice(normalize, initial, stamped, ids);
        CursorStaysBehind(job, normalize, authors, cursor, ids);
        if checkpoint.Some? {
          CursorStaysBehind(job, normalize, authors, checkpoint.value.lastCursor, ids);
        }
        authors := UpdateRows(authors, values);
        stamped := stamped + ids;
      }
    }

    /** The locked SELECT and its row loop: what the UPDATE is going to write, unless a row drifts. */
    method SelectChunk(cursor: int, limit: nat) returns (drift: bool, ids: seq<int>, values: map<int, string>)
      requires Valid() && limit > 0 && CursorIsBehind(cursor)
      ensures drift ==> Blocked(job, normalize, initial)
      ensures !drift ==>
                && ids == ChunkKeys(cursor, limit)
                && UpdateRows(authors, values) == StampAll(normalize, authors, ids) && Affected(authors, values) == |ids|
                && forall i :: 0 <= i < |initial| && initial[i].id in ids ==> !Drifts(job, normalize, initial[i])
    {
      hide PendingKeys, StampAll, Above, UpdateRows, Affected, Table, Drifts, Stamp, Ascending, Select, CheckpointHolds, Blocked, Waiting;
      var matching := Select(job, authors, cursor);
      var limited := Min(limit, |matching|);
      var chunk := matching[..limited];
      SelectIsAbove(job, authors, cursor);
      DriftAtFirst(job, normalize, initial, stamped, cursor, limited);
      assert Ids(chunk) == ChunkKeys(cursor, limit);
      ChunkIdsDiffer(job, authors, cursor, limited);
      drift, ids, values := VerifyRows(chunk);
      if !drift {
        ChunkIsWritable(job, normalize, authors, cursor, limited, values);
      }
    }

    method ProcessChunk(cursor: int, limit: nat, calm: bool) returns (r: Chunk)
      requires Valid() && limit > 0 && CursorIsBehind(cursor)
      modifies `authors, `stamped
      ensures Valid() && CursorIsBehind(cursor)
      ensures |PendingKeys(job, authors)| + |stamped| == old(|PendingKeys(job, authors)| + |stamped|)
      ensures r.Processed? ==>
                && stamped == old(stamped) + old(ChunkKeys(cursor, limit))
                && CursorIsBehind(r.cursor)
                && r.processed == |old(ChunkKeys(cursor, limit))|
                && r.cursor == (if r.processed == 0 then cursor else old(ChunkKeys(cursor, limit))[r.processed - 1])
                && (r.done <==> r.processed < limit)
                && (r.done ==> Waiting() == [])
      ensures r.Refused? ==>
                && !r.cause.WriteConflict?
                && (stamped == old(stamped) || (r.cause.Database? && stamped == old(stamped) + old(ChunkKeys(cursor, limit))))
                && (r.cause.Drift? ==> stamped == old(stamped) && Blocked(job, normalize, initial))
      ensures calm && !Blocked(job, normalize, initial) ==> r.Processed?
      ensures calm && r.Refused? ==> r.cause.Drift?
      ensures old(stamped) <= stamped
    {
      hide PendingKeys, StampAll, Above, UpdateRows, Affected, Table, Drifts, Stamp, Ascending, CheckpointHolds, Blocked;
      var refused := Happens(calm);
      if refused {
        return Refused(Database);
      }
      var drift, ids, values := SelectChunk(cursor, limit);
      if drift {
        return Refused(Drift);
      }
      if |ids| == 0 {
        return Processed(cursor, 0, true);
      }
      if Affected(authors, values) != |ids| {
        return Refused(WriteConflict);
      }
      var commit := CommitChunk(cursor, ids, values, calm);
      if !commit.Written? {
        return Refused(Database);
      }
      return Processed(ids[|ids| - 1], |ids|, |ids| < limit);
    }

    // ---- The checkpoint row ---------------------------------------------------------------

    method SaveCheckpoint(state: Checkpoint, status: Status, calm: bool) returns (saved: bool)
      requires Valid() && Resumable(state)
      requires status.Done? ==> InStep(state) && Waiting() == []
      modifies `checkpoint
      ensures Valid() && Resumable(state)
      ensures calm ==> saved
      ensures checkpoint == old(checkpoint) || checkpoint == Some(state.(status := status))
      ensures saved ==> checkpoint == Some(state.(status := status))
    {
      checkpoint, saved := StoreCheckpoint(checkpoint, state, status, calm);
    }

    method Pause(state: Checkpoint, calm: bool) returns (ending: Ending)
      requires Valid() && Resumable(state)
      modifies `checkpoint
      ensures Valid() && ending.PausedRun?
      ensures checkpoint == old(checkpoint) || checkpoint == Some(state.(status := Paused))
      ensures ending.persisted ==> checkpoint == Some(state.(status := Paused))
    {
      var saved := SaveCheckpoint(state, Paused, calm);
      ending := PausedRun(saved);
    }

    method Fail(state: Checkpoint, cause: Cause, calm: bool) returns (ending: Ending)
      requires Valid() && Resumable(state)
      modifies `checkpoint
      ensures Valid() && ending.FailedRun? && ending.cause == cause && (calm ==> ending.persisted)
      ensures checkpoint == old(checkpoint) || checkpoint == Some(state.(status := Stopped))
      ensures ending.persisted ==> checkpoint == Some(state.(status := Stopped))
    {
      var saved := SaveCheckpoint(state, Stopped, calm);
      ending := FailedRun(cause, saved);
    }

    method Complete(state: Checkpoint, calm: bool) returns (ending: Ending)
      requires Valid() && InStep(state) && Waiting() == []
      modifies `checkpoint
      ensures Valid() && ending.CompletedRun? && (calm ==> ending.persisted)
      ensures checkpoint == old(checkpoint) || checkpoint == Some(state.(status := Done))
      ensures ending.persisted ==> checkpoint == Some(state.(status := Done))
    {
      var saved := SaveCheckpoint(state, Done, calm);
      ending := CompletedRun(saved);
    }

    /** New jobs start at cursor 0, others resume from the stored cursor with a refreshed total. */
    method LoadOrInit(restart: bool, calm: bool) returns (refusal: Option<Ending>, state: Checkpoint)
      requires Valid()
      modifies `checkpoint
      ensures Valid()
      ensures refusal.None? ==> InStep(state) && checkpoint == Some(state) && state.status.Running?
      ensures refusal.None? ==>
                var resumes := old(checkpoint).Some? && !restart;
                && state.lastCursor == (if resumes then old(checkpoint).value.lastCursor else 0)
                && state.rowsDone == (if resumes then old(checkpoint).value.rowsDone else 0)
      ensures old(checkpoint).Some? && old(checkpoint).value.status.Done? && !restart ==>
                refusal.Some? && checkpoint == old(checkpoint)
      ensures refusal.Some? && refusal.value.AlreadyCompleted? ==>
                old(checkpoint).Some? && old(checkpoint).value.status.Done? && !restart
      ensures refusal.Some? ==> !refusal.value.CompletedRun? && !refusal.value.PausedRun? && !refusal.value.FailedRun?
      ensures calm && refusal.Some? ==> refusal.value.AlreadyCompleted?
    {
      hide PendingKeys, StampAll, Above, Table, Drifts, Stamp, Ascending;
      refusal, state, checkpoint := LoadCheckpoint(checkpoint, restart, |PendingKeys(job, authors)|, calm);
    }

    // ---- A whole run ----------------------------------------------------------------------

    /** The stored checkpoint is the state in memory. */
    ghost predicate Recorded(state: Checkpoint)
      reads this
    {
      checkpoint.Some? && checkpoint.value.lastCursor == state.lastCursor && checkpoint.value.rowsDone == state.rowsDone
    }

    /** How a run may end, and what is then on record. */
    ghost predicate Ends(ending: Ending, limit: nat, calm: bool)
      reads this
    {
      && LosesAtMost(limit) && !ending.AlreadyCompleted?
      && (ending.CompletedRun? ==> Waiting() == [])
      && (ending.CompletedRun? && ending.persisted ==> checkpoint.value.status.Done?)
      && (ending.PausedRun? && ending.persisted ==> checkpoint.value.status.Paused?)
      && (ending.FailedRun? ==> !ending.cause.WriteConflict?)
      && (ending.FailedRun? && ending.cause.Drift? ==> Blocked(job, normalize, initial))
      && (calm ==> ending == CompletedRun(true) || ending == FailedRun(Drift, true))
    }

    /** One turn of the loop: a chunk, its checkpoint, and everything that can go wrong around them. */
    method Turn(before: Checkpoint, limit: nat, calm: bool) returns (state: Checkpoint, stop: Option<Ending>)
      requires Valid() && InStep(before) && Recorded(before) && limit > 0
      modifies this
      ensures Valid() && old(stamped) <= stamped
      ensures stop.None? ==> InStep(state) && Recorded(state) && |PendingKeys(job, authors)| < old(|PendingKeys(job, authors)|)
      ensures stop.Some? ==> Ends(stop.value, limit, calm)
    {
      hide PendingKeys, StampAll, Above, Table, Drifts, Stamp, Ascending, Blocked, CheckpointHolds;
      var ending: Ending;
      state := before;
      var cancelled := Happens(calm);
      if cancelled {
        ending := Pause(state, calm);
        return state, Some(ending);
      }
      var chunk := ProcessChunk(state.lastCursor, limit, calm);
      var dies := Happens(calm);
      if dies {
        return state, Some(Died);
      }
      if chunk.Refused? {
        cancelled := Happens(calm);
        if cancelled {
          ending := Pause(state, calm);
        } else {
          ending := Fail(state, chunk.cause, calm);
        }
        return state, Some(ending);
      }
      state := state.(lastCursor := chunk.cursor, rowsDone := state.rowsDone + chunk.processed);
      stop := Record(state, chunk.done, limit, calm);
    }

    /** After a chunk: complete, or store the checkpoint and sleep. */
    method Record(state: Checkpoint, done: bool, limit: nat, calm: bool) returns (stop: Option<Ending>)
      requires Valid() && InStep(state) && LosesAtMost(limit) && (done ==> Waiting() == [])
      modifies `checkpoint
      ensures Valid()
      ensures stop.None? ==> !done && InStep(state) && Recorded(state)
      ensures stop.Some? ==> Ends(stop.value, limit, calm)
    {
      hide PendingKeys, StampAll, Above, Table, Drifts, Stamp, Ascending, Blocked, CheckpointHolds;
      var ending: Ending;
      if done {
        ending := Complete(state, calm);
        return Some(ending);
      }
      var saved := SaveCheckpoint(state, Running, calm);
      if !saved {
        ending := Fail(state, Database, calm);
        return Some(ending);
      }
      var dies := Happens(calm);
      if dies {
        return Some(Died);
      }
      var cancelled := Happens(calm);
      if cancelled {
        ending := Pause(state, calm);
        return Some(ending);
      }
      stop := None;
    }

    /** Chunk after chunk until one reports done, the context is cancelled, something fails, or the process dies. */
    method RunLoop(start: Checkpoint, limit: nat, calm: bool) returns (ending: Ending)
      requires Valid() && InStep(start) && checkpoint == Some(start) && limit > 0
      modifies this
      ensures LosesAtMost(limit)
      ensures Valid() && old(stamped) <= stamped && !ending.AlreadyCompleted?
      ensures ending.CompletedRun? ==> Waiting() == []
      ensures ending.CompletedRun? && ending.persisted ==> checkpoint.Some? && checkpoint.value.status.Done?
      ensures ending.PausedRun? && ending.persisted ==> checkpoint.Some? && checkpoint.value.status.Paused?
      ensures ending.FailedRun? ==> !ending.cause.WriteConflict?
      ensures ending.FailedRun? && ending.cause.Drift? ==> Blocked(job, normalize, initial)
      ensures calm ==> ending == CompletedRun(true) || ending == FailedRun(Drift, true)
      decreases |PendingKeys(job, authors)|
    {
      hide PendingKeys, StampAll, Above, Table, Drifts, Stamp, Ascending, Blocked, CheckpointHolds;
      var state, stop := start, None;
      while stop.None?
        invariant Valid() && old(stamped) <= stamped
        invariant stop.None? ==> InStep(state) && Recorded(state)
        invariant stop.Some? ==> Ends(stop.value, limit, calm)
        decreases stop.None?, |PendingKeys(job, authors)|
      {
        state, stop := Turn(state, limit, calm);
      }
      ending := stop.value;
    }

    /** One invocation of the command. */
    method Run(restart: bool, calm: bool) returns (ending: Ending)
      requires Valid()
      modifies this
      ensures Valid() && old(stamped) <= stamped
      ensures ending.CompletedRun? || ending.PausedRun? || ending.FailedRun? ==> LosesAtMost(if chunkSize <= 0 then DEFAULT_CHUNK_SIZE else chunkSize)
      ensures old(checkpoint).Some? && old(checkpoint).value.status.Done? && !restart ==>
                authors == old(authors) && checkpoint == old(checkpoint) && stamped == old(stamped)
      ensures ending.AlreadyCompleted? ==> old(checkpoint).Some? && old(checkpoint).value.status.Done? && !restart
      ensures ending.CompletedRun? ==> Waiting() == []
      ensures ending.CompletedRun? && ending.persisted ==> checkpoint.Some? && checkpoint.value.status.Done?
      ensures ending.PausedRun? && ending.persisted ==> checkpoint.Some? && checkpoint.value.status.Paused?
      ensures ending.FailedRun? ==> !ending.cause.WriteConflict?
      ensures ending.FailedRun? && ending.cause.Drift? ==> Blocked(job, normalize, initial)
      ensures calm ==> ending == AlreadyCompleted || ending == CompletedRun(true) || ending == FailedRun(Drift, true)
    {
      hide PendingKeys, StampAll, Above, Table, Drifts, Stamp, Ascending, Blocked;
      var limit := if chunkSize <= 0 then DEFAULT_CHUNK_SIZE else chunkSize;
      var unlocked := Happens(calm);
      if unlocked {
        return LockHeld;
      }
      var refusal, state := LoadOrInit(restart, calm);
      if refusal.Some? {
        return refusal.value;
      }
      var dies := Happens(calm);
      if dies {
        return Died;
      }
      ending := RunLoop(state, limit, calm);
    }

    /**
     Whatever happened before: an undisturbed run started afresh or resumed ends with every waiting row
     stamped exactly once and in order, unless a row drifts, and then it stops there. The final table
     and the order of the writes do not depend on the history, and the count is short of the total by
     exactly the pending rows the cursor never visits, those with an id below 1.
     */
    method FinishAfterAnyHistory(restarts: seq<bool>) returns (ending: Ending)
      requires Valid() && stamped == []
      modifies this
      ensures Valid()
      ensures !Blocked(job, normalize, initial) <==> ending == CompletedRun(true)
      ensures Blocked(job, normalize, initial) <==> ending == FailedRun(Drift, true)
      ensures ending.CompletedRun? ==>
                && stamped == Above(Self, PendingKeys(job, initial), 0)
                && authors == StampAll(normalize, initial, stamped) && AllFinished(job, normalize, initial, authors)
                && checkpoint.Some? && checkpoint.value.status.Done?
                && checkpoint.value.rowsTotal - checkpoint.value.rowsDone == |PendingKeys(job, authors)|
                && (forall k :: k in PendingKeys(job, authors) ==> k <= 0)
    {
      hide PendingKeys, StampAll, Above, Table, Drifts, Stamp, Ascending, Blocked;
      for n := 0 to |restarts|
        invariant Valid()
      {
        ending := Run(restarts[n], false);
      }
      var completed := checkpoint.Some? && checkpoint.value.status.Done?;
      ending := Run(completed, true);
      if ending.CompletedRun? {
        StampedAll(job, normalize, initial);
        BlockedKeyWaits(job, normalize, initial, stamped);
      }
    }
  }

  /** A text that was there before is never rewritten, by either job, in any run. */
  lemma TextIsNeverRewritten(r: Runner, i: nat)
    requires r.Valid() && i < |r.initial| && r.initial[i].search.Some?
    ensures i < |r.authors| && r.authors[i].search == r.initial[i].search
  {
    StampAllAt(r.normalize, r.initial, r.stamped);
    var a := r.initial[i];
    if a.id in r.stamped {
      assert a.id in r.stamped + r.Waiting();
      PendingKeysAscend(r.job, r.initial);
      var k :| 0 <= k < |r.initial| && r.initial[k].id == a.id && Pending(r.job, r.initial[k]);
      SameIdSameRow(r.initial, a, r.initial[k]);
    }
  }

  /** One author with id 0: both jobs count it, complete, and leave it as it was. */
  method AuthorZeroIsLeftOut(job: Job, normalize: Normalizer) returns (r: Runner, ending: Ending)
    ensures fresh(r) && ending == CompletedRun(true)
    ensures r.checkpoint.Some? && r.checkpoint.value.status.Done?
    ensures r.checkpoint.value.rowsTotal == 1 && r.checkpoint.value.rowsDone == 0
    ensures r.authors == [Author(0, "a", None, None)]
  {
    var rows := [Author(0, "a", None, None)];
    NothingWaits(job, rows);
    r := new Runner(job, normalize, DEFAULT_CHUNK_SIZE, rows);
    assert !Blocked(job, normalize, rows);
    ending := r.FinishAfterAnyHistory([]);
    StampNone(normalize, rows);
  }

  lemma NothingWaits(job: Job, rows: seq<Author>)
    requires rows == [Author(0, "a", None, None)]
    ensures PendingKeys(job, rows) == [0] && Above(Self, PendingKeys(job, rows), 0) == []
  {
    assert rows[1..] == [];
    assert PendingKeys(job, rows)[1..] == [];
  }
}
