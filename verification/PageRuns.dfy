/**
 The page job under the resumable runner: runs that are refused, cancelled, fail or die between any two
 statements, each with a chunk size of its own, and what an undisturbed run makes of any such history.
 */
module PageRuns {
  import opened Common
  import opened OrderedScan
  import opened QuranPages
  import BackfillRunner

  type Checkpoint = BackfillRunner.Checkpoint

  datatype Cause = OutsideMap | Statement

  datatype Ending =
    | Refused(why: BackfillRunner.Ending) | Died
    | PausedRun(persisted: bool) | FailedRun(cause: Cause, persisted: bool) | CompletedRun(persisted: bool)

  /** What a chunk of the verses still pending takes: with every cursor behind them, the first ones. */
  lemma ChunkIsNext(pages: PageMap, all: seq<Ayah>, n: nat, cursor: int, limit: nat)
    requires n <= |all| && forall i :: n <= i < |all| ==> Cursor(all[i]) > cursor
    ensures var m := Min(limit, |all| - n);
            var waiting := Above(Cursor, all[n..], cursor);
            waiting[..Min(limit, |waiting|)] == all[n..][..m] == all[n..n + m]
  {
    hide Cursor;
    AllAbove(Cursor, all[n..], cursor);
  }

  /** Filling the next verses with pages keeps the rest pending, all of it above the cursor of the last. */
  lemma NextFilled(pages: PageMap, first: seq<Row>, before: seq<Row>, after: seq<Row>, n: nat, m: nat)
    requires TableRows(first) && NumbersFit(pages) && n + m <= |Pending(first)|
    requires Filled(pages, first, before, Pending(first)[..n]) && Filled(pages, before, after, Pending(first)[n..n + m])
    requires forall i :: n <= i < n + m ==> PageOf(pages, Pending(first)[i]).Some?
    ensures var all := Pending(first);
            && Filled(pages, first, after, all[..n + m])
            && (m > 0 ==> forall i :: n + m <= i < |all| ==> Cursor(all[i]) > Cursor(all[n + m - 1]))
  {
    hide Cursor, PageOf, NumbersFit, Filled, Pending, InTable, TableRows;
    var all := Pending(first);
    PendingInTable(first);
    FilledTwice(pages, first, before, after, all[..n], all[n..n + m]);
    assert all[..n] + all[n..n + m] == all[..n + m];
    if m > 0 {
      forall i | n + m <= i < |all| ensures Cursor(all[i]) > Cursor(all[n + m - 1]) {
        LaterLiesAbove(pages, all, n + m - 1, i);
      }
    }
  }

  lemma RestPending(pages: PageMap, first: seq<Row>, rows: seq<Row>, n: nat)
    requires TableRows(first) && n <= |Pending(first)| && Filled(pages, first, rows, Pending(first)[..n])
    ensures Pending(rows) == Pending(first)[n..]
  {
    hide Pending, Without, Distinct, TableRows, InTable;
    PendingInTable(first);
    WithoutPrefix(Pending(first), n);
  }

  lemma AboveZero(rows: seq<Row>)
    requires TableRows(rows)
    ensures forall i :: 0 <= i < |Pending(rows)| ==> Cursor(Pending(rows)[i]) > 0
  {
    hide Pending;
    PendingInTable(rows);
  }

  class PageJob {
    const table: AyahTable
    var checkpoint: Option<Checkpoint>
    ghost const initial: seq<Row>
    ghost var filled: nat

    constructor (pages: PageMap, rows: seq<Row>)
      requires NumbersFit(pages) && TableRows(rows)
      ensures Valid() && fresh(table) && initial == table.rows == rows && table.pages == pages
      ensures filled == 0 && checkpoint == None
    {
      table := new AyahTable(pages, rows);
      checkpoint, initial, filled := None, rows, 0;
      new;
      NothingFilled(pages, rows);
      assert Pending(rows)[..0] == [];
      RestPending(pages, rows, rows, 0);
    }

    /** The verses that had no page at first, in order. */
    ghost function All(): seq<Ayah> {
      Pending(initial)
    }

    /** Every verse still pending lies above the cursor. */
    ghost predicate Behind(cursor: int)
      reads this
    {
      forall i :: filled <= i < |All()| ==> Cursor(All()[i]) > cursor
    }

    /**
     The first `filled` of these verses have the page of the map and the rest are as they were, as is
     every other row; the checkpoint has no verse behind it and never counts more than was filled.
     */
    ghost predicate Valid()
      reads this, table
    {
      && NumbersFit(table.pages) && TableRows(initial) && table.Valid()
      && filled <= |All()|
      && (forall i :: 0 <= i < filled ==> PageOf(table.pages, All()[i]).Some?)
      && Filled(table.pages, initial, table.rows, All()[..filled])
      && Pending(table.rows) == All()[filled..]
      && (checkpoint.Some? ==>
            var c := checkpoint.value;
            && Behind(c.lastCursor) && 0 <= c.rowsDone <= filled
            && (c.status.Done? ==> filled == |All()| && c.rowsDone == c.rowsTotal))
    }

    /** A state another run can go on from; what it does not count is exactly what is pending. */
    ghost predicate InStep(state: Checkpoint)
      reads this
    {
      && Behind(state.lastCursor) && 0 <= state.rowsDone <= filled <= |All()|
      && checkpoint.Some? && checkpoint.value.rowsTotal == state.rowsTotal
      && state.rowsDone + |All()| - filled == state.rowsTotal
    }

    /** The same, but for a chunk that was committed without the runner hearing of it. */
    ghost predicate Resumable(state: Checkpoint)
      reads this
    {
      && Behind(state.lastCursor) && 0 <= state.rowsDone <= filled <= |All()|
      && checkpoint.Some? && checkpoint.value.rowsTotal == state.rowsTotal
    }

    /** Some of the next `limit` pending verses has no page in the map. */
    ghost predicate Blocked(limit: nat)
      reads this, table
    {
      exists i :: filled <= i < |All()| && i < filled + limit && PageOf(table.pages, All()[i]).None?
    }

    method SaveCheckpoint(state: Checkpoint, status: BackfillRunner.Status, calm: bool) returns (saved: bool)
      requires Valid() && Resumable(state)
      requires status.Done? ==> InStep(state) && filled == |All()|
      modifies `checkpoint
      ensures Valid() && Resumable(state) && (old(InStep(state)) ==> InStep(state))
      ensures calm ==> saved
      ensures checkpoint == old(checkpoint) || checkpoint == Some(state.(status := status))
      ensures saved ==> checkpoint == Some(state.(status := status))
    {
      hide Filled, Pending, NumbersFit, TableRows, PageOf, Cursor;
      checkpoint, saved := BackfillRunner.StoreCheckpoint(checkpoint, state, status, calm);
    }

    /** The next verses, and no others, go through a chunk of the table. */
    method FillNext(cursor: int, requested: int, commit: WriteResult) returns (r: Chunk)
      requires Valid() && Behind(cursor)
      modifies table
      ensures table.Valid() && !r.WriteConflict? && (commit.Written? ==> !r.Database?)
      ensures var m := Min(ChunkLimit(requested), |All()| - filled);
              && (r.OutsideProfile? <==> old(Blocked(ChunkLimit(requested))))
              && (r.OutsideProfile? || (commit.Lost? && m > 0) ==> table.rows == old(table.rows))
              && (!r.OutsideProfile? && !(commit.Lost? && m > 0) ==>
                    Filled(table.pages, old(table.rows), table.rows, All()[filled..filled + m]))
              && (r.Processed? ==>
                    && r.processed == m && (r.done <==> m < ChunkLimit(requested)) && (commit.Written? || m == 0)
                    && r.cursor == if m == 0 then cursor else Cursor(All()[filled + m - 1]))
    {
      hide Filled, Pending, NumbersFit, TableRows, Cursor, Above, PageOf;
      ghost var m := Min(ChunkLimit(requested), |All()| - filled);
      ChunkIsNext(table.pages, All(), filled, cursor, ChunkLimit(requested));
      assert table.Taken(cursor, ChunkLimit(requested)) == All()[filled..filled + m];
      TakenBlocked(table.pages, All(), filled, m);
      r := table.ProcessChunk(cursor, requested, commit);
    }

    /** One chunk: the next verses get their page, or nothing changes. */
    method ProcessChunk(cursor: int, requested: int, calm: bool) returns (r: Chunk)
      requires Valid() && Behind(cursor)
      modifies table, `filled
      ensures Valid() && Behind(cursor) && old(filled) <= filled
      ensures r.OutsideProfile? <==> old(Blocked(ChunkLimit(requested)))
      ensures r.OutsideProfile? ==> filled == old(filled)
      ensures r.Processed? ==> Behind(r.cursor) && filled == old(filled) + r.processed
      ensures r.Processed? ==> r.processed == Min(ChunkLimit(requested), |All()| - old(filled))
      ensures r.Processed? ==> (r.done <==> r.processed < ChunkLimit(requested))
      ensures !r.WriteConflict? && (calm ==> !r.Database?)
    {
      hide Filled, Pending, NumbersFit, TableRows, Cursor, PageOf;
      var commit := BackfillRunner.Answer(calm);
      ghost var was, n, m := table.rows, filled, Min(ChunkLimit(requested), |All()| - filled);
      r := FillNext(cursor, requested, commit);
      if !r.OutsideProfile? && !(commit.Lost? && m > 0) {
        NextFilled(table.pages, initial, was, table.rows, n, m);
        filled := n + m;
        RestPending(table.pages, initial, table.rows, filled);
      }
    }

    /** One turn of the runner's loop, with everything that can go wrong around its statements. */
    method Turn(before: Checkpoint, requested: int, calm: bool) returns (state: Checkpoint, stop: Option<Ending>)
      requires Valid() && InStep(before)
      modifies this, table
      ensures Valid() && old(filled) <= filled
      ensures stop.None? ==> InStep(state) && old(filled) < filled
      ensures stop.Some? && stop.value.CompletedRun? ==> filled == |All()|
      ensures stop.Some? && stop.value.FailedRun? && stop.value.cause.OutsideMap? ==> Blocked(ChunkLimit(requested))
      ensures stop.Some? ==> !stop.value.Refused? && (stop.value == CompletedRun(true) ==> checkpoint.Some? && checkpoint.value.status.Done?)
      ensures stop.Some? && calm ==> stop.value == CompletedRun(true) || stop.value == FailedRun(OutsideMap, true)
    {
      hide Filled, Pending, NumbersFit, TableRows, Cursor, PageOf;
      state, stop := before, None;
      var persisted: bool;
      var cancelled := BackfillRunner.Happens(calm);
      if cancelled {
        persisted := SaveCheckpoint(state, BackfillRunner.Paused, calm);
        return state, Some(PausedRun(persisted));
      }
      var chunk := ProcessChunk(state.lastCursor, requested, calm);
      var dies := BackfillRunner.Happens(calm);
      if dies {
        return state, Some(Died);
      }
      if !chunk.Processed? {
        cancelled := BackfillRunner.Happens(calm);
        persisted := SaveCheckpoint(state, if cancelled then BackfillRunner.Paused else BackfillRunner.Stopped, calm);
        stop := Some(if cancelled then PausedRun(persisted)
                     else FailedRun(if chunk.OutsideProfile? then OutsideMap else Statement, persisted));
        return state, stop;
      }
      state := state.(lastCursor := chunk.cursor, rowsDone := state.rowsDone + chunk.processed);
      if chunk.done {
        persisted := SaveCheckpoint(state, BackfillRunner.Done, calm);
        return state, Some(CompletedRun(persisted));
      }
      var saved := SaveCheckpoint(state, BackfillRunner.Running, calm);
      if !saved {
        persisted := SaveCheckpoint(state, BackfillRunner.Stopped, calm);
        return state, Some(FailedRun(Statement, persisted));
      }
      dies := BackfillRunner.Happens(calm);
      if dies {
        return state, Some(Died);
      }
      cancelled := BackfillRunner.Happens(calm);
      if cancelled {
        persisted := SaveCheckpoint(state, BackfillRunner.Paused, calm);
        return state, Some(PausedRun(persisted));
      }
    }

    /** One invocation of the command. */
    method Run(restart: bool, requested: int, calm: bool) returns (ending: Ending)
      requires Valid()
      modifies this, table
      ensures Valid() && old(filled) <= filled
      ensures ending.CompletedRun? ==> filled == |All()|
      ensures ending.FailedRun? && ending.cause.OutsideMap? ==> Blocked(ChunkLimit(requested))
      ensures ending == CompletedRun(true) ==> checkpoint.Some? && checkpoint.value.status.Done?
      ensures calm ==> ending == CompletedRun(true) || ending == FailedRun(OutsideMap, true)
                       || (ending == Refused(BackfillRunner.AlreadyCompleted) && !restart && old(checkpoint).Some? && old(checkpoint).value.status.Done?)
    {
      hide Filled, Pending, NumbersFit, TableRows, Cursor, PageOf;
      var unlocked := BackfillRunner.Happens(calm);
      if unlocked {
        return Refused(BackfillRunner.LockHeld);
      }
      AboveZero(initial);
      var refusal, state, stored := BackfillRunner.LoadCheckpoint(checkpoint, restart, |Pending(table.rows)|, calm);
      checkpoint := stored;
      if refusal.Some? {
        return Refused(refusal.value);
      }
      var dies := BackfillRunner.Happens(calm);
      if dies {
        return Died;
      }
      var stop: Option<Ending> := None;
      while stop.None?
        invariant Valid() && old(filled) <= filled
        invariant stop.None? ==> InStep(state)
        invariant stop.Some? && stop.value.CompletedRun? ==> filled == |All()|
        invariant stop.Some? && stop.value.FailedRun? && stop.value.cause.OutsideMap? ==> Blocked(ChunkLimit(requested))
        invariant stop.Some? ==> !stop.value.Refused? && (stop.value == CompletedRun(true) ==> checkpoint.Some? && checkpoint.value.status.Done?)
        invariant stop.Some? && calm ==> stop.value == CompletedRun(true) || stop.value == FailedRun(OutsideMap, true)
        decreases stop.None?, |All()| - filled
      {
        state, stop := Turn(state, requested, calm);
      }
      ending := stop.value;
    }

    /**
     Whatever happened before, with whatever chunk sizes, an undisturbed run completes exactly when every
     verse that had no page has one in the map. Then each got its page once and the count equals the
     total. Otherwise the job fails, and the verses filled are all up to less than a chunk before the
     first that the map does not know.
     */
    method FinishAfterAnyHistory(restarts: seq<(bool, int)>, requested: int) returns (ending: Ending)
      requires Valid() && filled == 0
      modifies this, table
      ensures Valid()
      ensures ending == CompletedRun(true) <==> FirstOutside(table.pages, All()) == |All()|
      ensures ending == FailedRun(OutsideMap, true) <==> FirstOutside(table.pages, All()) < |All()|
      ensures Filled(table.pages, initial, table.rows, All()[..filled])
      ensures filled <= FirstOutside(table.pages, All())
      ensures ending.CompletedRun? ==> filled == |All()| && Pending(table.rows) == []
      ensures ending.CompletedRun? ==> AllPaged(table.pages, initial, table.rows)
      ensures ending.CompletedRun? ==> checkpoint.Some? && checkpoint.value.status.Done? && checkpoint.value.rowsDone == checkpoint.value.rowsTotal
      ensures ending.FailedRun? ==> FirstOutside(table.pages, All()) < filled + ChunkLimit(requested)
    {
      hide Filled, Pending, NumbersFit, TableRows, Cursor, PageOf, FirstOutside, AllPaged;
      for k := 0 to |restarts|
        invariant Valid()
      {
        ending := Run(restarts[k].0, restarts[k].1, false);
      }
      var completed := checkpoint.Some? && checkpoint.value.status.Done?;
      ending := Run(completed, requested, true);
      FilledIsMapped(table.pages, All(), filled, ChunkLimit(requested));
      assert All()[..|All()|] == All();
      if filled == |All()| {
        FilledAll(table.pages, initial, table.rows);
      }
    }
  }

  lemma TakenBlocked(pages: PageMap, all: seq<Ayah>, n: nat, m: nat)
    requires n + m <= |all|
    ensures (exists a :: a in all[n..n + m] && PageOf(pages, a).None?)
            <==> exists i :: n <= i < n + m && PageOf(pages, all[i]).None?
  {
    hide PageOf;
    if i :| n <= i < n + m && PageOf(pages, all[i]).None? {
      assert all[n..n + m][i - n] == all[i];
    }
  }

  /** Where the first verse without a page lies, seen from the verses filled. */
  lemma FilledIsMapped(pages: PageMap, all: seq<Ayah>, n: nat, limit: nat)
    requires n <= |all| && forall i :: 0 <= i < n ==> PageOf(pages, all[i]).Some?
    ensures n <= FirstOutside(pages, all)
    ensures forall i :: n <= i < |all| && i < n + limit && PageOf(pages, all[i]).None? ==> FirstOutside(pages, all) < n + limit
    ensures FirstOutside(pages, all) < |all| ==> PageOf(pages, all[FirstOutside(pages, all)]).None?
  {
    hide PageOf;
    var k := FirstOutside(pages, all);
    assert forall i :: 0 <= i < k ==> all[i] == all[..k][i];
  }
}
