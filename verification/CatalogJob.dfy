/** The catalog job over its queue: synchronise, claim one book, reconcile it, until nothing is claimable. */
module CatalogJob {
  import opened Common
  import opened CatalogQueue

  /** What the one-book transaction comes to; the process can also die after the claim. */
  datatype Reconciliation = Reconciled(registry: int, legacyRegistry: int) | Refused | ProcessDies

  datatype Step = Processed(cursor: int) | Drained | NotSynced | BookFailed(id: int) | Died

  /** CHECK (sequence >= 1) and UNIQUE (job_name, sequence). */
  ghost predicate Numbered(queue: Queue) {
    && (forall id :: id in queue ==> queue[id].sequence >= 1)
    && (forall x, y :: x in queue && y in queue && x != y ==> queue[x].sequence != queue[y].sequence)
  }

  ghost predicate NumberedUpTo(queue: Queue, last: nat) {
    forall id :: id in queue ==> queue[id].sequence <= last
  }

  ghost predicate SameNumbers(before: Queue, after: Queue) {
    && after.Keys == before.Keys
    && forall id :: id in before ==> after[id].sequence == before[id].sequence
  }

  lemma NumbersKept(before: Queue, after: Queue)
    requires Numbered(before) && SameNumbers(before, after)
    ensures Numbered(after)
  {}

  function UpgradeAll(books: Books, queue: Queue): (r: Queue)
    requires queue.Keys <= books.Keys
    ensures r.Keys == queue.Keys
  {
    map id | id in queue :: Upgraded(books[id], queue[id])
  }

  function ReproveAll(books: Books, queue: Queue, priorityOnly: bool): (r: Queue)
    requires queue.Keys <= books.Keys
    ensures r.Keys == queue.Keys
  {
    map id | id in queue :: Reproved(books[id], queue[id], priorityOnly)
  }

  function WithdrawAll(books: Books, queue: Queue): (r: Queue)
    requires queue.Keys <= books.Keys
    ensures r.Keys == queue.Keys
  {
    map id | id in queue :: Withdrawn(books[id], queue[id])
  }

  function RecoverAll(books: Books, queue: Queue, recoverFailed: bool): (r: Queue)
    requires queue.Keys <= books.Keys
    ensures r.Keys == queue.Keys
  {
    map id | id in queue :: Recovered(books[id], queue[id], recoverFailed)
  }

  /** The claim's first CTE: pending items of withdrawn books. */
  function CancelPending(books: Books, queue: Queue): (r: Queue)
    requires queue.Keys <= books.Keys
    ensures r.Keys == queue.Keys
  {
    map id | id in queue ::
      if queue[id].status.Pending? && !Target(books[id]) then queue[id].(status := Cancelled) else queue[id]
  }

  /** Every published version 1 evidence can be recomputed; a withdrawn book's cannot. */
  ghost predicate Upgradable(books: Books, queue: Queue)
    requires queue.Keys <= books.Keys
  {
    forall id :: id in queue && Legacy(queue[id]) ==> books[id].published
  }

  /**
   Version 1 evidence survives the upgrade exactly when both old digests are those of the live book; it
   then carries the new digest of the registry. Otherwise the item is pending without evidence.
   */
  ghost predicate EvidenceUpgraded(books: Books, before: Queue, after: Queue)
    requires before.Keys <= books.Keys
  {
    && after.Keys == before.Keys
    && forall id :: id in before ==>
         var was, now, b := before[id], after[id], books[id];
         now == if !was.status.Completed? || was.version >= 2 then was
                else if was.source == Some(b.source) && was.checksum == Some(b.legacyRegistry)
                then Item(was.sequence, Completed, was.attempts, Some(b.source), Some(b.registry), 2)
                else Item(was.sequence, Pending, was.attempts, None, None, 2)
  }

  lemma UpgradableExactly(books: Books, queue: Queue)
    requires queue.Keys <= books.Keys
    ensures Upgradable(books, queue) <==> forall id :: id in queue && Legacy(queue[id]) ==> books[id].published
    ensures Upgradable(books, queue) <==>
            forall id :: id in queue && queue[id].status.Completed? && queue[id].version < 2 ==> books[id].published
  {}

  lemma UpgradedOnFields(books: Books, queue: Queue)
    requires queue.Keys <= books.Keys
    ensures EvidenceUpgraded(books, queue, UpgradeAll(books, queue))
  {}

  /** No item is open for a withdrawn book, and none is left over from a run that stopped. */
  ghost predicate Settled(books: Books, queue: Queue, recoverFailed: bool)
    requires queue.Keys <= books.Keys
  {
    && (forall id :: id in queue && !Target(books[id]) ==> queue[id].status.Completed? || queue[id].status.Cancelled?)
    && (forall id :: id in queue && Target(books[id]) ==>
          !queue[id].status.Running? && (recoverFailed ==> !queue[id].status.Failed?))
  }

  /** The queue right after a successful synchronisation: settled, and with an open item for all that remains. */
  ghost predicate Synced(rederive: bool, priorityOnly: bool, books: Books, queue: Queue, catalog: Queue, recoverFailed: bool)
    requires queue.Keys <= books.Keys
  {
    && Settled(books, queue, recoverFailed)
    && (forall id :: id in books && InWave(books[id], priorityOnly) && Remaining(rederive, books, queue, catalog, id) ==>
          id in queue && (queue[id].status.Pending? || queue[id].status.Failed?))
  }

  /** What the statements before the enqueueing one make of a queue. */
  function Settle(books: Books, queue: Queue, rederive: bool, priorityOnly: bool, recoverFailed: bool): (r: Queue)
    requires queue.Keys <= books.Keys
    ensures r.Keys == queue.Keys
  {
    var upgraded := UpgradeAll(books, queue);
    var reproved := if recoverFailed && !rederive then ReproveAll(books, upgraded, priorityOnly) else upgraded;
    RecoverAll(books, WithdrawAll(books, reproved), recoverFailed)
  }

  /** An item of a withdrawn book that is still open is cancelled under its number. */
  lemma WithdrawnIsCancelled(books: Books, queue: Queue, rederive: bool, priorityOnly: bool, recoverFailed: bool, id: int)
    requires queue.Keys <= books.Keys && id in queue && Open(queue[id].status) && !Target(books[id])
    ensures Settle(books, queue, rederive, priorityOnly, recoverFailed)[id] == queue[id].(status := Cancelled)
  {}

  /** What a dead process left running is pending again, under its number and with its attempts. */
  lemma RunningReturnsToPending(books: Books, queue: Queue, catalog: Queue, rederive: bool, priorityOnly: bool,
                                recoverFailed: bool, id: int)
    requires queue.Keys <= books.Keys && id in queue && queue[id].status.Running? && Target(books[id])
    ensures var settled := Settle(books, queue, rederive, priorityOnly, recoverFailed);
            settled[id] == queue[id].(status := Pending) && !Candidate(rederive, priorityOnly, books, settled, catalog, id)
  {}

  /** A failed item is pending again when a run begins, and stays failed while it goes on. */
  lemma FailedWaitsForNextRun(books: Books, queue: Queue, catalog: Queue, rederive: bool, priorityOnly: bool,
                              recoverFailed: bool, id: int)
    requires queue.Keys <= books.Keys && id in queue && queue[id].status.Failed? && Target(books[id])
    ensures var settled := Settle(books, queue, rederive, priorityOnly, recoverFailed);
            && settled[id] == (if recoverFailed then queue[id].(status := Pending) else queue[id])
            && !Candidate(rederive, priorityOnly, books, settled, catalog, id)
  {}

  /** After the first pass of a run no completed item of the wave carries evidence the live book contradicts. */
  lemma CompletedIsProved(books: Books, queue: Queue, priorityOnly: bool, id: int)
    requires queue.Keys <= books.Keys && id in queue && InWave(books[id], priorityOnly)
    ensures var item := Settle(books, queue, false, priorityOnly, true)[id];
            item.status.Completed? ==>
              && item.version >= CHECKSUM_VERSION
              && (item.version == CHECKSUM_VERSION ==>
                    item.source == Some(books[id].source) && item.checksum == Some(books[id].registry))
  {}

  /** Fresh pending items under the numbers after `base`, in the given order, and no other change. */
  ghost predicate Appended(before: Queue, after: Queue, order: seq<int>, base: int) {
    && (forall id :: id in after <==> id in before || id in order)
    && (forall id :: id in before && id !in order ==> after[id] == before[id])
    && (forall i :: 0 <= i < |order| ==> order[i] in after && Fresh(before, order[i], after[order[i]], base + i + 1))
  }

  /** A pending item without evidence; one that was there keeps its attempts and its checksum version. */
  predicate Fresh(before: Queue, id: int, item: Item, sequence: int) {
    item == if id in before then Item(sequence, Pending, before[id].attempts, None, None, before[id].version)
            else Item(sequence, Pending, 0, None, None, 1)
  }

  lemma AppendOne(before: Queue, after: Queue, order: seq<int>, base: int, id: int, item: Item)
    requires Appended(before, after, order, base) && id !in order && Fresh(before, id, item, base + |order| + 1)
    ensures Appended(before, after[id := item], order + [id], base)
  {
    var after' := after[id := item];
    forall i | 0 <= i < |order + [id]|
      ensures (order + [id])[i] in after' && Fresh(before, (order + [id])[i], after'[(order + [id])[i]], base + i + 1)
    {
      if i < |order| {
        assert order[i] in order;
      }
    }
  }

  lemma AppendedIsNumbered(before: Queue, after: Queue, order: seq<int>, base: int)
    requires Numbered(before) && Appended(before, after, order, base) && base >= 0
    requires forall id :: id in before ==> before[id].sequence <= base
    requires forall i, j :: 0 <= i < j < |order| ==> order[i] != order[j]
    ensures Numbered(after)
  {
    forall x, y | x in after && y in after && x != y
      ensures after[x].sequence >= 1 && after[x].sequence != after[y].sequence
    {
      if x in order {
        var i :| 0 <= i < |order| && order[i] == x;
        if y in order {
          var j :| 0 <= j < |order| && order[j] == y;
        }
      } else if y in order {
        var j :| 0 <= j < |order| && order[j] == y;
      }
    }
    forall x | x in after ensures after[x].sequence >= 1 {
      if x in order {
        var i :| 0 <= i < |order| && order[i] == x;
      }
    }
  }

  /**
   What the enqueueing statement does: the candidates, and only they, get fresh items behind every
   number in use; between two candidates the rank decides.
   */
  ghost predicate Enqueued(rederive: bool, priorityOnly: bool, books: Books, before: Queue, after: Queue, catalog: Queue) {
    && (forall id :: id in after <==> id in before || (id in books && Candidate(rederive, priorityOnly, books, before, catalog, id)))
    && (forall id :: id in before && !(id in books && Candidate(rederive, priorityOnly, books, before, catalog, id)) ==>
          after[id] == before[id])
    && (forall id :: id in books && Candidate(rederive, priorityOnly, books, before, catalog, id) ==>
          && Fresh(before, id, after[id], after[id].sequence)
          && forall x :: x in before ==> before[x].sequence < after[id].sequence)
    && (forall x, y :: (x in books && y in books && x != y && Precedes(books, x, y)
          && Candidate(rederive, priorityOnly, books, before, catalog, x)
          && Candidate(rederive, priorityOnly, books, before, catalog, y)) ==> after[x].sequence < after[y].sequence)
  }

  lemma AsManyAsCandidates(books: Books, candidates: set<int>, order: seq<int>)
    requires Ranked(books, candidates, order)
    ensures |order| == |candidates|
  {
    RankedOnce(books, candidates, order);
    OnceCounts(order);
    assert (set x | x in order) == candidates;
  }

  lemma {:induction false} OnceCounts(order: seq<int>)
    requires forall i, j :: 0 <= i < j < |order| ==> order[i] != order[j]
    ensures |set x | x in order| == |order|
  {
    if order != [] {
      var n := |order| - 1;
      OnceCounts(order[..n]);
      assert order == order[..n] + [order[n]];
      assert (set x | x in order) == (set x | x in order[..n]) + {order[n]};
    }
  }

  lemma AppendedItem(before: Queue, after: Queue, order: seq<int>, base: int, id: int)
    requires Appended(before, after, order, base) && id in order
    ensures id in after && Fresh(before, id, after[id], after[id].sequence)
    ensures base < after[id].sequence <= base + |order|
  {
    var i :| 0 <= i < |order| && order[i] == id;
  }

  lemma RankedNumbers(books: Books, candidates: set<int>, before: Queue, after: Queue, order: seq<int>, base: int, x: int, y: int)
    requires Ranked(books, candidates, order) && Appended(before, after, order, base)
    requires x in order && y in order && x in books && y in books && x != y && Precedes(books, x, y)
    ensures x in after && y in after && after[x].sequence < after[y].sequence
  {
    hide Precedes;
    var i :| 0 <= i < |order| && order[i] == x;
    var j :| 0 <= j < |order| && order[j] == y;
    RankDecides(books, candidates, order, i, j);
  }

  lemma AppendedIsEnqueued(rederive: bool, priorityOnly: bool, books: Books, before: Queue, after: Queue,
                           catalog: Queue, candidates: set<int>, order: seq<int>, base: int)
    requires candidates == set id | id in books && Candidate(rederive, priorityOnly, books, before, catalog, id)
    requires Ranked(books, candidates, order) && Appended(before, after, order, base)
    requires before.Keys <= books.Keys && forall id :: id in before ==> before[id].sequence <= base
    ensures Enqueued(rederive, priorityOnly, books, before, after, catalog) && after.Keys <= books.Keys
  {
    hide Candidate, Precedes;
    forall id | id in candidates
      ensures id in after && Fresh(before, id, after[id], after[id].sequence)
      ensures after[id].sequence > base
    {
      AppendedItem(before, after, order, base, id);
    }
    forall x, y | x in candidates && y in candidates && x != y && Precedes(books, x, y)
      ensures after[x].sequence < after[y].sequence
    {
      RankedNumbers(books, candidates, before, after, order, base, x, y);
    }
    forall id | id in after ensures id in books.Keys {
      assert id in before.Keys || id in candidates;
    }
  }

  lemma OpenItemsSettled(books: Books, queue: Queue, recoverFailed: bool)
    requires queue.Keys <= books.Keys
    ensures Settled(books, RecoverAll(books, WithdrawAll(books, queue), recoverFailed), recoverFailed)
    ensures recoverFailed ==> NothingFailed(RecoverAll(books, WithdrawAll(books, queue), recoverFailed))
  {}

  lemma ItemsKeepNumbers(books: Books, first: Queue, reproved: Queue, priorityOnly: bool, recoverFailed: bool)
    requires first.Keys <= books.Keys
    requires reproved == first || reproved == ReproveAll(books, first, priorityOnly)
    ensures SameNumbers(first, RecoverAll(books, WithdrawAll(books, reproved), recoverFailed))
  {}

  /** Enqueueing the candidates of a settled queue leaves no remaining book without an open item. */
  lemma EnqueuedIsSynced(rederive: bool, priorityOnly: bool, books: Books, before: Queue, after: Queue,
                         catalog: Queue, recoverFailed: bool)
    requires before.Keys <= books.Keys && after.Keys <= books.Keys && Settled(books, before, recoverFailed)
    requires Enqueued(rederive, priorityOnly, books, before, after, catalog)
    ensures Synced(rederive, priorityOnly, books, after, catalog, recoverFailed)
  {
    forall id | id in books && InWave(books[id], priorityOnly) && Remaining(rederive, books, after, catalog, id)
      ensures id in after && (after[id].status.Pending? || after[id].status.Failed?)
    {
      if !Candidate(rederive, priorityOnly, books, before, catalog, id) {
        assert id in before && after[id] == before[id];
      }
    }
    forall id | id in after
      ensures !Target(books[id]) ==> after[id].status.Completed? || after[id].status.Cancelled?
      ensures Target(books[id]) ==> !after[id].status.Running? && (recoverFailed ==> !after[id].status.Failed?)
    {
      if !Candidate(rederive, priorityOnly, books, before, catalog, id) {
        assert id in before && after[id] == before[id];
      }
    }
  }

  ghost predicate NothingFailed(queue: Queue) {
    forall id :: id in queue ==> !queue[id].status.Failed?
  }

  lemma StepsFailNothing(books: Books, queue: Queue, priorityOnly: bool, recoverFailed: bool)
    requires queue.Keys <= books.Keys && NothingFailed(queue)
    ensures NothingFailed(UpgradeAll(books, queue)) && NothingFailed(ReproveAll(books, queue, priorityOnly))
    ensures NothingFailed(RecoverAll(books, WithdrawAll(books, queue), recoverFailed))
    ensures NothingFailed(CancelPending(books, queue))
  {}

  lemma UpgradeFailsNothing(books: Books, before: Queue, after: Queue)
    requires before.Keys <= books.Keys && after.Keys == before.Keys
    requires forall id :: id in after ==> after[id] == before[id] || after[id] == Upgraded(books[id], before[id])
    ensures NothingFailed(before) ==> NothingFailed(after)
  {}

  lemma EnqueueFailsNothing(rederive: bool, priorityOnly: bool, books: Books, before: Queue, after: Queue, catalog: Queue)
    requires NothingFailed(before) && Enqueued(rederive, priorityOnly, books, before, after, catalog)
    ensures NothingFailed(after)
  {
    hide Candidate;
    forall id | id in after ensures !after[id].status.Failed? {
      if !(id in books && Candidate(rederive, priorityOnly, books, before, catalog, id)) {
        assert id in before && after[id] == before[id];
      }
    }
  }

  lemma FailedNumbers(queue: Queue, id: int)
    requires Numbered(queue) && id in queue
    ensures Numbered(queue[id := queue[id].(status := Failed)])
  {}

  lemma CancelTwice(books: Books, queue: Queue)
    requires queue.Keys <= books.Keys
    ensures CancelPending(books, CancelPending(books, queue)) == CancelPending(books, queue)
  {}

  /** Cancelling withdrawn items changes nothing claimable. */
  lemma ClaimsSurviveCancelling(books: Books, queue: Queue, priorityOnly: bool)
    requires queue.Keys <= books.Keys
    ensures forall id, cursor :: id in queue ==>
              (CanClaim(books, CancelPending(books, queue), priorityOnly, id, cursor) <==> CanClaim(books, queue, priorityOnly, id, cursor))
    ensures forall id, cursor :: id in queue && CanClaim(books, queue, priorityOnly, id, cursor) ==> Target(books[id])
    ensures forall id :: id in queue ==> CancelPending(books, queue)[id].sequence == queue[id].sequence
    ensures forall id, cursor :: id in queue && CanClaim(books, queue, priorityOnly, id, cursor) ==> CancelPending(books, queue)[id] == queue[id]
  {}

  /** When a synchronised queue holds nothing claimable, all that is left to do has failed. */
  lemma DrainedLeavesFailures(rederive: bool, priorityOnly: bool, books: Books, before: Queue, after: Queue,
                              catalog: Queue, recoverFailed: bool)
    requires before.Keys <= books.Keys && Numbered(before)
    requires Synced(rederive, priorityOnly, books, before, catalog, recoverFailed)
    requires after == CancelPending(books, before)
    requires forall id :: id in after && after[id].status.Pending? && after[id].sequence > 0 ==> !InWave(books[id], priorityOnly)
    ensures forall id :: id in books && InWave(books[id], priorityOnly) && Remaining(rederive, books, after, catalog, id) ==>
              id in after && after[id].status.Failed?
  {
    forall id | id in books && InWave(books[id], priorityOnly) && Remaining(rederive, books, after, catalog, id)
      ensures id in after && after[id].status.Failed?
    {
      assert id in before ==> after[id] == before[id];
      assert Remaining(rederive, books, before, catalog, id);
    }
  }

  lemma NoFailuresNoRemainder(rederive: bool, priorityOnly: bool, books: Books, queue: Queue, catalog: Queue)
    requires NothingFailed(queue)
    requires forall id :: id in books && InWave(books[id], priorityOnly) && Remaining(rederive, books, queue, catalog, id) ==>
               id in queue && queue[id].status.Failed?
    ensures forall id :: id in books && InWave(books[id], priorityOnly) ==> !Remaining(rederive, books, queue, catalog, id)
  {}

  /** Work that is done, current and still proved by the live digests is not touched by a synchronisation. */
  lemma CurrentWorkIsKept(rederive: bool, priorityOnly: bool, books: Books, queue: Queue, catalog: Queue,
                          id: int, recoverFailed: bool)
    requires queue.Keys <= books.Keys && id in queue && queue[id].version == CHECKSUM_VERSION
    requires !Remaining(rederive, books, queue, catalog, id)
    requires queue[id].source == Some(books[id].source) && queue[id].checksum == Some(books[id].registry)
    ensures var settled := Settle(books, queue, rederive, priorityOnly, recoverFailed);
            settled[id] == queue[id] && !Candidate(rederive, priorityOnly, books, settled, catalog, id)
  {}

  predicate CanClaim(books: Books, queue: Queue, priorityOnly: bool, id: int, cursor: int)
    requires id in queue && id in books
  {
    queue[id].status.Pending? && InWave(books[id], priorityOnly) && queue[id].sequence > cursor
  }

  /** The lowest claimable number after the cursor. */
  ghost predicate IsFirst(books: Books, queue: Queue, priorityOnly: bool, id: int, cursor: int)
    requires queue.Keys <= books.Keys && id in queue
  {
    && CanClaim(books, queue, priorityOnly, id, cursor)
    && forall x :: x in queue && CanClaim(books, queue, priorityOnly, x, cursor) ==> queue[id].sequence <= queue[x].sequence
  }

  /** The item to claim next: the first one after the cursor, or of all when none is left after it. */
  ghost predicate IsNext(books: Books, queue: Queue, priorityOnly: bool, id: int, cursor: int)
    requires queue.Keys <= books.Keys && id in queue
  {
    || IsFirst(books, queue, priorityOnly, id, cursor)
    || (cursor > 0 && IsFirst(books, queue, priorityOnly, id, 0)
        && forall x :: x in queue ==> !CanClaim(books, queue, priorityOnly, x, cursor))
  }

  class Job {
    const rederive: bool
    const priorityOnly: bool
    var books: Books
    var queue: Queue
    var catalog: Queue
    var recovered: bool

    constructor (rederive: bool, priorityOnly: bool, books: Books, catalog: Queue)
      ensures Valid() && queue == map[] && this.books == books && !recovered
    {
      this.rederive, this.priorityOnly, this.books, this.catalog := rederive, priorityOnly && !rederive, books, catalog;
      queue, recovered := map[], false;
    }

    ghost predicate Valid()
      reads this
    {
      queue.Keys <= books.Keys && Numbered(queue)
    }

    // ---- Between the steps ----------------------------------------------------------------

    /** Editors, imports and the other pass change books and the other queue at will. */
    method WorldChanges(books: Books, catalog: Queue)
      requires Valid() && queue.Keys <= books.Keys
      modifies `books, `catalog
      ensures Valid() && this.books == books && this.catalog == catalog
    {
      this.books, this.catalog := books, catalog;
    }

    /** A reconcile outside the job reopens a completed item under its old sequence. */
    method EvidenceInvalidated(id: int)
      requires Valid()
      modifies `queue
      ensures Valid() && SameNumbers(old(queue), queue)
      ensures forall x :: x in queue && queue[x].status.Failed? ==> old(queue)[x].status.Failed?
    {
      if id in queue && queue[id].status.Completed? {
        queue := queue[id := queue[id].(status := Pending, source := None, checksum := None)];
      }
    }

    // ---- syncQueue ------------------------------------------------------------------------

    /** Upgrade version 1 evidence item by item; a book without a publication stops it with an error. */
    method UpgradeEvidence() returns (ok: bool)
      requires Valid()
      modifies `queue
      ensures Valid() && SameNumbers(old(queue), queue)
      ensures ok <==> old(Upgradable(books, queue))
      ensures ok ==> queue == UpgradeAll(books, old(queue))
      ensures ok <==> old(forall id :: id in queue && queue[id].status.Completed? && queue[id].version < 2 ==> books[id].published)
      ensures ok ==> EvidenceUpgraded(books, old(queue), queue)
      ensures forall id :: id in queue ==> queue[id] == old(queue)[id] || queue[id] == Upgraded(books[id], old(queue)[id])
    {
      hide Upgraded, Legacy, EvidenceUpgraded, Upgradable;
      UpgradableExactly(books, queue);
      forall id | id in queue ensures !Legacy(queue[id]) ==> queue[id] == Upgraded(books[id], queue[id]) {
        UpgradedNumber(books[id], queue[id]);
      }
      var todo := set id | id in queue && Legacy(queue[id]);
      while todo != {}
        invariant todo <= queue.Keys
        invariant SameNumbers(old(queue), queue)
        invariant forall id :: id in queue ==>
                    queue[id] == if id in todo then old(queue)[id] else Upgraded(books[id], old(queue)[id])
        invariant forall id :: id in todo ==> Legacy(old(queue)[id])
        invariant forall id :: id in queue && id !in todo && Legacy(old(queue)[id]) ==> books[id].published
        decreases todo
      {
        var id := Any(todo);
        if !books[id].published {
          NumbersKept(old(queue), queue);
          return false;
        }
        UpgradedNumber(books[id], queue[id]);
        queue := queue[id := Upgraded(books[id], queue[id])];
        todo := todo - {id};
      }
      NumbersKept(old(queue), queue);
      assert forall id :: id in queue ==> queue[id] == UpgradeAll(books, old(queue))[id];
      assert queue.Keys == UpgradeAll(books, old(queue)).Keys;
      UpgradedOnFields(books, old(queue));
      ok := true;
    }

    /** COALESCE(MAX(sequence), 0). */
    method MaxSequence() returns (value: int)
      requires Valid()
      ensures value >= 0 && forall id :: id in queue ==> queue[id].sequence <= value
      ensures value == 0 || exists id :: id in queue && queue[id].sequence == value
    {
      value := 0;
      var rest := queue.Keys;
      while rest != {}
        invariant rest <= queue.Keys && value >= 0
        invariant value == 0 || exists id :: id in queue && queue[id].sequence == value
        invariant forall id :: id in queue && id !in rest ==> queue[id].sequence <= value
        decreases rest
      {
        var id := Any(rest);
        value := Max(value, queue[id].sequence);
        rest := rest - {id};
      }
    }

    /** Enqueue the candidates behind every sequence in use, in rank order; none can collide. */
    method Enqueue()
      requires Valid()
      modifies `queue
      ensures Valid() && Enqueued(rederive, priorityOnly, books, old(queue), queue, catalog)
      ensures forall id, last: nat :: id in queue && NumberedUpTo(old(queue), last) ==>
                queue[id].sequence <= last + |set x | x in books && Candidate(rederive, priorityOnly, books, old(queue), catalog, x)|
    {
      hide Candidate, Precedes, Ranked, Numbered, Enqueued;
      ghost var was := queue;
      var candidates := set id | id in books && Candidate(rederive, priorityOnly, books, queue, catalog, id);
      var order := RankBooks(books, candidates);
      var base := MaxSequence();
      for k := 0 to |order|
        invariant Appended(was, queue, order[..k], base)
      {
        var id := order[k];
        var item := if id in queue then queue[id] else Item(0, Pending, 0, None, None, DEFAULT_CHECKSUM_VERSION);
        var item' := item.(sequence := base + k + 1, status := Pending, source := None, checksum := None);
        AppendOne(was, queue, order[..k], base, id, item');
        assert order[..k + 1] == order[..k] + [id];
        queue := queue[id := item'];
      }
      assert order[..|order|] == order;
      AppendedIsNumbered(was, queue, order, base);
      AppendedIsEnqueued(rederive, priorityOnly, books, was, queue, catalog, candidates, order, base);
      AsManyAsCandidates(books, candidates, order);
      forall id, last: nat | id in queue && NumberedUpTo(was, last)
        ensures queue[id].sequence <= last + |candidates|
      {
        if id in order {
          AppendedItem(was, queue, order, base, id);
        }
      }
    }

    method SyncQueue(recoverFailed: bool) returns (ok: bool)
      requires Valid()
      modifies `queue
      ensures Valid()
      ensures ok <==> old(Upgradable(books, queue))
      ensures ok ==> Enqueued(rederive, priorityOnly, books,
                              Settle(books, old(queue), rederive, priorityOnly, recoverFailed), queue, catalog)
      ensures ok ==> Synced(rederive, priorityOnly, books, queue, catalog, recoverFailed)
      ensures NothingFailed(old(queue)) || (ok && recoverFailed) ==> NothingFailed(queue)
    {
      hide Upgraded, Reproved, Withdrawn, Recovered, Candidate, Synced, Settled, NothingFailed, WithdrawAll, RecoverAll, ReproveAll, UpgradeAll, Numbered, Precedes;
      ok := UpgradeEvidence();
      if !ok {
        UpgradeFailsNothing(books, old(queue), queue);
        return;
      }
      ghost var first := queue;
      if recoverFailed && !rederive {
        queue := ReproveAll(books, queue, priorityOnly);
      }
      ghost var reproved := queue;
      queue := WithdrawAll(books, queue);
      queue := RecoverAll(books, queue, recoverFailed);
      OpenItemsSettled(books, reproved, recoverFailed);
      ItemsKeepNumbers(books, first, reproved, priorityOnly, recoverFailed);
      NumbersKept(first, queue);
      ghost var settled := queue;
      Enqueue();
      EnqueuedIsSynced(rederive, priorityOnly, books, settled, queue, catalog, recoverFailed);
      if NothingFailed(old(queue)) {
        StepsFailNothing(books, old(queue), priorityOnly, recoverFailed);
        StepsFailNothing(books, first, priorityOnly, recoverFailed);
        StepsFailNothing(books, reproved, priorityOnly, recoverFailed);
      }
      if NothingFailed(settled) {
        EnqueueFailsNothing(rederive, priorityOnly, books, settled, queue, catalog);
      }
    }

    // ---- claimCatalogBook and ProcessChunk ------------------------------------------------

    predicate Claimable(id: int, cursor: int)
      requires id in queue && id in books
      reads this
    {
      CanClaim(books, queue, priorityOnly, id, cursor)
    }

    /** Cancel pending items of withdrawn books, then start the first claimable item after the cursor. */
    method Claim(cursor: int) returns (claimed: Option<int>)
      requires Valid()
      modifies `queue
      ensures Valid() && SameNumbers(old(queue), queue)
      ensures claimed.None? ==> forall id :: id in queue ==> !Claimable(id, cursor)
      ensures claimed.None? ==> queue == CancelPending(books, old(queue))
      ensures claimed.Some? ==>
                && claimed.value in queue && old(Claimable(claimed.value, cursor))
                && (forall id :: id in queue && old(Claimable(id, cursor)) ==> queue[claimed.value].sequence <= queue[id].sequence)
                && queue == CancelPending(books, old(queue))[claimed.value :=
                     old(queue)[claimed.value].(status := Running, attempts := old(queue)[claimed.value].attempts + 1)]
    {
      hide Target, Priority;
      queue := CancelPending(books, queue);
      NumbersKept(old(queue), queue);
      claimed := FirstClaimable(cursor);
      if claimed.Some? {
        var item := queue[claimed.value];
        queue := queue[claimed.value := item.(status := Running, attempts := item.attempts + 1)];
        NumbersKept(old(queue), queue);
      }
    }

    /** ORDER BY sequence LIMIT 1. */
    method FirstClaimable(cursor: int) returns (claimed: Option<int>)
      requires queue.Keys <= books.Keys
      ensures claimed.None? ==> forall id :: id in queue ==> !Claimable(id, cursor)
      ensures claimed.Some? ==>
                && claimed.value in queue && Claimable(claimed.value, cursor)
                && forall id :: id in queue && Claimable(id, cursor) ==> queue[claimed.value].sequence <= queue[id].sequence
    {
      hide Target, Priority, InWave;
      claimed := None;
      var rest := queue.Keys;
      while rest != {}
        invariant rest <= queue.Keys
        invariant claimed.Some? ==> claimed.value in queue && Claimable(claimed.value, cursor)
        invariant forall id :: id in queue && id !in rest && Claimable(id, cursor) ==>
                    claimed.Some? && queue[claimed.value].sequence <= queue[id].sequence
        decreases rest
      {
        var id := Any(rest);
        if Claimable(id, cursor) && (claimed.None? || queue[id].sequence < queue[claimed.value].sequence) {
          claimed := Some(id);
        }
        rest := rest - {id};
      }
    }

    /** The one-book transaction: derive, compare when rederiving, and complete the item, or nothing. */
    method Reconcile(id: int, outcome: Reconciliation) returns (ok: bool)
      requires Valid() && id in queue && queue[id].status.Running?
      modifies `queue, `books
      ensures Valid() && SameNumbers(old(queue), queue)
      ensures ok <==> outcome.Reconciled? && old(books)[id].published && (rederive ==> outcome.registry == old(books)[id].registry)
      ensures ok ==>
                && queue == old(queue)[id := old(queue)[id].(status := Completed, source := Some(books[id].source),
                                                             checksum := Some(books[id].registry), version := CHECKSUM_VERSION)]
                && books == old(books)[id := old(books)[id].(derived := true, stale := false, profile := Some(PROFILE_VERSION),
                                                             registry := outcome.registry, legacyRegistry := outcome.legacyRegistry)]
      ensures !ok ==> queue == old(queue) && books == old(books)
    {
      var b := books[id];
      if !outcome.Reconciled? || !b.published || (rederive && outcome.registry != b.registry) {
        return false;
      }
      books := books[id := b.(derived := true, stale := false, profile := Some(PROFILE_VERSION),
                              registry := outcome.registry, legacyRegistry := outcome.legacyRegistry)];
      queue := queue[id := queue[id].(status := Completed, source := Some(b.source),
                                      checksum := Some(outcome.registry), version := CHECKSUM_VERSION)];
      NumbersKept(old(queue), queue);
      ok := true;
    }

    /** Every remaining book of the wave has failed: all the others are done. */
    ghost predicate OnlyFailuresRemain()
      requires Valid()
      reads this
    {
      forall id :: id in books && InWave(books[id], priorityOnly) && Remaining(rederive, books, queue, catalog, id) ==>
        id in queue && queue[id].status.Failed?
    }

    /** Claim after the cursor, and once more from the start when nothing is left there. */
    method ClaimNext(cursor: int) returns (claimed: Option<int>)
      requires Valid()
      modifies `queue
      ensures Valid()
      ensures claimed.None? ==> queue == CancelPending(books, old(queue)) && forall id :: id in queue ==> !Claimable(id, 0)
      ensures claimed.Some? ==>
                && claimed.value in queue && queue[claimed.value].status.Running? && Target(books[claimed.value])
                && claimed.value in old(queue) && IsNext(books, old(queue), priorityOnly, claimed.value, cursor)
                && queue == CancelPending(books, old(queue))[claimed.value :=
                     old(queue)[claimed.value].(status := Running, attempts := old(queue)[claimed.value].attempts + 1)]
      ensures NothingFailed(old(queue)) ==> NothingFailed(queue)
    {
      hide Target, Priority, InWave, Numbered, CancelPending;
      CancelTwice(books, queue);
      ClaimsSurviveCancelling(books, queue, priorityOnly);
      if NothingFailed(queue) {
        StepsFailNothing(books, queue, priorityOnly, false);
      }
      claimed := Claim(cursor);
      if claimed.None? && cursor > 0 {
        claimed := Claim(0);
      }
    }

    method ProcessChunk(cursor: int, outcome: Reconciliation) returns (r: Step, ghost synced: Queue)
      requires Valid()
      modifies `queue, `books, `recovered
      ensures Valid()
      ensures r.NotSynced? <==> old(!Upgradable(books, queue))
      ensures r.Drained? ==> OnlyFailuresRemain() && forall id :: id in queue ==> !Claimable(id, 0)
      ensures r.Processed? ==>
                && synced.Keys <= old(books).Keys
                && Enqueued(rederive, priorityOnly, old(books),
                            Settle(old(books), old(queue), rederive, priorityOnly, !old(recovered)), synced, catalog)
                && exists id :: && id in synced && IsNext(old(books), synced, priorityOnly, id, cursor)
                                && id in queue && queue[id].sequence == synced[id].sequence == r.cursor
                                && queue[id].status.Completed? && queue[id].attempts == synced[id].attempts + 1
                                && id in books && Target(books[id]) && books.Keys == old(books).Keys
      ensures old(recovered) && old(NothingFailed(queue)) && !r.BookFailed? ==> NothingFailed(queue)
      ensures !r.NotSynced? ==> recovered
    {
      hide Candidate, Remaining, Upgradable, Synced, CancelPending, Priority, Outdated, Numbered;
      var ok := SyncQueue(!recovered);
      synced := queue;
      if !ok {
        return NotSynced, synced;
      }
      recovered := true;
      var claimed := ClaimNext(cursor);
      if claimed.None? {
        DrainedLeavesFailures(rederive, priorityOnly, books, synced, queue, catalog, !old(recovered));
        return Drained, synced;
      }
      var id := claimed.value;
      if outcome.ProcessDies? {
        return Died, synced;
      }
      var sequence := queue[id].sequence;
      ok := Reconcile(id, outcome);
      if !ok {
        ghost var running := queue;
        queue := queue[id := queue[id].(status := Failed)];
        FailedNumbers(running, id);
        return BookFailed(id), synced;
      }
      assert queue[id].sequence == sequence && queue[id].status.Completed?;
      return Processed(sequence), synced;
    }

    // ---- A whole run ----------------------------------------------------------------------

    /** Anything may happen to the books and the other queue, and to the evidence of any number of items. */
    method TimePasses()
      requires Valid()
      modifies `queue, `books, `catalog
      ensures Valid()
      ensures NothingFailed(old(queue)) ==> NothingFailed(queue)
    {
      var next: Books :| queue.Keys <= next.Keys;
      var other: Queue := *;
      WorldChanges(next, other);
      var invalidated: seq<int> := *;
      for k := 0 to |invalidated|
        invariant Valid()
        invariant NothingFailed(old(queue)) ==> NothingFailed(queue)
      {
        EvidenceInvalidated(invalidated[k]);
      }
    }

    /**
     One run: prepare, then one book per chunk until nothing is claimable, a book fails, the queue
     cannot be synchronised, or the process dies. If it ends for want of work, no book of the wave is
     left for CountRemaining to count, whatever was published, withdrawn or invalidated meanwhile.
     */
    method Run(start: int, outcomes: seq<Reconciliation>) returns (last: Option<Step>)
      requires Valid()
      modifies this
      ensures Valid()
      ensures last.Some? && last.value.Drained? ==>
                forall id :: id in books && InWave(books[id], priorityOnly) ==> !Remaining(rederive, books, queue, catalog, id)
    {
      hide Numbered, Remaining, Upgradable, Synced, NothingFailed, InWave;
      recovered := false;
      var prepared := SyncQueue(true);
      if !prepared {
        return Some(NotSynced);
      }
      recovered := true;
      var cursor := start;
      for k := 0 to |outcomes|
        invariant Valid() && recovered && NothingFailed(queue)
      {
        TimePasses();
        var r, _ := ProcessChunk(cursor, outcomes[k]);
        if !r.Processed? {
          if r.Drained? {
            NoFailuresNoRemainder(rederive, priorityOnly, books, queue, catalog);
          }
          return Some(r);
        }
        cursor := r.cursor;
      }
      last := None;
    }
  }

  lemma UpgradedNumber(b: Book, item: Item)
    ensures Upgraded(b, item).sequence == item.sequence
    ensures !Legacy(item) ==> Upgraded(b, item) == item
  {}

  /** One withdrawn book with version 1 evidence: no synchronisation of its queue can succeed. */
  method WithdrawnEvidenceBlocks(recoverFailed: bool) returns (ok: bool, job: Job)
    ensures !ok && fresh(job)
  {
    var book := Book(false, false, 3, true, false, Some(PROFILE_VERSION), 0, 0, 11, 12, 13);
    job := new Job(false, false, map[1 := book], map[]);
    job.queue := map[1 := Item(1, Completed, 1, Some(11), Some(13), DEFAULT_CHECKSUM_VERSION)];
    assert Legacy(job.queue[1]);
    ok := job.SyncQueue(recoverFailed);
  }
}
