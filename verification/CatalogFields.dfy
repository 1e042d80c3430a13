/** The catalog statements item by item: what each makes of a row, in terms of the columns of row and book. */
module CatalogFields {
  import opened Common
  import opened CatalogQueue
  import opened CatalogJob

  /** Not an item of a published book of the wave: priority waves keep to two categories. */
  predicate OutsideWave(b: Book, priorityOnly: bool) {
    !b.published || b.deleted || (priorityOnly && b.category != 3 && b.category != 7)
  }

  /**
   The statements before the enqueueing one keep a completed item exactly when its evidence is not
   contradicted: version 1 evidence by either old digest, and at the start of a run of the first pass
   version 2 evidence of the wave by either digest. Contradicted evidence is dropped.
   */
  lemma SettledCompleted(books: Books, queue: Queue, rederive: bool, priorityOnly: bool, recoverFailed: bool, id: int)
    requires queue.Keys <= books.Keys && id in queue && queue[id].status == Completed
    ensures var was, now, b := queue[id], Settle(books, queue, rederive, priorityOnly, recoverFailed)[id], books[id];
            if was.version < 2 then
              if was.source == Some(b.source) && was.checksum == Some(b.legacyRegistry)
              then now == Item(was.sequence, Completed, was.attempts, Some(b.source), Some(b.registry), 2)
              else now == Item(was.sequence, if b.published && !b.deleted then Pending else Cancelled, was.attempts, None, None, 2)
            else if was.version == 2 && recoverFailed && !rederive && !OutsideWave(b, priorityOnly)
                    && (was.source != Some(b.source) || was.checksum != Some(b.registry))
            then now == Item(was.sequence, Pending, was.attempts, None, None, 2)
            else now == was
  {}

  /** What they make of every other item: number, attempts and evidence stay. */
  lemma SettledOpen(books: Books, queue: Queue, rederive: bool, priorityOnly: bool, recoverFailed: bool, id: int)
    requires queue.Keys <= books.Keys && id in queue && queue[id].status != Completed
    ensures var was, now, b := queue[id], Settle(books, queue, rederive, priorityOnly, recoverFailed)[id], books[id];
            var target := b.published && !b.deleted;
            now == was.(status := match was.status
                                  case Pending => if target then Pending else Cancelled
                                  case Running => if target then Pending else Cancelled
                                  case Failed => if !target then Cancelled else if recoverFailed then Pending else Failed
                                  case _ => Cancelled)
  {}

  /** The first pass enqueues what has no item, a cancelled one, or one completed before the book changed. */
  lemma FirstPassCandidates(priorityOnly: bool, books: Books, queue: Queue, catalog: Queue, id: int)
    requires id in books
    ensures var b := books[id];
            Candidate(false, priorityOnly, books, queue, catalog, id) <==>
              && !OutsideWave(b, priorityOnly)
              && (id in queue ==>
                    || queue[id].status == Cancelled
                    || (queue[id].status == Completed && (!b.derived || b.stale || b.profile != Some(3))))
  {}

  /** The rederivation enqueues what has no item, a cancelled one, or one whose evidence is not that of the first pass. */
  lemma RederivationCandidates(priorityOnly: bool, books: Books, queue: Queue, catalog: Queue, id: int)
    requires id in books
    ensures Candidate(true, priorityOnly, books, queue, catalog, id) <==>
              && !OutsideWave(books[id], priorityOnly)
              && (id in queue ==>
                    || queue[id].status == Cancelled
                    || (queue[id].status == Completed && id in catalog
                        && (queue[id].source, queue[id].checksum) != (catalog[id].source, catalog[id].checksum))
                    || (queue[id].status == Completed && id !in catalog && (queue[id].source, queue[id].checksum) != (None, None)))
  {}

  /** What CountRemaining counts in the first pass and in the rederivation. */
  lemma RemainingOnFields(books: Books, queue: Queue, catalog: Queue, id: int)
    requires id in books
    ensures var b := books[id];
            !Remaining(false, books, queue, catalog, id) <==>
              id in queue && queue[id].status == Completed && b.derived && !b.stale && b.profile == Some(3)
    ensures !Remaining(true, books, queue, catalog, id) <==>
              && id in queue && queue[id].status == Completed
              && (queue[id].source, queue[id].checksum)
                 == if id in catalog then (catalog[id].source, catalog[id].checksum) else (None, None)
  {}

  /** An item can be claimed while it is pending, behind the cursor, and its book published and of the wave. */
  lemma ClaimOnFields(books: Books, queue: Queue, priorityOnly: bool, id: int, cursor: int)
    requires id in queue && id in books
    ensures CanClaim(books, queue, priorityOnly, id, cursor) <==>
              queue[id].status == Pending && cursor < queue[id].sequence && !OutsideWave(books[id], priorityOnly)
  {}

  /** Cancelling at a claim reaches the pending items of books that are not published, or deleted, and no other. */
  lemma CancelOnFields(books: Books, queue: Queue, id: int)
    requires queue.Keys <= books.Keys && id in queue
    ensures CancelPending(books, queue)[id] ==
            if queue[id].status == Pending && (!books[id].published || books[id].deleted)
            then queue[id].(status := Cancelled) else queue[id]
  {}

  /**
   The rank: the two priority categories first, then the more readers, then the later reading, then the
   smaller id.
   */
  lemma RankOnFields(books: Books, x: int, y: int)
    requires x in books && y in books
    ensures var a, b := books[x], books[y];
            var p, q := a.category in {3, 7}, b.category in {3, 7};
            Precedes(books, x, y) <==>
              || (p && !q)
              || (p == q && a.readers > b.readers)
              || (p == q && a.readers == b.readers && a.lastRead > b.lastRead)
              || (p == q && a.readers == b.readers && a.lastRead == b.lastRead && x < y)
  {}

  /** It orders any two books one way. */
  lemma RankIsTotal(books: Books, x: int, y: int, z: int)
    requires x in books && y in books && z in books
    ensures x != y ==> (Precedes(books, x, y) <==> !Precedes(books, y, x))
    ensures !Precedes(books, x, x)
    ensures Precedes(books, x, y) && Precedes(books, y, z) ==> Precedes(books, x, z)
  {}
}
