/**
 The durable catalog queue: one item per book and job, synchronised with the published books before
 every claim. Books can be published, withdrawn or edited, and evidence invalidated, between any two
 steps; the process can die after a claim.
 */
module CatalogQueue {
  import opened Common

  const CHECKSUM_VERSION := 2
  const DEFAULT_CHECKSUM_VERSION := 1
  const PROFILE_VERSION := 3

  datatype Status = Pending | Running | Completed | Failed | Cancelled

  datatype Item = Item(
    sequence: int,
    status: Status,
    attempts: nat,
    source: Option<int>,
    checksum: Option<int>,
    version: int)

  /** A book with its publication, its derivation state, and the digests the database would compute now. */
  datatype Book = Book(
    published: bool,
    deleted: bool,
    category: int,
    derived: bool,
    stale: bool,
    profile: Option<int>,
    readers: nat,
    lastRead: int,
    source: int,
    registry: int,
    legacyRegistry: int)

  type Books = map<int, Book>

  type Queue = map<int, Item>

  predicate Target(b: Book) {
    b.published && !b.deleted
  }

  predicate Priority(b: Book) {
    b.category == 3 || b.category == 7
  }

  /** The books this wave works on. */
  predicate InWave(b: Book, priorityOnly: bool) {
    Target(b) && (priorityOnly ==> Priority(b))
  }

  predicate Outdated(b: Book) {
    !b.derived || b.stale || b.profile != Some(PROFILE_VERSION)
  }

  /** The pass whose evidence the rederivation must reproduce. */
  function SourceOf(queue: Queue, id: int): Option<int> {
    if id in queue then queue[id].source else None
  }

  function ChecksumOf(queue: Queue, id: int): Option<int> {
    if id in queue then queue[id].checksum else None
  }

  predicate SameEvidence(queue: Queue, catalog: Queue, id: int) {
    SourceOf(queue, id) == SourceOf(catalog, id) && ChecksumOf(queue, id) == ChecksumOf(catalog, id)
  }

  /** CountRemaining's condition for one book. */
  predicate Remaining(rederive: bool, books: Books, queue: Queue, catalog: Queue, id: int)
    requires id in books
  {
    || id !in queue
    || !queue[id].status.Completed?
    || (if rederive then !SameEvidence(queue, catalog, id) else Outdated(books[id]))
  }

  /** The WHERE clauses of the enqueueing statement. */
  predicate Candidate(rederive: bool, priorityOnly: bool, books: Books, queue: Queue, catalog: Queue, id: int)
    requires id in books
  {
    && InWave(books[id], priorityOnly)
    && (rederive || id !in queue || !queue[id].status.Completed? || Outdated(books[id]))
    && (if rederive then
          || id !in queue
          || (queue[id].status.Completed? && !SameEvidence(queue, catalog, id))
          || queue[id].status.Cancelled?
        else
          id !in queue || queue[id].status.Completed? || queue[id].status.Cancelled?)
  }

  // ---- Statements that treat every item on its own ----------------------------------------

  predicate Open(s: Status) {
    s.Pending? || s.Running? || s.Failed?
  }

  predicate Legacy(item: Item) {
    item.status.Completed? && item.version < CHECKSUM_VERSION
  }

  /** Replace a version 1 digest only when both stored digests still match the live book. */
  function Upgraded(b: Book, item: Item): Item {
    if !Legacy(item) then item
    else if item.source != Some(b.source) || item.checksum != Some(b.legacyRegistry) then
      item.(status := Pending, source := None, checksum := None, version := CHECKSUM_VERSION)
    else item.(checksum := Some(b.registry), version := CHECKSUM_VERSION)
  }

  /** Evidence that no longer matches the live book goes back to pending. */
  function Reproved(b: Book, item: Item, priorityOnly: bool): Item {
    if item.status.Completed? && item.version == CHECKSUM_VERSION && InWave(b, priorityOnly)
       && (item.source != Some(b.source) || item.checksum != Some(b.registry))
    then item.(status := Pending, source := None, checksum := None)
    else item
  }

  function Withdrawn(b: Book, item: Item): Item {
    if Open(item.status) && !Target(b) then item.(status := Cancelled) else item
  }

  function Recovered(b: Book, item: Item, recoverFailed: bool): Item {
    if Target(b) && (item.status.Running? || (recoverFailed && item.status.Failed?))
    then item.(status := Pending) else item
  }

  // ---- The queue order --------------------------------------------------------------------

  predicate Precedes(books: Books, x: int, y: int)
    requires x in books && y in books
  {
    var a, b := books[x], books[y];
    if Priority(a) != Priority(b) then Priority(a)
    else if a.readers != b.readers then a.readers > b.readers
    else if a.lastRead != b.lastRead then a.lastRead > b.lastRead
    else x < y
  }

  /** ROW_NUMBER() OVER (ORDER BY ...): every candidate once, in order. */
  ghost predicate Ranked(books: Books, candidates: set<int>, order: seq<int>) {
    && (forall id :: id in order <==> id in candidates)
    && candidates <= books.Keys
    && (forall i, j :: 0 <= i < j < |order| ==> order[i] in books && order[j] in books && Precedes(books, order[i], order[j]))
  }

  method RankBooks(books: Books, candidates: set<int>) returns (order: seq<int>)
    requires candidates <= books.Keys
    ensures Ranked(books, candidates, order)
    ensures forall i, j :: 0 <= i < j < |order| ==> order[i] != order[j]
  {
    hide Ranked, Precedes;
    order := [];
    var rest := candidates;
    RankNone(books, candidates - rest);
    while rest != {}
      invariant rest <= candidates
      invariant Ranked(books, candidates - rest, order)
      decreases rest
    {
      var id := Any(rest);
      var k := Slot(books, candidates - rest, order, id);
      InsertRanked(books, candidates - rest, order, id, k);
      assert candidates - (rest - {id}) == candidates - rest + {id};
      rest := rest - {id};
      order := order[..k] + [id] + order[k..];
    }
    assert candidates - rest == candidates;
    RankedOnce(books, candidates, order);
  }

  /** The order decides between any two candidates as the comparison does. */
  lemma RankDecides(books: Books, candidates: set<int>, order: seq<int>, i: nat, j: nat)
    requires Ranked(books, candidates, order) && i < |order| && j < |order| && i != j
    requires order[i] in books && order[j] in books && Precedes(books, order[i], order[j])
    ensures i < j
  {}

  lemma RankedOnce(books: Books, candidates: set<int>, order: seq<int>)
    requires Ranked(books, candidates, order)
    ensures forall i, j :: 0 <= i < j < |order| ==> order[i] != order[j]
  {
    forall i, j | 0 <= i < j < |order| ensures order[i] != order[j] {
      assert Precedes(books, order[i], order[j]);
    }
  }

  method Slot(books: Books, ghost ranked: set<int>, order: seq<int>, id: int) returns (k: nat)
    requires Ranked(books, ranked, order) && id in books
    ensures k <= |order|
    ensures forall i :: 0 <= i < k ==> order[i] in books && Precedes(books, order[i], id)
    ensures k < |order| ==> order[k] in books && !Precedes(books, order[k], id)
  {
    k := 0;
    assert forall i :: 0 <= i < |order| ==> order[i] in order;
    while k < |order| && Precedes(books, order[k], id)
      invariant k <= |order|
      invariant forall i :: 0 <= i < k ==> order[i] in books && Precedes(books, order[i], id)
    {
      k := k + 1;
    }
  }

  lemma RankNone(books: Books, nobody: set<int>)
    requires nobody == {}
    ensures Ranked(books, nobody, [])
  {}

  lemma InsertRanked(books: Books, ranked: set<int>, order: seq<int>, id: int, k: nat)
    requires Ranked(books, ranked, order) && id in books && id !in ranked && k <= |order|
    requires forall i :: 0 <= i < k ==> order[i] in books && Precedes(books, order[i], id)
    requires k < |order| ==> order[k] in books && !Precedes(books, order[k], id)
    ensures Ranked(books, ranked + {id}, order[..k] + [id] + order[k..])
  {
    var result := order[..k] + [id] + order[k..];
    assert forall i :: 0 <= i < |result| ==> result[i] == if i < k then order[i] else if i == k then id else order[i - 1];
    forall x | x in ranked ensures x in result {
      var i :| 0 <= i < |order| && order[i] == x;
      assert result[if i < k then i else i + 1] == x;
    }
    assert result[k] == id;
    forall i, j | 0 <= i < j < |result|
      ensures result[i] in books && result[j] in books && Precedes(books, result[i], result[j])
    {
      assert i != k ==> result[i] in order;
      assert j != k ==> result[j] in order;
      if i == k {
        if j - 1 > k {
          assert Precedes(books, order[k], order[j - 1]);
        }
      }
    }
  }
}
