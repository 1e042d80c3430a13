/**
 The verifier on a whole book: its pages in batches, the rows of pages it does not have, and its
 assets. `derive` gives the units derived from a batch, or nothing when the derivation fails.
 */
module CoverageBook {
  import opened Common
  import opened Coverage
  import opened Counting
  import opened CoverageBatch

  const PAGE_BATCH_SIZE := 128

  /** An active registry row of the book; the page may be NULL. */
  datatype ActiveRow = ActiveRow(heading: int, page: Option<int>, kind: string, text: string, language: string, role: string,
                                 hash: Option<string>, start: Option<int>, end: Option<int>)

  type Deriver = Source -> Option<seq<DerivedUnit>>

  datatype Counts = Counts(documents: nat, covered: nat, uncovered: nat, unexpected: int)

  datatype Verdict = Failed | Counted(counts: Counts)

  function Plus(a: Counts, b: Counts): Counts {
    Counts(a.documents + b.documents, a.covered + b.covered, a.uncovered + b.uncovered, a.unexpected + b.unexpected)
  }

  // ---- Which rows belong to which batch ------------------------------------------------------

  function RowOf(a: ActiveRow): Row
    requires a.page.Some?
  {
    Row(a.heading, a.page.value, a.kind, a.text, a.language, a.role, a.hash, a.start, a.end)
  }

  predicate HasPage(pages: seq<SourcePage>, page: int) {
    exists i :: 0 <= i < |pages| && pages[i].page == page
  }

  /** content_role = 'book_page' AND page_id = ANY(...), for the pages given. */
  predicate OnPages(a: ActiveRow, pages: seq<SourcePage>) {
    a.role == ROLE_BOOK_PAGE && a.page.Some? && HasPage(pages, a.page.value)
  }

  function PageRows(active: seq<ActiveRow>, pages: seq<SourcePage>): seq<Row> {
    if active == [] then []
    else
      var a := active[|active| - 1];
      PageRows(active[..|active| - 1], pages) + if OnPages(a, pages) then [RowOf(a)] else []
  }

  function StrayRows(active: seq<ActiveRow>, pages: seq<SourcePage>): nat {
    if active == [] then 0
    else
      var a := active[|active| - 1];
      StrayRows(active[..|active| - 1], pages) + if a.role == ROLE_BOOK_PAGE && !OnPages(a, pages) then 1 else 0
  }

  /** A row that is not a page's must name one all the same, or reading it fails. */
  predicate Readable(a: ActiveRow) {
    a.role == ROLE_BOOK_PAGE || a.page.Some?
  }

  function AssetRows(active: seq<ActiveRow>): seq<Row>
    requires forall a | a in active :: Readable(a)
  {
    if active == [] then []
    else
      var a := active[|active| - 1];
      assert a in active && Readable(a);
      AssetRows(active[..|active| - 1]) + if a.role != ROLE_BOOK_PAGE then [RowOf(a)] else []
  }

  function BatchCount(pages: seq<SourcePage>): nat {
    (|pages| + PAGE_BATCH_SIZE - 1) / PAGE_BATCH_SIZE
  }

  /** The pages before batch `n`. */
  function Before(pages: seq<SourcePage>, n: nat): nat {
    Min(PAGE_BATCH_SIZE * n, |pages|)
  }

  function Batch(pages: seq<SourcePage>, n: nat): seq<SourcePage> {
    pages[Before(pages, n)..Before(pages, n + 1)]
  }

  /** Every batch can be derived and every row of an asset read. */
  predicate Processable(pages: seq<SourcePage>, assets: seq<SourceAsset>, derive: Deriver, active: seq<ActiveRow>) {
    && (forall n: nat | n < BatchCount(pages) :: derive(Pages(Batch(pages, n))).Some?)
    && derive(Assets(assets)).Some?
    && forall a | a in active :: Readable(a)
  }

  // ---- The counts --------------------------------------------------------------------------

  ghost function BatchCounts(book: int, source: Source, units: seq<DerivedUnit>, rows: seq<Row>): Counts {
    var kept := Effective(Documents(book, source));
    Counts(|kept|, Sum(kept.Keys, RequiredCount(kept)), Uncovered(book, Documents(book, source), UnitSpans(book, units), rows),
           Unexpected(book, UnitSpans(book, units), rows))
  }

  ghost function PageBatch(book: int, pages: seq<SourcePage>, derive: Deriver, active: seq<ActiveRow>, n: nat): Counts
    requires derive(Pages(Batch(pages, n))).Some?
  {
    var batch := Batch(pages, n);
    BatchCounts(book, Pages(batch), derive(Pages(batch)).value, PageRows(active, batch))
  }

  /** The counts of the first `n` batches together. */
  ghost function PageCounts(book: int, pages: seq<SourcePage>, derive: Deriver, active: seq<ActiveRow>, n: nat): Counts
    requires forall k: nat | k < n :: derive(Pages(Batch(pages, k))).Some?
  {
    if n == 0 then Counts(0, 0, 0, 0)
    else Plus(PageCounts(book, pages, derive, active, n - 1), PageBatch(book, pages, derive, active, n - 1))
  }

  ghost function BookCounts(book: int, pages: seq<SourcePage>, assets: seq<SourceAsset>, derive: Deriver,
                            active: seq<ActiveRow>): Counts
    requires Processable(pages, assets, derive, active)
  {
    var paged := PageCounts(book, pages, derive, active, BatchCount(pages));
    Plus(paged.(unexpected := paged.unexpected + StrayRows(active, pages)),
         BatchCounts(book, Assets(assets), derive(Assets(assets)).value, AssetRows(active)))
  }

  predicate WellPlacedBook(book: int, pages: seq<SourcePage>, assets: seq<SourceAsset>) {
    && (forall d | d in PageDocuments(book, pages) :: WellPlaced(d))
    && (forall d | d in AssetDocuments(book, assets) :: WellPlaced(d))
  }

  /** One batch, with the units derived from it. */
  method VerifySource(book: int, source: Source, units: seq<DerivedUnit>, rows: seq<Row>) returns (counts: Counts)
    requires forall d | d in Documents(book, source) :: WellPlaced(d)
    ensures counts == BatchCounts(book, source, units, rows)
  {
    hide Effective, Unexpected, Uncovered, WellPlaced;
    var documents, covered, uncovered, unexpected := VerifyBatch(book, Documents(book, source), units, rows);
    counts := Counts(documents, covered, uncovered, unexpected);
  }

  /** verifyCanonicalUnitCoverage, for one book. */
  method VerifyBook(book: int, pages: seq<SourcePage>, assets: seq<SourceAsset>, derive: Deriver, active: seq<ActiveRow>)
    returns (verdict: Verdict)
    requires WellPlacedBook(book, pages, assets)
    ensures verdict.Failed? <==> !Processable(pages, assets, derive, active)
    ensures verdict.Counted? ==> verdict.counts == BookCounts(book, pages, assets, derive, active)
  {
    hide BatchCounts, PageRows, StrayRows, AssetRows, WellPlaced, PageDocuments, Readable;
    var counts := Counts(0, 0, 0, 0);
    var n := 0;
    while PAGE_BATCH_SIZE * n < |pages|
      invariant n <= BatchCount(pages)
      invariant forall k: nat | k < n :: derive(Pages(Batch(pages, k))).Some?
      invariant counts == PageCounts(book, pages, derive, active, n)
    {
      var start := PAGE_BATCH_SIZE * n;
      var batch := pages[start..Min(start + PAGE_BATCH_SIZE, |pages|)];
      assert batch == Batch(pages, n);
      var derived := derive(Pages(batch));
      if derived.None? {
        return Failed;
      }
      BatchWellPlaced(book, pages, n);
      var more := VerifySource(book, Pages(batch), derived.value, PageRows(active, batch));
      counts := Plus(counts, more);
      n := n + 1;
    }
    counts := counts.(unexpected := counts.unexpected + StrayRows(active, pages));
    var derived := derive(Assets(assets));
    if derived.None? || exists a :: a in active && !Readable(a) {
      return Failed;
    }
    var more := VerifySource(book, Assets(assets), derived.value, AssetRows(active));
    return Counted(Plus(counts, more));
  }

  lemma BatchWellPlaced(book: int, pages: seq<SourcePage>, n: nat)
    requires forall d | d in PageDocuments(book, pages) :: WellPlaced(d)
    ensures forall d | d in PageDocuments(book, Batch(pages, n)) :: WellPlaced(d)
  {
    hide WellPlaced;
    forall d | d in PageDocuments(book, Batch(pages, n)) ensures WellPlaced(d) {
      DocumentOfBatch(book, pages, n, d);
    }
  }

  // ---- Every row is judged once ----------------------------------------------------------------

  lemma {:induction false} PageRowsOf(active: seq<ActiveRow>, pages: seq<SourcePage>, r: Row)
    ensures r in PageRows(active, pages) <==> exists a :: a in active && OnPages(a, pages) && RowOf(a) == r
  {
    hide OnPages;
    if active != [] {
      var n := |active| - 1;
      PageRowsOf(active[..n], pages, r);
      assert active == active[..n] + [active[n]];
    }
  }

  lemma {:induction false} AssetRowsOf(active: seq<ActiveRow>, r: Row)
    requires forall a | a in active :: Readable(a)
    ensures r in AssetRows(active) <==> exists a :: a in active && a.role != ROLE_BOOK_PAGE && RowOf(a) == r
  {
    if active != [] {
      var n := |active| - 1;
      AssetRowsOf(active[..n], r);
      assert active == active[..n] + [active[n]];
    }
  }

  /** The rows of a batch show, column by column, the active page rows that stand on its pages. */
  lemma PageRowsExactly(active: seq<ActiveRow>, pages: seq<SourcePage>, r: Row)
    ensures r in PageRows(active, pages) <==>
            && r.role == "book_page" && (exists i :: 0 <= i < |pages| && pages[i].page == r.page)
            && ActiveRow(r.heading, Some(r.page), r.kind, r.text, r.language, r.role, r.hash, r.start, r.end) in active
  {
    PageRowsOf(active, pages, r);
  }

  /** The rows of the asset batch show, column by column, the active rows that are not a page's. */
  lemma AssetRowsExactly(active: seq<ActiveRow>, r: Row)
    requires forall a | a in active :: a.role == "book_page" || a.page.Some?
    ensures r in AssetRows(active) <==>
            && r.role != "book_page"
            && ActiveRow(r.heading, Some(r.page), r.kind, r.text, r.language, r.role, r.hash, r.start, r.end) in active
  {
    AssetRowsOf(active, r);
  }

  lemma {:induction false} StrayIsZero(active: seq<ActiveRow>, pages: seq<SourcePage>)
    ensures StrayRows(active, pages) == 0 <==> forall a | a in active && a.role == ROLE_BOOK_PAGE :: OnPages(a, pages)
  {
    hide OnPages;
    if active != [] {
      var n := |active| - 1;
      StrayIsZero(active[..n], pages);
      assert active == active[..n] + [active[n]];
    }
  }

  /** Two runs of pages without a common page share no row. */
  lemma {:induction false} RowsOfBoth(active: seq<ActiveRow>, before: seq<SourcePage>, next: seq<SourcePage>)
    requires Loaded(Pages(before + next))
    ensures |PageRows(active, before + next)| == |PageRows(active, before)| + |PageRows(active, next)|
  {
    if active != [] {
      var n := |active| - 1;
      RowsOfBoth(active[..n], before, next);
      OnOneOf(active[n], before, next);
    }
  }

  lemma OnOneOf(a: ActiveRow, before: seq<SourcePage>, next: seq<SourcePage>)
    requires Loaded(Pages(before + next))
    ensures OnPages(a, before + next) <==> OnPages(a, before) || OnPages(a, next)
    ensures !(OnPages(a, before) && OnPages(a, next))
  {
    if a.page.Some? {
      PagesOfBoth(before, next, a.page.value);
    }
  }

  lemma PagesOfBoth(before: seq<SourcePage>, next: seq<SourcePage>, page: int)
    requires Loaded(Pages(before + next))
    ensures HasPage(before + next, page) <==> HasPage(before, page) || HasPage(next, page)
    ensures !(HasPage(before, page) && HasPage(next, page))
  {
    var all := before + next;
    if j :| 0 <= j < |next| && next[j].page == page {
      assert all[|before| + j] == next[j];
      forall i | 0 <= i < |before| ensures before[i].page != page {
        assert all[i] == before[i];
      }
    }
    if i :| 0 <= i < |before| && before[i].page == page {
      assert all[i] == before[i];
    }
  }

  ghost function RowsInBatches(active: seq<ActiveRow>, pages: seq<SourcePage>, n: nat): nat {
    if n == 0 then 0 else RowsInBatches(active, pages, n - 1) + |PageRows(active, Batch(pages, n - 1))|
  }

  lemma {:induction false} BatchesShareNoRow(active: seq<ActiveRow>, pages: seq<SourcePage>, n: nat)
    requires Loaded(Pages(pages))
    ensures RowsInBatches(active, pages, n) == |PageRows(active, pages[..Before(pages, n)])|
  {
    if n == 0 {
      NoPagesNoRows(active);
    } else {
      BatchesShareNoRow(active, pages, n - 1);
      var before := pages[..Before(pages, n - 1)];
      assert before + Batch(pages, n - 1) == pages[..Before(pages, n)];
      RowsOfBoth(active, before, Batch(pages, n - 1));
    }
  }

  lemma {:induction false} NoPagesNoRows(active: seq<ActiveRow>)
    ensures PageRows(active, []) == []
  {
    if active != [] {
      NoPagesNoRows(active[..|active| - 1]);
    }
  }

  lemma {:induction false} RowsByRole(active: seq<ActiveRow>, pages: seq<SourcePage>)
    requires forall a | a in active :: Readable(a)
    ensures |PageRows(active, pages)| + StrayRows(active, pages) + |AssetRows(active)| == |active|
  {
    hide HasPage;
    if active != [] {
      assert active[|active| - 1] in active;
      RowsByRole(active[..|active| - 1], pages);
    }
  }

  lemma AllBatches(pages: seq<SourcePage>)
    ensures Before(pages, BatchCount(pages)) == |pages|
  {}

  /** Every active row goes to one batch of pages, is stray, or goes to the asset batch, and never twice. */
  lemma EveryRowIsJudgedOnce(active: seq<ActiveRow>, pages: seq<SourcePage>)
    requires Loaded(Pages(pages)) && forall a | a in active :: Readable(a)
    ensures RowsInBatches(active, pages, BatchCount(pages)) + StrayRows(active, pages) + |AssetRows(active)| == |active|
  {
    BatchesShareNoRow(active, pages, BatchCount(pages));
    AllBatches(pages);
    assert pages[..|pages|] == pages;
    RowsByRole(active, pages);
  }

  // ---- What zero means for the book ------------------------------------------------------------

  /** A rune of a document lies inside a complete active row of the book. */
  ghost predicate InActive(book: int, active: seq<ActiveRow>, key: DocumentKey, rune: nat) {
    exists a :: a in active && a.page.Some? && Complete(RowOf(a)) && Covers(SpanOf(book, RowOf(a)), key, rune)
  }

  ghost predicate BookCovered(book: int, documents: seq<Document>, active: seq<ActiveRow>) {
    forall d, rune | d in documents && rune in RequiredRunes(d) :: InActive(book, active, d.key, rune)
  }

  /** Every active row belongs to the book and is a derived span of its batch, each span used once. */
  predicate RowsExact(book: int, pages: seq<SourcePage>, assets: seq<SourceAsset>, derive: Deriver, active: seq<ActiveRow>)
    requires Processable(pages, assets, derive, active)
  {
    && (forall a | a in active && a.role == ROLE_BOOK_PAGE :: OnPages(a, pages))
    && (forall n: nat | n < BatchCount(pages) ::
          ExactRows(book, UnitSpans(book, derive(Pages(Batch(pages, n))).value), PageRows(active, Batch(pages, n))))
    && ExactRows(book, UnitSpans(book, derive(Assets(assets)).value), AssetRows(active))
  }

  /** Only rows of the batch can cover a page of the batch. */
  lemma BatchCoveredByItsRows(book: int, batch: seq<SourcePage>, active: seq<ActiveRow>)
    ensures AllCovered(book, PageDocuments(book, batch), PageRows(active, batch))
            <==> BookCovered(book, PageDocuments(book, batch), active)
  {
    hide RequiredRunes, PageRows, Complete;
    PageDocumentsAt(book, batch);
    forall d, rune: nat | d in PageDocuments(book, batch)
      ensures InRow(book, PageRows(active, batch), d.key, rune) <==> InActive(book, active, d.key, rune)
    {
      var i :| 0 <= i < |batch| && PageDocument(book, batch[i]) == d;
      if InRow(book, PageRows(active, batch), d.key, rune) {
        var r :| r in PageRows(active, batch) && Complete(r) && Covers(SpanOf(book, r), d.key, rune);
        PageRowsOf(active, batch, r);
      }
      if InActive(book, active, d.key, rune) {
        var a :| a in active && a.page.Some? && Complete(RowOf(a)) && Covers(SpanOf(book, RowOf(a)), d.key, rune);
        assert a.role == ROLE_BOOK_PAGE && a.page.value == batch[i].page;
        PageRowsOf(active, batch, RowOf(a));
      }
    }
  }

  /** Only rows of assets can cover an asset. */
  lemma AssetsCoveredByTheirRows(book: int, assets: seq<SourceAsset>, active: seq<ActiveRow>)
    requires Loaded(Assets(assets)) && forall a | a in active :: Readable(a)
    ensures AllCovered(book, AssetDocuments(book, assets), AssetRows(active))
            <==> BookCovered(book, AssetDocuments(book, assets), active)
  {
    hide RequiredRunes, AssetRows, AssetDocuments, Complete;
    forall d, rune: nat | d in AssetDocuments(book, assets)
      ensures InRow(book, AssetRows(active), d.key, rune) <==> InActive(book, active, d.key, rune)
    {
      AssetDocumentsOf(book, assets, d);
      if InRow(book, AssetRows(active), d.key, rune) {
        var r :| r in AssetRows(active) && Complete(r) && Covers(SpanOf(book, r), d.key, rune);
        AssetRowsOf(active, r);
      }
      if InActive(book, active, d.key, rune) {
        var a :| a in active && a.page.Some? && Complete(RowOf(a)) && Covers(SpanOf(book, RowOf(a)), d.key, rune);
        assert a.role != ROLE_BOOK_PAGE;
        AssetRowsOf(active, RowOf(a));
      }
    }
  }

  predicate Clean(c: Counts) {
    c.uncovered == 0 && c.unexpected == 0
  }

  /** A batch is clean exactly when its rows are exact and its documents covered. */
  lemma BatchIsClean(book: int, source: Source, units: seq<DerivedUnit>, rows: seq<Row>)
    requires Loaded(source)
    ensures var counts := BatchCounts(book, source, units, rows);
            counts.unexpected >= 0
            && (Clean(counts) <==> ExactRows(book, UnitSpans(book, units), rows) && AllCovered(book, Documents(book, source), rows))
  {
    hide ExactRows, AllCovered, Documents, Unexpected, Uncovered, Effective, UnitSpans;
    var derived := UnitSpans(book, units);
    UnexpectedIsZero(book, derived, rows);
    GateIsExact(book, source, derived, rows);
  }

  lemma BatchIsLoaded(pages: seq<SourcePage>, n: nat)
    requires Loaded(Pages(pages))
    ensures Loaded(Pages(Batch(pages, n)))
  {}

  /** The first batches are clean together exactly when each of them is. */
  lemma {:induction false} BatchesAreClean(book: int, pages: seq<SourcePage>, derive: Deriver, active: seq<ActiveRow>, n: nat)
    requires Loaded(Pages(pages)) && forall k: nat | k < n :: derive(Pages(Batch(pages, k))).Some?
    ensures PageCounts(book, pages, derive, active, n).unexpected >= 0
    ensures Clean(PageCounts(book, pages, derive, active, n)) <==>
            forall k: nat | k < n ::
              && ExactRows(book, UnitSpans(book, derive(Pages(Batch(pages, k))).value), PageRows(active, Batch(pages, k)))
              && BookCovered(book, PageDocuments(book, Batch(pages, k)), active)
  {
    hide ExactRows, BookCovered, AllCovered, Batch, PageRows, BatchCounts, Loaded, PageDocuments;
    if n > 0 {
      var batch := Batch(pages, n - 1);
      BatchesAreClean(book, pages, derive, active, n - 1);
      BatchIsLoaded(pages, n - 1);
      BatchIsClean(book, Pages(batch), derive(Pages(batch)).value, PageRows(active, batch));
      BatchCoveredByItsRows(book, batch, active);
    }
  }

  lemma PageInBatch(pages: seq<SourcePage>, i: nat) returns (n: nat)
    requires i < |pages|
    ensures n < BatchCount(pages) && Before(pages, n) <= i < Before(pages, n + 1)
    ensures Batch(pages, n)[i - Before(pages, n)] == pages[i]
  {
    n := i / PAGE_BATCH_SIZE;
  }

  lemma DocumentInBatch(book: int, pages: seq<SourcePage>, d: Document)
    requires d in PageDocuments(book, pages)
    ensures exists n: nat :: n < BatchCount(pages) && d in PageDocuments(book, Batch(pages, n))
  {
    hide PageDocuments, PageDocument, BatchCount;
    PageDocumentsAt(book, pages);
    var i :| 0 <= i < |pages| && PageDocument(book, pages[i]) == d;
    var n := PageInBatch(pages, i);
    PageDocumentsAt(book, Batch(pages, n));
    assert PageDocuments(book, Batch(pages, n))[i - Before(pages, n)] == d;
  }

  lemma DocumentOfBatch(book: int, pages: seq<SourcePage>, n: nat, d: Document)
    requires d in PageDocuments(book, Batch(pages, n))
    ensures d in PageDocuments(book, pages)
  {
    hide PageDocuments, PageDocument;
    PageDocumentsAt(book, pages);
    PageDocumentsAt(book, Batch(pages, n));
    var i :| 0 <= i < |Batch(pages, n)| && PageDocument(book, Batch(pages, n)[i]) == d;
    assert PageDocuments(book, pages)[Before(pages, n) + i] == d;
  }

  /** Every page lies in a batch, so covering all batches covers the book. */
  lemma BatchesCoverPages(book: int, pages: seq<SourcePage>, active: seq<ActiveRow>)
    ensures BookCovered(book, PageDocuments(book, pages), active) <==>
            forall n: nat | n < BatchCount(pages) :: BookCovered(book, PageDocuments(book, Batch(pages, n)), active)
  {
    hide InActive, RequiredRunes, PageDocuments, Batch, BatchCount;
    forall d, n: nat | d in PageDocuments(book, Batch(pages, n)) ensures d in PageDocuments(book, pages) {
      DocumentOfBatch(book, pages, n, d);
    }
    forall d | d in PageDocuments(book, pages)
      ensures exists n: nat :: n < BatchCount(pages) && d in PageDocuments(book, Batch(pages, n))
    {
      DocumentInBatch(book, pages, d);
    }
  }

  /**
   The gate on a whole book: nothing is missing and nothing unexpected exactly when every active row
   belongs to a page or an asset of the book and is a derived span of its batch, each span used once,
   and every required rune of every page and asset lies in an active row.
   */
  lemma BookGateIsExact(book: int, pages: seq<SourcePage>, assets: seq<SourceAsset>, derive: Deriver, active: seq<ActiveRow>)
    requires Loaded(Pages(pages)) && Loaded(Assets(assets)) && Processable(pages, assets, derive, active)
    ensures Clean(BookCounts(book, pages, assets, derive, active)) <==>
            && RowsExact(book, pages, assets, derive, active)
            && BookCovered(book, PageDocuments(book, pages), active)
            && BookCovered(book, AssetDocuments(book, assets), active)
  {
    hide ExactRows, BookCovered, AllCovered, Batch, PageRows, AssetRows, StrayRows, BatchCounts, PageCounts, Loaded, OnPages,
         PageDocuments, AssetDocuments, BatchCount;
    BatchesAreClean(book, pages, derive, active, BatchCount(pages));
    BatchesCoverPages(book, pages, active);
    StrayIsZero(active, pages);
    BatchIsClean(book, Assets(assets), derive(Assets(assets)).value, AssetRows(active));
    AssetsCoveredByTheirRows(book, assets, active);
  }

  // ---- Batch boundaries change no total ----------------------------------------------------------

  /** How many documents require a rune, and how many runes they require. */
  ghost function Demanded(documents: seq<Document>): (nat, nat) {
    if documents == [] then (0, 0)
    else
      var n := |documents| - 1;
      var before, runes := Demanded(documents[..n]), |RequiredRunes(documents[n])|;
      (before.0 + (if runes > 0 then 1 else 0), before.1 + runes)
  }

  lemma {:induction false} SumSame(keys: set<DocumentKey>, a: DocumentKey -> nat, b: DocumentKey -> nat)
    requires forall k | k in keys :: a(k) == b(k)
    ensures Sum(keys, a) == Sum(keys, b)
    decreases keys
  {
    if keys != {} {
      var k :| k in keys;
      SumTakes(keys, a, k);
      SumTakes(keys, b, k);
      SumSame(keys - {k}, a, b);
    }
  }

  /** One more kept document under a key of its own. */
  lemma RequiredCountGrows(kept: map<DocumentKey, Document>, d: Document)
    requires d.key !in kept
    ensures var kept' := kept[d.key := d];
            && |kept'| == |kept| + 1
            && Sum(kept'.Keys, RequiredCount(kept')) == Sum(kept.Keys, RequiredCount(kept)) + |RequiredRunes(d)|
  {
    hide RequiredRunes;
    var kept' := kept[d.key := d];
    assert kept'.Keys == kept.Keys + {d.key} && kept'.Keys - {d.key} == kept.Keys;
    assert |kept'| == |kept'.Keys| && |kept| == |kept.Keys|;
    SumTakes(kept'.Keys, RequiredCount(kept'), d.key);
    SumSame(kept.Keys, RequiredCount(kept'), RequiredCount(kept));
  }

  lemma LastKeyIsNew(documents: seq<Document>)
    requires DistinctKeys(documents) && documents != []
    ensures documents[|documents| - 1].key !in Effective(documents[..|documents| - 1])
  {
    hide Effective;
    var n := |documents| - 1;
    if documents[n].key in Effective(documents[..n]) {
      var i := KeyIsKept(documents[..n], documents[n].key);
      assert false;
    }
  }

  lemma NoDocuments()
    ensures Sum(Effective([]).Keys, RequiredCount(Effective([]))) == 0
  {}

  lemma {:induction false} DistinctTotals(documents: seq<Document>)
    requires DistinctKeys(documents)
    ensures var kept := Effective(documents);
            Demanded(documents) == (|kept|, Sum(kept.Keys, RequiredCount(kept)))
  {
    hide RequiredRunes, RequiredCount, Sum;
    if documents == [] {
      NoDocuments();
    } else {
      var n := |documents| - 1;
      DistinctTotals(documents[..n]);
      LastKeyIsNew(documents);
      assert |RequiredRunes(documents[n])| == 0 <==> RequiredRunes(documents[n]) == {};
      RequiredCountGrows(Effective(documents[..n]), documents[n]);
    }
  }

  lemma {:induction false} DemandedOfBoth(book: int, before: seq<SourcePage>, next: seq<SourcePage>)
    ensures var a, b, both := Demanded(PageDocuments(book, before)), Demanded(PageDocuments(book, next)),
                              Demanded(PageDocuments(book, before + next));
            both.0 == a.0 + b.0 && both.1 == a.1 + b.1
  {
    hide RequiredRunes, PageDocument, PageDocuments, Demanded;
    if next == [] {
      NothingDemanded(book);
      assert before + next == before;
    } else {
      var n, all := |next| - 1, before + next;
      DemandedOfBoth(book, before, next[..n]);
      DemandedOfOneMore(book, all, before + next[..n], next[n]);
      DemandedOfOneMore(book, next, next[..n], next[n]);
    }
  }

  lemma DemandedOfOneMore(book: int, pages: seq<SourcePage>, most: seq<SourcePage>, last: SourcePage)
    requires pages == most + [last]
    ensures var a, runes := Demanded(PageDocuments(book, most)), |RequiredRunes(PageDocument(book, last))|;
            Demanded(PageDocuments(book, pages)) == (a.0 + (if runes > 0 then 1 else 0), a.1 + runes)
  {
    hide RequiredRunes, PageDocument;
    assert pages[..|most|] == most;
    var before := PageDocuments(book, most);
    assert (before + [PageDocument(book, last)])[..|before|] == before;
  }

  lemma BatchTotals(book: int, source: Source, units: seq<DerivedUnit>, rows: seq<Row>)
    requires Loaded(source)
    ensures var counts := BatchCounts(book, source, units, rows);
            (counts.documents, counts.covered) == Demanded(Documents(book, source))
  {
    hide Documents, Effective, Demanded;
    LoadedKeysDiffer(book, source);
    DistinctTotals(Documents(book, source));
  }

  lemma {:induction false} PageTotals(book: int, pages: seq<SourcePage>, derive: Deriver, active: seq<ActiveRow>, n: nat)
    requires Loaded(Pages(pages)) && forall k: nat | k < n :: derive(Pages(Batch(pages, k))).Some?
    ensures var counts := PageCounts(book, pages, derive, active, n);
            (counts.documents, counts.covered) == Demanded(PageDocuments(book, pages[..Before(pages, n)]))
  {
    hide Demanded, Loaded, PageRows, BatchCounts, PageDocuments;
    if n == 0 {
      NothingDemanded(book);
    } else {
      var batch := Batch(pages, n - 1);
      PageTotals(book, pages, derive, active, n - 1);
      BatchIsLoaded(pages, n - 1);
      BatchTotals(book, Pages(batch), derive(Pages(batch)).value, PageRows(active, batch));
      assert pages[..Before(pages, n - 1)] + batch == pages[..Before(pages, n)];
      DemandedOfBoth(book, pages[..Before(pages, n - 1)], batch);
    }
  }

  lemma NothingDemanded(book: int)
    ensures Demanded(PageDocuments(book, [])) == (0, 0)
  {}

  /** The documents and required runes reported are those of all pages and assets, however the pages were batched. */
  lemma TotalsIgnoreBatches(book: int, pages: seq<SourcePage>, assets: seq<SourceAsset>, derive: Deriver, active: seq<ActiveRow>)
    requires Loaded(Pages(pages)) && Loaded(Assets(assets)) && Processable(pages, assets, derive, active)
    ensures var counts := BookCounts(book, pages, assets, derive, active);
            var paged, rest := Demanded(PageDocuments(book, pages)), Demanded(AssetDocuments(book, assets));
            counts.documents == paged.0 + rest.0 && counts.covered == paged.1 + rest.1
  {
    hide Demanded, Loaded, PageRows, AssetRows, StrayRows, BatchCounts, PageCounts, PageDocuments, AssetDocuments;
    PageTotals(book, pages, derive, active, BatchCount(pages));
    AllBatches(pages);
    assert pages[..|pages|] == pages;
    BatchTotals(book, Assets(assets), derive(Assets(assets)).value, AssetRows(active));
  }
}
