/** One batch of the verifier: required runes of the documents, matched against the active rows. */
module CoverageBatch {
  import opened Common
  import opened Bitmaps
  import opened Counting
  import opened Coverage

  // ---- The specification -------------------------------------------------------------------

  /** The document kept for each key: the last one with that key that requires any rune. */
  ghost function Effective(documents: seq<Document>): map<DocumentKey, Document> {
    if documents == [] then map[]
    else
      var before, d := Effective(documents[..|documents| - 1]), documents[|documents| - 1];
      if RequiredRunes(d) == {} then before else before[d.key := d]
  }

  predicate Complete(r: Row) {
    r.hash.Some? && r.start.Some? && r.end.Some?
  }

  function SpanOf(book: int, r: Row): Span
    requires Complete(r)
  {
    Span(KeyOf(book, r.heading, r.page, r.role, r.language, r.hash.value), r.kind, r.start.value, r.end.value, r.text)
  }

  function SpansOf(book: int, rows: seq<Row>): seq<Span> {
    if rows == [] then []
    else
      var r := rows[|rows| - 1];
      SpansOf(book, rows[..|rows| - 1]) + if Complete(r) then [SpanOf(book, r)] else []
  }

  /** A unit derived from the source; without a heading it is front matter. */
  datatype DerivedUnit = DerivedUnit(heading: Option<int>, page: int, kind: string, text: string, language: string, role: string,
                                     hash: string, start: int, end: int)

  function UnitSpan(book: int, u: DerivedUnit): Span {
    var heading := if u.heading.Some? then u.heading.value else 0;
    Span(KeyOf(book, heading, u.page, u.role, u.language, u.hash), u.kind, u.start, u.end, u.text)
  }

  function UnitSpans(book: int, units: seq<DerivedUnit>): (r: seq<Span>)
    ensures |r| == |units| && forall i :: 0 <= i < |r| ==> r[i] == UnitSpan(book, units[i])
  {
    seq(|units|, i requires 0 <= i < |units| => UnitSpan(book, units[i]))
  }

  /** The rows that match a derived span, each derived span used at most once. */
  ghost function Matched(book: int, derived: seq<Span>, rows: seq<Row>): multiset<Span> {
    multiset(SpansOf(book, rows)) * multiset(derived)
  }

  predicate Covers(s: Span, key: DocumentKey, i: nat) {
    s.document == key && Within(i, s.start, s.end)
  }

  ghost predicate IsCovered(key: DocumentKey, i: nat, matched: multiset<Span>) {
    exists s :: s in matched && Covers(s, key, i)
  }

  /** The runes of a document inside a matched row. */
  ghost function CoveredRunes(d: Document, key: DocumentKey, matched: multiset<Span>): set<nat> {
    set i: nat | i < |d.text| && IsCovered(key, i, matched)
  }

  ghost function RequiredCount(kept: map<DocumentKey, Document>): DocumentKey -> nat {
    key => if key in kept then |RequiredRunes(kept[key])| else 0
  }

  ghost function UncoveredCount(kept: map<DocumentKey, Document>, matched: multiset<Span>): DocumentKey -> nat {
    key => if key in kept then |RequiredRunes(kept[key]) - CoveredRunes(kept[key], key, matched)| else 0
  }

  // ---- The scan ----------------------------------------------------------------------------

  type CoverageMap = map<DocumentKey, DocumentCoverage>

  /** No document's covered bits share an array with anything else. */
  ghost predicate Apart(m: CoverageMap) {
    && (forall a, b | a in m && b in m :: m[a].required != m[b].actual)
    && (forall a, b | a in m && b in m && a != b :: m[a].actual != m[b].actual)
  }

  ghost function Arrays(m: CoverageMap): set<object> {
    (set key | key in m :: m[key].required as object) + (set key | key in m :: m[key].actual as object)
  }

  /** The map holds the required runes of the kept documents. */
  ghost predicate Represents(m: CoverageMap, kept: map<DocumentKey, Document>)
    reads Arrays(m)
  {
    && m.Keys == kept.Keys && Apart(m)
    && forall key | key in m ::
         && m[key].runeCount == |kept[key].text|
         && m[key].required.Length == m[key].actual.Length == WordCount(m[key].runeCount)
         && Members(m[key].required[..]) == RequiredRunes(kept[key])
  }

  /** The map also holds the runes covered by the rows matched so far. */
  ghost predicate Tracks(m: CoverageMap, kept: map<DocumentKey, Document>, matched: multiset<Span>)
    reads Arrays(m)
  {
    && Represents(m, kept)
    && forall key | key in m :: Members(m[key].actual[..]) == CoveredRunes(kept[key], key, matched)
  }

  lemma NothingTracked()
    ensures Tracks(map[], Effective([]), multiset{})
  {}

  lemma NextEffective(documents: seq<Document>, n: nat)
    requires n < |documents|
    ensures var before, d := Effective(documents[..n]), documents[n];
            Effective(documents[..n + 1]) == if RequiredRunes(d) == {} then before else before[d.key := d]
  {
    hide RequiredRunes;
    assert documents[..n + 1][..n] == documents[..n];
  }

  /** A fresh coverage record of a document can take its place in the map. */
  lemma TracksAnother(m: CoverageMap, kept: map<DocumentKey, Document>, d: Document, c: DocumentCoverage)
    requires Tracks(m, kept, multiset{})
    requires c.required !in Arrays(m) && c.actual !in Arrays(m) && c.required != c.actual
    requires c.runeCount == |d.text| && c.required.Length == c.actual.Length == WordCount(|d.text|)
    requires Members(c.required[..]) == RequiredRunes(d) && Members(c.actual[..]) == {}
    ensures Tracks(m[d.key := c], kept[d.key := d], multiset{})
  {
    hide Members, RequiredRunes, Covers;
    assert forall key | key in m :: m[key].required in Arrays(m) && m[key].actual in Arrays(m);
    assert CoveredRunes(d, d.key, multiset{}) == {};
  }

  /** canonicalRequiredCoverage: later documents replace earlier ones with the same key. */
  method RequireDocuments(documents: seq<Document>) returns (m: CoverageMap)
    requires forall d | d in documents :: WellPlaced(d)
    ensures forall key | key in m :: fresh(m[key].required) && fresh(m[key].actual)
    ensures Tracks(m, Effective(documents), multiset{})
  {
    hide Members, Required, Effective, RequiredRunes, CoveredRunes;
    m := map[];
    NothingTracked();
    for index := 0 to |documents|
      invariant forall key | key in m :: fresh(m[key].required) && fresh(m[key].actual)
      invariant Tracks(m, Effective(documents[..index]), multiset{})
    {
      var d := documents[index];
      var c := MarkRequired(d);
      var count := BitmapCount(c.required);
      assert count == 0 <==> RequiredRunes(d) == {};
      NextEffective(documents, index);
      if count > 0 {
        TracksAnother(m, Effective(documents[..index]), d, c);
        m := m[d.key := c];
      }
    }
    assert documents[..|documents|] == documents;
  }

  /** markCanonicalRunes: the runes of a matched span are covered in its document, if that is kept. */
  method MarkSpan(m: CoverageMap, span: Span, ghost kept: map<DocumentKey, Document>, ghost matched: multiset<Span>)
    requires Tracks(m, kept, matched)
    modifies set key | key in m :: m[key].actual
    ensures Tracks(m, kept, matched + multiset{span})
  {
    hide Members, BitAt, Required;
    if span.document !in m {
      return;
    }
    var c := m[span.document];
    EnoughWords(c.runeCount);
    SetRange(c.actual, span.start, span.end, c.runeCount);
  }

  /** One more row: it matches exactly when its span is still unused. */
  lemma MatchOne(e: multiset<Span>, p: multiset<Span>, x: Span)
    ensures (e - p)[x] > 0 ==> (p + multiset{x}) * e == p * e + multiset{x}
    ensures (e - p)[x] > 0 ==> e - (p + multiset{x}) == e - p - multiset{x}
    ensures (e - p)[x] == 0 ==> (p + multiset{x}) * e == p * e
    ensures (e - p)[x] == 0 ==> e - (p + multiset{x}) == e - p
  {}

  /** What is left of the derived spans after some rows. */
  ghost function Unused(book: int, derived: seq<Span>, rows: seq<Row>): multiset<Span> {
    multiset(derived) - multiset(SpansOf(book, rows))
  }

  lemma NoRows(book: int, derived: seq<Span>, rows: seq<Row>)
    ensures Unused(book, derived, rows[..0]) == multiset(derived)
    ensures Matched(book, derived, rows[..0]) == multiset{}
  {}

  lemma NextRow(book: int, derived: seq<Span>, rows: seq<Row>, n: nat)
    requires n < |rows|
    ensures var unused, unused' := Unused(book, derived, rows[..n]), Unused(book, derived, rows[..n + 1]);
            var matched, matched' := Matched(book, derived, rows[..n]), Matched(book, derived, rows[..n + 1]);
            if Complete(rows[n]) && unused[SpanOf(book, rows[n])] > 0 then
              && unused' == unused - multiset{SpanOf(book, rows[n])}
              && matched' == matched + multiset{SpanOf(book, rows[n])}
            else unused' == unused && matched' == matched
  {
    assert rows[..n + 1][..n] == rows[..n];
    if Complete(rows[n]) {
      var span := SpanOf(book, rows[n]);
      assert multiset(SpansOf(book, rows[..n + 1])) == multiset(SpansOf(book, rows[..n])) + multiset{span};
      MatchOne(multiset(derived), multiset(SpansOf(book, rows[..n])), span);
    }
  }

  /** The row scan: matched rows cover their runes, all others are counted as unexpected. */
  method MatchRows(m: CoverageMap, book: int, derived: seq<Span>, rows: seq<Row>, ghost kept: map<DocumentKey, Document>)
    returns (unexpected: nat)
    requires Tracks(m, kept, multiset{})
    modifies set key | key in m :: m[key].actual
    ensures Tracks(m, kept, Matched(book, derived, rows))
    ensures unexpected == |rows| - |Matched(book, derived, rows)|
  {
    hide Tracks, Unused, Matched, Arrays, SpanOf;
    var left := multiset(derived);
    unexpected := 0;
    NoRows(book, derived, rows);
    for n := 0 to |rows|
      invariant Tracks(m, kept, Matched(book, derived, rows[..n]))
      invariant left == Unused(book, derived, rows[..n])
      invariant unexpected == n - |Matched(book, derived, rows[..n])|
    {
      NextRow(book, derived, rows, n);
      var row := rows[n];
      if !Complete(row) {
        unexpected := unexpected + 1;
        continue;
      }
      var span := SpanOf(book, row);
      if left[span] == 0 {
        unexpected := unexpected + 1;
        continue;
      }
      left := left - multiset{span};
      MarkSpan(m, span, kept, Matched(book, derived, rows[..n]));
    }
    assert rows[..|rows|] == rows;
  }

  /** countUncoveredCanonicalRunes: the documents are visited in no particular order. */
  method CountUncovered(m: CoverageMap, ghost kept: map<DocumentKey, Document>, ghost matched: multiset<Span>)
    returns (covered: nat, uncovered: nat)
    requires Tracks(m, kept, matched)
    ensures covered == Sum(kept.Keys, RequiredCount(kept))
    ensures uncovered == Sum(kept.Keys, UncoveredCount(kept, matched))
  {
    covered, uncovered := 0, 0;
    var left := m.Keys;
    while left != {}
      invariant left <= m.Keys
      invariant covered + Sum(left, RequiredCount(kept)) == Sum(kept.Keys, RequiredCount(kept))
      invariant uncovered + Sum(left, UncoveredCount(kept, matched)) == Sum(kept.Keys, UncoveredCount(kept, matched))
      decreases |left|
    {
      hide Members, RequiredRunes, CoveredRunes, Sum;
      var key :| key in left;
      var c, u := CountDocument(m[key].required, m[key].actual);
      SumTakes(left, RequiredCount(kept), key);
      SumTakes(left, UncoveredCount(kept, matched), key);
      covered, uncovered := covered + c, uncovered + u;
      left := left - {key};
    }
  }

  /** The spans that the rows are to match, one for every derived unit. */
  method ExpectSpans(book: int, units: seq<DerivedUnit>) returns (spans: seq<Span>)
    ensures spans == UnitSpans(book, units)
  {
    spans := [];
    for i := 0 to |units|
      invariant spans == UnitSpans(book, units[..i])
    {
      spans := spans + [UnitSpan(book, units[i])];
    }
    assert units[..|units|] == units;
  }

  /**
   verifyCanonicalSourceBatch: the four numbers of a batch. `documents` are its source documents,
   `units` those derived from them, `rows` the active rows of the registry.
   */
  method VerifyBatch(book: int, documents: seq<Document>, units: seq<DerivedUnit>, rows: seq<Row>)
    returns (kept: nat, covered: nat, uncovered: nat, unexpected: nat)
    requires forall d | d in documents :: WellPlaced(d)
    ensures kept == |Effective(documents)|
    ensures covered == Sum(Effective(documents).Keys, RequiredCount(Effective(documents)))
    ensures uncovered == Uncovered(book, documents, UnitSpans(book, units), rows)
    ensures unexpected == Unexpected(book, UnitSpans(book, units), rows)
  {
    hide Tracks, Effective, Matched, UnitSpans;
    var derived := ExpectSpans(book, units);
    var m := RequireDocuments(documents);
    TrackedKeys(m, Effective(documents), multiset{});
    kept := |m|;
    unexpected := MatchRows(m, book, derived, rows, Effective(documents));
    covered, uncovered := CountUncovered(m, Effective(documents), Matched(book, derived, rows));
  }

  lemma TrackedKeys(m: CoverageMap, kept: map<DocumentKey, Document>, matched: multiset<Span>)
    requires Tracks(m, kept, matched)
    ensures |m| == |kept|
  {
    assert |m| == |m.Keys| && |kept| == |kept.Keys|;
  }

  // ---- What the numbers prove --------------------------------------------------------------

  ghost function Uncovered(book: int, documents: seq<Document>, derived: seq<Span>, rows: seq<Row>): nat {
    Sum(Effective(documents).Keys, UncoveredCount(Effective(documents), Matched(book, derived, rows)))
  }

  ghost function Unexpected(book: int, derived: seq<Span>, rows: seq<Row>): int {
    |rows| - |Matched(book, derived, rows)|
  }

  lemma {:induction false} SpansOfComplete(book: int, rows: seq<Row>)
    ensures |SpansOf(book, rows)| <= |rows|
    ensures |SpansOf(book, rows)| == |rows| <==> forall r | r in rows :: Complete(r)
  {
    if rows != [] {
      var n := |rows| - 1;
      SpansOfComplete(book, rows[..n]);
      assert rows == rows[..n] + [rows[n]];
    }
  }

  lemma SubMultiset(a: multiset<Span>, b: multiset<Span>)
    ensures |a * b| <= |a|
    ensures |a * b| == |a| <==> a <= b
  {
    assert a == a * b + (a - b);
    if |a * b| == |a| {
      assert |a - b| == 0;
      assert a - b == multiset{};
    }
  }

  /** No row is unexpected exactly when every row is complete and each uses up a derived span. */
  lemma UnexpectedIsZero(book: int, derived: seq<Span>, rows: seq<Row>)
    ensures Unexpected(book, derived, rows) >= 0
    ensures Unexpected(book, derived, rows) == 0
            <==> (forall r | r in rows :: Complete(r)) && multiset(SpansOf(book, rows)) <= multiset(derived)
  {
    SpansOfComplete(book, rows);
    SubMultiset(multiset(SpansOf(book, rows)), multiset(derived));
  }

  /** Every required rune of a document lies in a matched row. */
  ghost predicate FullyCovered(d: Document, key: DocumentKey, matched: multiset<Span>) {
    forall i | i in RequiredRunes(d) :: IsCovered(key, i, matched)
  }

  lemma DocumentCovered(d: Document, key: DocumentKey, matched: multiset<Span>)
    ensures |RequiredRunes(d) - CoveredRunes(d, key, matched)| == 0 <==> FullyCovered(d, key, matched)
  {
    hide IsCovered, Required;
    var missing := RequiredRunes(d) - CoveredRunes(d, key, matched);
    assert |missing| == 0 <==> missing == {};
    assert forall i | i in RequiredRunes(d) :: i in missing <==> !IsCovered(key, i, matched);
  }

  ghost predicate EveryDocumentCovered(kept: map<DocumentKey, Document>, matched: multiset<Span>) {
    forall key | key in kept :: FullyCovered(kept[key], key, matched)
  }

  /** No rune is uncovered exactly when every required rune of a kept document lies in a matched row. */
  lemma UncoveredIsZero(book: int, documents: seq<Document>, derived: seq<Span>, rows: seq<Row>)
    ensures Uncovered(book, documents, derived, rows) == 0
            <==> EveryDocumentCovered(Effective(documents), Matched(book, derived, rows))
  {
    hide Effective, Matched, FullyCovered;
    var kept, matched := Effective(documents), Matched(book, derived, rows);
    var value := UncoveredCount(kept, matched);
    SumIsZero(kept.Keys, value);
    forall key | key in kept ensures value(key) == 0 <==> FullyCovered(kept[key], key, matched) {
      DocumentCovered(kept[key], key, matched);
    }
    if EveryDocumentCovered(kept, matched) {
      assert forall key | key in kept.Keys :: value(key) == 0;
    } else {
      var key :| key in kept && !FullyCovered(kept[key], key, matched);
      assert value(key) != 0;
    }
  }

  // ---- Which documents are kept ---------------------------------------------------------------

  /** A document is kept when it requires a rune and no later one with its key does. */
  ghost predicate IsKept(documents: seq<Document>, i: nat)
    requires i < |documents|
  {
    && RequiredRunes(documents[i]) != {}
    && forall j | i < j < |documents| && documents[j].key == documents[i].key :: RequiredRunes(documents[j]) == {}
  }

  lemma {:induction false} KeptDocument(documents: seq<Document>, i: nat)
    requires i < |documents| && IsKept(documents, i)
    ensures documents[i].key in Effective(documents) && Effective(documents)[documents[i].key] == documents[i]
  {
    hide RequiredRunes;
    var n := |documents| - 1;
    if i < n {
      assert IsKept(documents[..n], i);
      KeptDocument(documents[..n], i);
    }
  }

  lemma {:induction false} KeyIsKept(documents: seq<Document>, key: DocumentKey) returns (i: nat)
    requires key in Effective(documents)
    ensures i < |documents| && IsKept(documents, i) && documents[i].key == key
  {
    hide RequiredRunes;
    i := |documents| - 1;
    var d := documents[i];
    if d.key != key || RequiredRunes(d) == {} {
      var last := i;
      i := KeyIsKept(documents[..last], key);
    }
  }

  // ---- Soundness -----------------------------------------------------------------------------

  /** The batch reports nothing missing and nothing unexpected. */
  ghost predicate Accepts(book: int, documents: seq<Document>, derived: seq<Span>, rows: seq<Row>) {
    Uncovered(book, documents, derived, rows) == 0 && Unexpected(book, derived, rows) == 0
  }

  /** A rune of a document lies inside a complete row of that document. */
  ghost predicate InRow(book: int, rows: seq<Row>, key: DocumentKey, i: nat) {
    exists r :: r in rows && Complete(r) && Covers(SpanOf(book, r), key, i)
  }

  lemma {:induction false} SpansAreRows(book: int, rows: seq<Row>, s: Span)
    ensures s in SpansOf(book, rows) <==> exists r :: r in rows && Complete(r) && SpanOf(book, r) == s
  {
    if rows != [] {
      var n := |rows| - 1;
      SpansAreRows(book, rows[..n], s);
      assert rows == rows[..n] + [rows[n]];
    }
  }

  lemma CoveredInRow(book: int, derived: seq<Span>, rows: seq<Row>, key: DocumentKey, i: nat)
    requires multiset(SpansOf(book, rows)) <= multiset(derived)
    ensures IsCovered(key, i, Matched(book, derived, rows)) <==> InRow(book, rows, key, i)
  {
    var matched := Matched(book, derived, rows);
    assert matched == multiset(SpansOf(book, rows));
    assert forall s :: s in matched <==> s in SpansOf(book, rows);
    if IsCovered(key, i, matched) {
      var s :| s in matched && Covers(s, key, i);
      SpansAreRows(book, rows, s);
    }
    if InRow(book, rows, key, i) {
      var r :| r in rows && Complete(r) && Covers(SpanOf(book, r), key, i);
      SpansAreRows(book, rows, SpanOf(book, r));
    }
  }

  /** The registry rows of a batch are exact: all complete, each one a derived span used once. */
  predicate ExactRows(book: int, derived: seq<Span>, rows: seq<Row>) {
    (forall r | r in rows :: Complete(r)) && multiset(SpansOf(book, rows)) <= multiset(derived)
  }

  /**
   A batch is accepted exactly when its rows are a sub-multiset of the derived spans and every
   required rune of every kept document lies inside one of them.
   */
  lemma AcceptsExactly(book: int, documents: seq<Document>, derived: seq<Span>, rows: seq<Row>)
    ensures Accepts(book, documents, derived, rows)
            <==> && ExactRows(book, derived, rows)
                 && forall i: nat | i < |documents| && IsKept(documents, i) ::
                      forall rune | rune in RequiredRunes(documents[i]) :: InRow(book, rows, documents[i].key, rune)
  {
    hide RequiredRunes, Matched, Effective, InRow, IsCovered, IsKept;
    UnexpectedIsZero(book, derived, rows);
    UncoveredIsZero(book, documents, derived, rows);
    if ExactRows(book, derived, rows) {
      forall key, rune: nat
        ensures IsCovered(key, rune, Matched(book, derived, rows)) <==> InRow(book, rows, key, rune)
      {
        CoveredInRow(book, derived, rows, key, rune);
      }
      forall i: nat | i < |documents| && IsKept(documents, i)
        ensures documents[i].key in Effective(documents) && Effective(documents)[documents[i].key] == documents[i]
      {
        KeptDocument(documents, i);
      }
      forall key | key in Effective(documents)
        ensures exists i: nat :: i < |documents| && IsKept(documents, i) && documents[i].key == key
      {
        var i := KeyIsKept(documents, key);
      }
    }
  }

  // ---- When acceptance speaks for every document -----------------------------------------------

  ghost predicate AllCovered(book: int, documents: seq<Document>, rows: seq<Row>) {
    forall d, rune | d in documents && rune in RequiredRunes(d) :: InRow(book, rows, d.key, rune)
  }

  /** A document that is not kept requires no rune that the one kept under its key does not. */
  ghost predicate NoRuneLost(documents: seq<Document>) {
    forall d | d in documents && d.key in Effective(documents) ::
      RequiredRunes(d) <= RequiredRunes(Effective(documents)[d.key])
  }

  /** The keys are those of this book, with the heading dropped from pages. */
  predicate KeysOf(book: int, documents: seq<Document>) {
    forall d | d in documents ::
      d.key == KeyOf(book, d.key.heading, d.key.page, d.key.role, d.key.language, d.key.hash)
  }

  lemma RequiringIsKept(documents: seq<Document>, i: nat)
    requires i < |documents| && RequiredRunes(documents[i]) != {}
    ensures documents[i].key in Effective(documents)
  {
    hide RequiredRunes;
    var n := |documents| - 1;
    if i < n {
      RequiringIsKept(documents[..n], i);
    }
  }

  function RowFor(key: DocumentKey, rune: nat): Row {
    Row(key.heading, key.page, "", "", key.language, key.role, Some(key.hash), Some(rune), Some(rune + 1))
  }

  /** One row for every required rune of a kept document. */
  ghost function RowsFor(places: set<(DocumentKey, nat)>): seq<Row> {
    if places == {} then []
    else
      var p :| p in places;
      RowsFor(places - {p}) + [RowFor(p.0, p.1)]
  }

  lemma {:induction false} RowsForEach(places: set<(DocumentKey, nat)>, r: Row)
    ensures r in RowsFor(places) <==> exists p :: p in places && r == RowFor(p.0, p.1)
    decreases places
  {
    if places != {} {
      var p :| p in places && RowsFor(places) == RowsFor(places - {p}) + [RowFor(p.0, p.1)];
      RowsForEach(places - {p}, r);
    }
  }

  ghost function Places(kept: map<DocumentKey, Document>): set<(DocumentKey, nat)> {
    set key, rune | key in kept && rune in RequiredRunes(kept[key]) :: (key, rune)
  }

  /** The registry with one row per required rune covers these runes and no others. */
  lemma RowsForPlaces(book: int, kept: map<DocumentKey, Document>, key: DocumentKey, rune: nat)
    requires forall k | k in kept :: k == KeyOf(book, k.heading, k.page, k.role, k.language, k.hash)
    ensures InRow(book, RowsFor(Places(kept)), key, rune) <==> key in kept && rune in RequiredRunes(kept[key])
    ensures forall r | r in RowsFor(Places(kept)) :: Complete(r)
  {
    hide RequiredRunes;
    var rows := RowsFor(Places(kept));
    forall r
      ensures r in rows <==> exists p :: p in Places(kept) && r == RowFor(p.0, p.1)
    {
      RowsForEach(Places(kept), r);
    }
    if InRow(book, rows, key, rune) {
      var r :| r in rows && Complete(r) && Covers(SpanOf(book, r), key, rune);
      var p :| p in Places(kept) && r == RowFor(p.0, p.1);
      assert p == (key, rune);
    }
    if key in kept && rune in RequiredRunes(kept[key]) {
      assert (key, rune) in Places(kept);
      var r := RowFor((key, rune).0, (key, rune).1);
      assert r in rows && Covers(SpanOf(book, r), key, rune);
    }
  }

  /** The registry that is accepted although it leaves out every rune that is lost. */
  lemma LostRunesPass(book: int, documents: seq<Document>)
    requires KeysOf(book, documents)
    ensures var rows := RowsFor(Places(Effective(documents)));
            && Accepts(book, documents, SpansOf(book, rows), rows)
            && (AllCovered(book, documents, rows) ==> NoRuneLost(documents))
  {
    hide RequiredRunes, InRow;
    var kept := Effective(documents);
    var rows := RowsFor(Places(kept));
    forall key | key in kept
      ensures key == KeyOf(book, key.heading, key.page, key.role, key.language, key.hash)
    {
      var i := KeyIsKept(documents, key);
      assert documents[i] in documents;
    }
    forall key, rune: nat
      ensures InRow(book, rows, key, rune) <==> key in kept && rune in RequiredRunes(kept[key])
      ensures forall r | r in rows :: Complete(r)
    {
      RowsForPlaces(book, kept, key, rune);
    }
    RowsForPlaces(book, kept, DocumentKey(0, 0, 0, "", "", ""), 0);
    forall i: nat | i < |documents| && IsKept(documents, i)
      ensures documents[i].key in kept && kept[documents[i].key] == documents[i]
    {
      KeptDocument(documents, i);
    }
    AcceptsExactly(book, documents, SpansOf(book, rows), rows);
  }

  /**
   Acceptance proves every document covered, whatever the registry holds, exactly when no document
   shares its key with a kept one that requires less.
   */
  lemma AcceptanceProvesCoverage(book: int, documents: seq<Document>)
    requires KeysOf(book, documents)
    ensures (forall derived, rows :: Accepts(book, documents, derived, rows) ==> AllCovered(book, documents, rows))
            <==> NoRuneLost(documents)
  {
    LostRunesPass(book, documents);
    if NoRuneLost(documents) {
      forall derived, rows | Accepts(book, documents, derived, rows)
        ensures AllCovered(book, documents, rows)
      {
        KeptCoverAll(book, documents, derived, rows);
      }
    }
  }

  lemma KeptCoverAll(book: int, documents: seq<Document>, derived: seq<Span>, rows: seq<Row>)
    requires NoRuneLost(documents) && Accepts(book, documents, derived, rows)
    ensures AllCovered(book, documents, rows)
  {
    hide RequiredRunes, InRow, IsKept;
    AcceptsExactly(book, documents, derived, rows);
    forall d, rune | d in documents && rune in RequiredRunes(d)
      ensures InRow(book, rows, d.key, rune)
    {
      var i :| 0 <= i < |documents| && documents[i] == d;
      RequiringIsKept(documents, i);
      var last := KeyIsKept(documents, d.key);
      KeptDocument(documents, last);
      assert rune in RequiredRunes(documents[last]);
    }
  }

  predicate DistinctKeys(documents: seq<Document>) {
    forall i, j | 0 <= i < j < |documents| :: documents[i].key != documents[j].key
  }

  /** Documents with keys of their own lose nothing. */
  lemma DistinctKeysLoseNothing(documents: seq<Document>)
    requires DistinctKeys(documents)
    ensures NoRuneLost(documents)
  {
    hide RequiredRunes;
    forall d | d in documents && d.key in Effective(documents)
      ensures RequiredRunes(d) <= RequiredRunes(Effective(documents)[d.key])
    {
      var i := KeyIsKept(documents, d.key);
      KeptDocument(documents, i);
      var j :| 0 <= j < |documents| && documents[j] == d;
      assert i == j;
    }
  }

  // ---- What the loader hands over --------------------------------------------------------------

  const ROLE_TRANSLATION := "section_translation"
  const ROLE_SUMMARY := "heading_summary"
  const LANGUAGE_ARABIC := "ar"

  datatype Content = Content(hash: string, text: seq<Rune>, blocks: seq<Block>, footnotes: seq<Footnote>)

  datatype SourcePage = SourcePage(page: int, content: Content)

  datatype SourceAsset = SourceAsset(heading: int, page: int, role: string, language: string, legacyUnknown: bool, content: Content)

  /** The verifier takes some of the pages of a book, or its assets, never both. */
  datatype Source = Pages(pages: seq<SourcePage>) | Assets(assets: seq<SourceAsset>)

  /**
   The primary keys of the tables a source is read from: a page of a book, a heading's translation into
   a language and its summary in a language are there once; the role tells the last two apart.
   */
  predicate Loaded(source: Source) {
    match source
    case Pages(pages) =>
      forall i, j | 0 <= i < j < |pages| :: pages[i].page != pages[j].page
    case Assets(assets) =>
      && (forall i | 0 <= i < |assets| :: assets[i].role == ROLE_TRANSLATION || assets[i].role == ROLE_SUMMARY)
      && forall i, j | 0 <= i < j < |assets| ::
           (assets[i].heading, assets[i].role, assets[i].language) != (assets[j].heading, assets[j].role, assets[j].language)
  }

  function DocumentOf(key: DocumentKey, c: Content): Document {
    Document(key, c.text, c.blocks, c.footnotes)
  }

  function PageDocument(book: int, p: SourcePage): Document {
    DocumentOf(KeyOf(book, 0, p.page, ROLE_BOOK_PAGE, LANGUAGE_ARABIC, p.content.hash), p.content)
  }

  function AssetDocument(book: int, a: SourceAsset): Document {
    DocumentOf(KeyOf(book, a.heading, a.page, a.role, a.language, a.content.hash), a.content)
  }

  function PageDocuments(book: int, pages: seq<SourcePage>): seq<Document> {
    if pages == [] then [] else PageDocuments(book, pages[..|pages| - 1]) + [PageDocument(book, pages[|pages| - 1])]
  }

  /** Assets of unknown provenance are passed over. */
  function AssetDocuments(book: int, assets: seq<SourceAsset>): seq<Document> {
    if assets == [] then []
    else
      var before, a := AssetDocuments(book, assets[..|assets| - 1]), assets[|assets| - 1];
      if a.legacyUnknown then before else before + [AssetDocument(book, a)]
  }

  function Documents(book: int, source: Source): seq<Document> {
    match source
    case Pages(pages) => PageDocuments(book, pages)
    case Assets(assets) => AssetDocuments(book, assets)
  }

  lemma {:induction false} PageDocumentsAt(book: int, pages: seq<SourcePage>)
    ensures |PageDocuments(book, pages)| == |pages|
    ensures forall i | 0 <= i < |pages| :: PageDocuments(book, pages)[i] == PageDocument(book, pages[i])
  {
    if pages != [] {
      PageDocumentsAt(book, pages[..|pages| - 1]);
    }
  }

  lemma {:induction false} AssetDocumentsOf(book: int, assets: seq<SourceAsset>, d: Document)
    ensures d in AssetDocuments(book, assets) <==>
            exists i :: 0 <= i < |assets| && !assets[i].legacyUnknown && AssetDocument(book, assets[i]) == d
  {
    if assets != [] {
      var n := |assets| - 1;
      AssetDocumentsOf(book, assets[..n], d);
      if i :| 0 <= i < |assets| && !assets[i].legacyUnknown && AssetDocument(book, assets[i]) == d {
        if i < n {
          assert assets[..n][i] == assets[i];
        }
      }
    }
  }

  lemma {:induction false} AssetKeysDiffer(book: int, assets: seq<SourceAsset>)
    requires Loaded(Assets(assets))
    ensures DistinctKeys(AssetDocuments(book, assets))
  {
    if assets != [] {
      var n := |assets| - 1;
      assert forall i | 0 <= i < n :: assets[..n][i] == assets[i];
      AssetKeysDiffer(book, assets[..n]);
      var before := AssetDocuments(book, assets[..n]);
      forall i | 0 <= i < |before| ensures before[i].key != AssetDocument(book, assets[n]).key {
        AssetDocumentsOf(book, assets[..n], before[i]);
        assert before[i] in before;
        var k :| 0 <= k < n && AssetDocument(book, assets[..n][k]) == before[i];
      }
    }
  }

  /** The schema keeps every document under a key of its own. */
  lemma LoadedKeysDiffer(book: int, source: Source)
    requires Loaded(source)
    ensures DistinctKeys(Documents(book, source))
  {
    match source
    case Pages(pages) => PageDocumentsAt(book, pages);
    case Assets(assets) => AssetKeysDiffer(book, assets);
  }

  /**
   Soundness and completeness of the gate on what the loader hands over: a batch is accepted exactly when
   its rows are a sub-multiset of the derived spans and every required rune of every source document,
   page or asset, lies inside one of them.
   */
  lemma GateIsExact(book: int, source: Source, derived: seq<Span>, rows: seq<Row>)
    requires Loaded(source)
    ensures Accepts(book, Documents(book, source), derived, rows)
            <==> ExactRows(book, derived, rows) && AllCovered(book, Documents(book, source), rows)
  {
    hide RequiredRunes, InRow, IsKept, Documents, Accepts, ExactRows, Loaded, Effective;
    var documents := Documents(book, source);
    LoadedKeysDiffer(book, source);
    DistinctKeysLoseNothing(documents);
    AcceptsExactly(book, documents, derived, rows);
    if Accepts(book, documents, derived, rows) {
      KeptCoverAll(book, documents, derived, rows);
    }
    if AllCovered(book, documents, rows) {
      assert forall i: nat | i < |documents| :: documents[i] in documents;
    }
  }

  // ---- A limit of the gate taken alone ---------------------------------------------------------

  /**
   Two documents with one text and one key, which no source contains: the heading anchor of the second
   hides a rune of the first.
   */
  lemma SharedKeyLosesRune(key: DocumentKey)
    ensures var first := Document(key, [0x61, 0x62], [], []);
            var second := Document(key, [0x61, 0x62], [Block(1, 0, 1)], []);
            !NoRuneLost([first, second])
  {
    var first := Document(key, [0x61, 0x62], [], []);
    var second := Document(key, [0x61, 0x62], [Block(1, 0, 1)], []);
    assert Required(first, 0);
    assert InAnchor(second.blocks[0], 0) && !Required(second, 0);
    assert Required(second, 1);
    assert 1 in RequiredRunes(second) && 0 in RequiredRunes(first) && 0 !in RequiredRunes(second);
    KeptDocument([first, second], 1);
    assert first in [first, second];
  }
}
