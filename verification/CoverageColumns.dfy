/**
 The coverage gate in terms of registry columns: which columns a row and a derived unit must share, which
 rows cover a rune of a page or an asset, and which runes must be covered.
 */
module CoverageColumns {
  import opened Common
  import opened Bitmaps
  import opened Coverage
  import opened CoverageBatch

  // ---- Rows and units --------------------------------------------------------------------------

  /** The row has every column of the unit; a page row may stand under any heading. */
  predicate Agrees(r: Row, u: DerivedUnit) {
    && r.hash == Some(u.hash) && r.start == Some(u.start) && r.end == Some(u.end)
    && r.page == u.page && r.role == u.role && r.language == u.language && r.kind == u.kind && r.text == u.text
    && (r.role == "book_page" || r.heading == match u.heading case None => 0 case Some(heading) => heading)
  }

  lemma AgreesExactly(book: int, r: Row, u: DerivedUnit)
    ensures Agrees(r, u) <==> Complete(r) && SpanOf(book, r) == UnitSpan(book, u)
  {}

  /** Each row agrees with a unit of its own. */
  ghost predicate EachAgrees(rows: seq<Row>, units: seq<DerivedUnit>, at: seq<nat>) {
    && |at| == |rows|
    && (forall i :: 0 <= i < |at| ==> at[i] < |units| && Agrees(rows[i], units[at[i]]))
    && (forall i, j :: 0 <= i < j < |at| ==> at[i] != at[j])
  }

  /** `at` sends each member of `a` to an equal member of `b`, no two to the same. */
  ghost predicate Sends<T(!new)>(a: seq<T>, b: seq<T>, at: seq<nat>) {
    && |at| == |a|
    && (forall i :: 0 <= i < |at| ==> at[i] < |b| && a[i] == b[at[i]])
    && (forall i, j :: 0 <= i < j < |at| ==> at[i] != at[j])
  }

  function DropAt<T>(b: seq<T>, j: nat): seq<T>
    requires j < |b|
  {
    b[..j] + b[j + 1..]
  }

  lemma DropOne<T>(b: seq<T>, j: nat)
    requires j < |b|
    ensures multiset(b) == multiset(DropAt(b, j)) + multiset{b[j]}
    ensures forall k :: 0 <= k < |b| && k != j ==> DropAt(b, j)[if k < j then k else k - 1] == b[k]
  {
    assert b == b[..j] + [b[j]] + b[j + 1..];
  }

  lemma {:induction false} SentIsSubMultiset<T(!new)>(a: seq<T>, b: seq<T>, at: seq<nat>)
    requires Sends(a, b, at)
    ensures multiset(a) <= multiset(b)
  {
    if a != [] {
      var n := |a| - 1;
      var j := at[n];
      DropOne(b, j);
      var rest := seq(n, i requires 0 <= i < n => if at[i] < j then at[i] else at[i] - 1);
      assert forall i :: 0 <= i < n ==> DropAt(b, j)[rest[i]] == a[..n][i];
      SentIsSubMultiset(a[..n], DropAt(b, j), rest);
      assert a == a[..n] + [a[n]];
    }
  }

  lemma WithoutOne<T>(a: multiset<T>, b: multiset<T>, x: T)
    ensures a + multiset{x} <= b + multiset{x} ==> a <= b
  {
    if a + multiset{x} <= b + multiset{x} {
      forall y ensures a[y] <= b[y] {
        assert (a + multiset{x})[y] <= (b + multiset{x})[y];
      }
    }
  }

  /** What is sent into `b` without its j-th member leaves that member free for another one. */
  lemma SendOneMore<T(!new)>(a: seq<T>, b: seq<T>, j: nat, rest: seq<nat>) returns (at: seq<nat>)
    requires a != [] && j < |b| && b[j] == a[|a| - 1] && Sends(a[..|a| - 1], DropAt(b, j), rest)
    ensures Sends(a, b, at)
  {
    var n := |a| - 1;
    var front := seq(n, i requires 0 <= i < n => if rest[i] < j then rest[i] else rest[i] + 1);
    at := front + [j];
    forall i | 0 <= i < n ensures at[i] < |b| && a[i] == b[at[i]] && at[i] != j {
      assert at[i] == front[i] && a[i] == a[..n][i] == DropAt(b, j)[rest[i]];
    }
  }

  lemma {:induction false} SubMultisetIsSent<T(!new)>(a: seq<T>, b: seq<T>) returns (at: seq<nat>)
    requires multiset(a) <= multiset(b)
    ensures Sends(a, b, at)
  {
    hide Sends, DropAt;
    if a == [] {
      at := [];
      NothingSent(a, b);
    } else {
      var n := |a| - 1;
      assert a == a[..n] + [a[n]];
      assert a[n] in multiset(a);
      var j :| 0 <= j < |b| && b[j] == a[n];
      DropOne(b, j);
      WithoutOne(multiset(a[..n]), multiset(DropAt(b, j)), a[n]);
      var rest := SubMultisetIsSent(a[..n], DropAt(b, j));
      at := SendOneMore(a, b, j, rest);
    }
  }

  lemma NothingSent<T(!new)>(a: seq<T>, b: seq<T>)
    requires a == []
    ensures Sends(a, b, [])
  {}

  lemma {:induction false} CompleteSpans(book: int, rows: seq<Row>)
    requires forall r | r in rows :: Complete(r)
    ensures |SpansOf(book, rows)| == |rows| && forall i :: 0 <= i < |rows| ==> SpansOf(book, rows)[i] == SpanOf(book, rows[i])
  {
    if rows != [] {
      var n := |rows| - 1;
      CompleteSpans(book, rows[..n]);
    }
  }

  /** The rows of a batch are exact when each has all columns of a derived unit of its own. */
  lemma ExactOnColumns(book: int, units: seq<DerivedUnit>, rows: seq<Row>)
    ensures ExactRows(book, UnitSpans(book, units), rows) <==> exists at :: EachAgrees(rows, units, at)
  {
    hide Agrees, Complete, SpanOf, UnitSpan;
    forall r, u ensures Agrees(r, u) <==> Complete(r) && SpanOf(book, r) == UnitSpan(book, u) {
      AgreesExactly(book, r, u);
    }
    if ExactRows(book, UnitSpans(book, units), rows) {
      CompleteSpans(book, rows);
      var at := SubMultisetIsSent(SpansOf(book, rows), UnitSpans(book, units));
      assert EachAgrees(rows, units, at);
    }
    if at :| EachAgrees(rows, units, at) {
      assert forall r :: r in rows ==> exists i :: 0 <= i < |rows| && rows[i] == r;
      CompleteSpans(book, rows);
      SentIsSubMultiset(SpansOf(book, rows), UnitSpans(book, units), at);
    }
  }

  /** No row is unexpected exactly when each has all columns of a derived unit of its own. */
  lemma UnexpectedOnColumns(book: int, units: seq<DerivedUnit>, rows: seq<Row>)
    ensures Unexpected(book, UnitSpans(book, units), rows) == 0 <==> exists at :: EachAgrees(rows, units, at)
  {
    hide Unexpected, EachAgrees;
    UnexpectedIsZero(book, UnitSpans(book, units), rows);
    ExactOnColumns(book, units, rows);
  }

  lemma {:induction false} HeadingLeavesSpans(book: int, rows: seq<Row>, i: nat, heading: int)
    requires i < |rows| && rows[i].role == "book_page"
    ensures SpansOf(book, rows[i := rows[i].(heading := heading)]) == SpansOf(book, rows)
  {
    var n := |rows| - 1;
    var rows' := rows[i := rows[i].(heading := heading)];
    if i < n {
      HeadingLeavesSpans(book, rows[..n], i, heading);
      assert rows'[..n] == rows[..n][i := rows[i].(heading := heading)];
    } else {
      assert rows'[..n] == rows[..n];
    }
  }

  /** Under which heading a page row stands makes no difference to the counts of a batch. */
  lemma PageHeadingIsIgnored(book: int, documents: seq<Document>, units: seq<DerivedUnit>, rows: seq<Row>, i: nat, heading: int)
    requires i < |rows| && rows[i].role == "book_page"
    ensures var rows' := rows[i := rows[i].(heading := heading)];
            && Unexpected(book, UnitSpans(book, units), rows') == Unexpected(book, UnitSpans(book, units), rows)
            && Uncovered(book, documents, UnitSpans(book, units), rows') == Uncovered(book, documents, UnitSpans(book, units), rows)
  {
    HeadingLeavesSpans(book, rows, i, heading);
  }

  // ---- Rows and runes --------------------------------------------------------------------------

  /** A complete row over the rune, with these columns. */
  predicate Over(r: Row, i: nat, role: string, page: int, language: string, hash: string) {
    && r.role == role && r.page == page && r.language == language && r.hash == Some(hash)
    && r.start.Some? && r.end.Some? && r.start.value <= i < r.end.value
  }

  lemma PageRuneCovered(book: int, p: SourcePage, rows: seq<Row>, i: nat)
    ensures InRow(book, rows, PageDocument(book, p).key, i) <==>
            exists r :: r in rows && Over(r, i, "book_page", p.page, "ar", p.content.hash)
  {
    forall r | r in rows
      ensures Complete(r) && Covers(SpanOf(book, r), PageDocument(book, p).key, i)
              <==> Over(r, i, "book_page", p.page, "ar", p.content.hash)
    {}
  }

  lemma AssetRuneCovered(book: int, a: SourceAsset, rows: seq<Row>, i: nat)
    requires a.role != "book_page"
    ensures InRow(book, rows, AssetDocument(book, a).key, i) <==>
            exists r :: r in rows && r.heading == a.heading && Over(r, i, a.role, a.page, a.language, a.content.hash)
  {
    forall r | r in rows
      ensures Complete(r) && Covers(SpanOf(book, r), AssetDocument(book, a).key, i)
              <==> r.heading == a.heading && Over(r, i, a.role, a.page, a.language, a.content.hash)
    {}
  }

  /** The runes of a content that must be covered. */
  ghost function Runes(c: Content): set<nat> {
    RequiredRunes(Document(DocumentKey(0, 0, 0, "", "", ""), c.text, c.blocks, c.footnotes))
  }

  /** Every rune to be covered lies in a row that shows its page, or its asset. */
  ghost predicate CoveredOnColumns(source: Source, rows: seq<Row>) {
    match source
    case Pages(pages) =>
      forall p, i | p in pages && i in Runes(p.content) ::
        exists r :: r in rows && Over(r, i, "book_page", p.page, "ar", p.content.hash)
    case Assets(assets) =>
      forall a, i | a in assets && !a.legacyUnknown && i in Runes(a.content) ::
        exists r :: r in rows && r.heading == a.heading && Over(r, i, a.role, a.page, a.language, a.content.hash)
  }

  lemma PagesCovered(book: int, pages: seq<SourcePage>, rows: seq<Row>)
    ensures AllCovered(book, PageDocuments(book, pages), rows) <==> CoveredOnColumns(Pages(pages), rows)
  {
    hide InRow, Over, RequiredRunes, Runes, PageDocument, PageDocuments;
    PageDocumentsAt(book, pages);
    var documents := PageDocuments(book, pages);
    forall p, i: nat | p in pages
      ensures PageDocument(book, p) in documents && Runes(p.content) == RequiredRunes(PageDocument(book, p))
      ensures InRow(book, rows, PageDocument(book, p).key, i) <==> exists r :: r in rows && Over(r, i, "book_page", p.page, "ar", p.content.hash)
    {
      var k :| 0 <= k < |pages| && pages[k] == p;
      assert documents[k] == PageDocument(book, p);
      RunesOfPage(book, p);
      PageRuneCovered(book, p, rows, i);
    }
    if CoveredOnColumns(Pages(pages), rows) {
      forall d, i: nat | d in documents && i in RequiredRunes(d) ensures InRow(book, rows, d.key, i) {
        var k :| 0 <= k < |documents| && documents[k] == d;
        RunesOfPage(book, pages[k]);
        assert pages[k] in pages && i in Runes(pages[k].content);
      }
    }
    if AllCovered(book, documents, rows) {
      forall p, i: nat | p in pages && i in Runes(p.content)
        ensures exists r :: r in rows && Over(r, i, "book_page", p.page, "ar", p.content.hash)
      {
        assert InRow(book, rows, PageDocument(book, p).key, i);
      }
    }
  }

  lemma RunesOfPage(book: int, p: SourcePage)
    ensures Runes(p.content) == RequiredRunes(PageDocument(book, p))
  {}

  lemma RunesOfAsset(book: int, a: SourceAsset)
    ensures Runes(a.content) == RequiredRunes(AssetDocument(book, a))
  {}

  lemma AssetsCovered(book: int, assets: seq<SourceAsset>, rows: seq<Row>)
    requires Loaded(Assets(assets))
    ensures AllCovered(book, AssetDocuments(book, assets), rows) <==> CoveredOnColumns(Assets(assets), rows)
  {
    hide InRow, Over, RequiredRunes, Runes, AssetDocument, AssetDocuments;
    var documents := AssetDocuments(book, assets);
    forall a, i: nat | a in assets && !a.legacyUnknown
      ensures AssetDocument(book, a) in documents && Runes(a.content) == RequiredRunes(AssetDocument(book, a))
      ensures InRow(book, rows, AssetDocument(book, a).key, i) <==>
              exists r :: r in rows && r.heading == a.heading && Over(r, i, a.role, a.page, a.language, a.content.hash)
    {
      AssetDocumentsOf(book, assets, AssetDocument(book, a));
      RunesOfAsset(book, a);
      AssetRuneCovered(book, a, rows, i);
    }
    if CoveredOnColumns(Assets(assets), rows) {
      forall d, i: nat | d in documents && i in RequiredRunes(d) ensures InRow(book, rows, d.key, i) {
        AssetDocumentsOf(book, assets, d);
        var k :| 0 <= k < |assets| && !assets[k].legacyUnknown && AssetDocument(book, assets[k]) == d;
        RunesOfAsset(book, assets[k]);
        assert assets[k] in assets && i in Runes(assets[k].content);
      }
    }
    if AllCovered(book, documents, rows) {
      forall a, i: nat | a in assets && !a.legacyUnknown && i in Runes(a.content)
        ensures exists r :: r in rows && r.heading == a.heading && Over(r, i, a.role, a.page, a.language, a.content.hash)
      {
        assert InRow(book, rows, AssetDocument(book, a).key, i);
      }
    }
  }

  /**
   The gate on a loaded batch, column by column: it accepts exactly when each row has all columns of a
   derived unit of its own and every rune to be covered lies in a row of its page or asset.
   */
  lemma GateOnColumns(book: int, source: Source, units: seq<DerivedUnit>, rows: seq<Row>)
    requires Loaded(source)
    ensures Accepts(book, Documents(book, source), UnitSpans(book, units), rows)
            <==> (exists at :: EachAgrees(rows, units, at)) && CoveredOnColumns(source, rows)
  {
    hide Accepts, EachAgrees, CoveredOnColumns, AllCovered, ExactRows;
    GateIsExact(book, source, UnitSpans(book, units), rows);
    ExactOnColumns(book, units, rows);
    match source
    case Pages(pages) => PagesCovered(book, pages, rows);
    case Assets(assets) => AssetsCovered(book, assets, rows);
  }

  // ---- Which runes must be covered ---------------------------------------------------------------

  /** In plain text every rune but white space and underscores. */
  lemma PlainRunes(key: DocumentKey, text: seq<Rune>, i: nat)
    ensures i in RequiredRunes(Document(key, text, [], [])) <==>
            i < |text| && text[i] != 0x5F
            && text[i] !in {0x09, 0x0A, 0x0B, 0x0C, 0x0D, 0x20, 0x85, 0xA0, 0x1680, 0x2000, 0x2001, 0x2002, 0x2003, 0x2004, 0x2005,
                            0x2006, 0x2007, 0x2008, 0x2009, 0x200A, 0x2028, 0x2029, 0x202F, 0x205F, 0x3000}
  {}

  /** A block takes out its range when it is anchored, and nothing otherwise. */
  lemma OneMoreBlock(d: Document, anchorId: int, start: int, end: int, i: nat)
    ensures i in RequiredRunes(d.(blocks := d.blocks + [Block(anchorId, start, end)])) <==>
            i in RequiredRunes(d) && !(anchorId > 0 && start <= i < end)
  {
    var b := Block(anchorId, start, end);
    var e := d.(blocks := d.blocks + [b]);
    assert forall x :: x in e.blocks <==> x in d.blocks || x == b;
    assert Required(e, i) <==> Required(d, i) && !InAnchor(b, i);
  }

  /** A footnote takes out the last occurrence of its marker that ends before it, if there is one. */
  lemma OneMoreFootnote(d: Document, marker: seq<Rune>, start: int, i: nat)
    ensures i in RequiredRunes(d.(footnotes := d.footnotes + [Footnote(marker, start)])) <==>
            && i in RequiredRunes(d)
            && !(exists s: nat :: s <= i < s + |marker| && LastMarker(d.text, marker, start, s))
  {
    var n := Footnote(marker, start);
    var e := d.(footnotes := d.footnotes + [n]);
    assert forall x :: x in e.footnotes <==> x in d.footnotes || x == n;
    assert i in RequiredRunes(e) <==> i in RequiredRunes(d) && !InMarker(d.text, n, i);
    MarkerExactly(d.text, n, i);
  }

  predicate MarkerAt(text: seq<Rune>, marker: seq<Rune>, s: nat) {
    s + |marker| <= |text| && forall k | 0 <= k < |marker| :: text[s + k] == marker[k]
  }

  lemma MarkerOccurs(text: seq<Rune>, marker: seq<Rune>, s: nat)
    ensures OccursAt(text, marker, s) <==> MarkerAt(text, marker, s)
  {
    if OccursAt(text, marker, s) {
      assert forall k | 0 <= k < |marker| :: text[s..s + |marker|][k] == marker[k];
    }
  }

  /** The footnote's marker stands at `s`, ends before the footnote, and at no later place before it. */
  ghost predicate LastMarker(text: seq<Rune>, marker: seq<Rune>, start: int, s: nat) {
    && s + |marker| <= start && MarkerAt(text, marker, s)
    && forall later: nat :: s < later && later + |marker| <= start ==> !MarkerAt(text, marker, later)
  }

  lemma LastMarkerExactly(text: seq<Rune>, n: Footnote, s: nat)
    ensures LastMarker(text, n.marker, n.start, s) && |n.marker| > 0 <==> LastOccurrence(text, n, s)
  {
    hide OccursAt, MarkerAt;
    MarkerOccurs(text, n.marker, s);
    if LastMarker(text, n.marker, n.start, s) {
      forall later: int | s < later && later + |n.marker| <= n.start ensures !OccursAt(text, n.marker, later) {
        MarkerOccurs(text, n.marker, later);
      }
    }
    if LastOccurrence(text, n, s) {
      forall later: nat | s < later && later + |n.marker| <= n.start ensures !MarkerAt(text, n.marker, later) {
        MarkerOccurs(text, n.marker, later);
      }
    }
  }

  lemma MarkerExactly(text: seq<Rune>, n: Footnote, i: nat)
    ensures InMarker(text, n, i) <==>
            exists s: nat :: s <= i < s + |n.marker| && LastMarker(text, n.marker, n.start, s)
  {
    hide LastOccurrence, LastMarker;
    if s :| LastOccurrence(text, n, s) && s <= i < s + |n.marker| {
      StartsInside(text, n, s);
      LastMarkerExactly(text, n, s);
    }
    if s: nat :| s <= i < s + |n.marker| && LastMarker(text, n.marker, n.start, s) {
      LastMarkerExactly(text, n, s);
    }
  }

  lemma StartsInside(text: seq<Rune>, n: Footnote, s: int)
    requires LastOccurrence(text, n, s)
    ensures s >= 0
  {}
}
