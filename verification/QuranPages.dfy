/**
 The page-number backfill of Quran verses: a scan in (surah, ayah) order whose cursor packs both
 numbers into one integer, and which stops at a verse the frozen page map does not know.
 */
module QuranPages {
  import opened Common
  import opened OrderedScan

  const CURSOR_MULTIPLIER := 1000
  const LAST_SURAH := 114

  datatype Ayah = Ayah(surah: int, number: int)

  datatype Row = Row(ayah: Ayah, page: Option<int>)

  function Cursor(a: Ayah): int {
    a.surah * CURSOR_MULTIPLIER + a.number
  }

  /** ORDER BY surah_id, ayah_number. */
  predicate Before(a: Ayah, b: Ayah) {
    a.surah < b.surah || (a.surah == b.surah && a.number < b.number)
  }

  /** The CHECK constraints of the two tables. */
  predicate Admitted(a: Ayah) {
    1 <= a.surah <= LAST_SURAH && 1 <= a.number
  }

  /** Verses of the table, in the order of its primary key. */
  predicate InTable(ayahs: seq<Ayah>) {
    && (forall i, j :: 0 <= i < j < |ayahs| ==> Before(ayahs[i], ayahs[j]))
    && (forall i :: 0 <= i < |ayahs| ==> Admitted(ayahs[i]))
  }

  /** Verses numbered from 1 to `last` keep the order of their cursors exactly when `last` is at most 1000. */
  lemma CursorFollowsOrderExactly(last: int)
    ensures last <= CURSOR_MULTIPLIER <==>
            forall a: Ayah, b: Ayah :: 1 <= a.number <= last && 1 <= b.number <= last && Before(a, b) ==> Cursor(a) < Cursor(b)
  {
    if last > CURSOR_MULTIPLIER {
      var a, b := Ayah(1, last), Ayah(2, 1);
      assert Before(a, b) && Cursor(a) >= Cursor(b);
    }
  }

  // ---- The page map -----------------------------------------------------------------------

  /** Pages by surah and verse; index 0 of either is unused. */
  type PageMap = seq<seq<nat>>

  /** QPCHafsPageNumber: no page for coordinates outside the map. */
  function PageOf(pages: PageMap, a: Ayah): Option<int> {
    if a.surah <= 0 || a.surah >= |pages| then None
    else if a.number <= 0 || a.number >= |pages[a.surah]| then None
    else if pages[a.surah][a.number] > 0 then Some(pages[a.surah][a.number]) else None
  }

  /** The map has a positive entry at the surah and the number of the verse. */
  predicate HasEntry(pages: PageMap, a: Ayah) {
    0 < a.surah < |pages| && 0 < a.number < |pages[a.surah]| && pages[a.surah][a.number] > 0
  }

  /** The page of a verse is the entry at its own surah and number, and none is given where that is missing or zero. */
  lemma PageOfExactly(pages: PageMap, a: Ayah)
    ensures HasEntry(pages, a) ==> PageOf(pages, a) == Some(pages[a.surah][a.number])
    ensures !HasEntry(pages, a) ==> PageOf(pages, a) == None
  {}

  // How many verses each surah has in the frozen map; surah 0 has none.
  const SURAHS_FROM_0: seq<nat> := [0, 7, 286, 200, 176, 120, 165, 206, 75, 129, 109, 123, 111, 43, 52, 99, 128, 111, 110, 98, 135, 112, 78]
  const SURAHS_FROM_23: seq<nat> := [118, 64, 77, 227, 93, 88, 69, 60, 34, 30, 73, 54, 45, 83, 182, 88, 75, 85, 54, 53, 89, 59, 37]
  const SURAHS_FROM_46: seq<nat> := [35, 38, 29, 18, 45, 60, 49, 62, 55, 78, 96, 29, 22, 24, 13, 14, 11, 11, 18, 12, 12, 30, 52]
  const SURAHS_FROM_69: seq<nat> := [52, 44, 28, 28, 20, 56, 40, 31, 50, 40, 46, 42, 29, 19, 36, 25, 22, 17, 19, 26, 30, 20, 15]
  const SURAHS_FROM_92: seq<nat> := [21, 11, 8, 8, 19, 5, 8, 8, 11, 11, 8, 3, 9, 5, 4, 7, 3, 6, 3, 5, 4, 5, 6]
  const VERSES := SURAHS_FROM_0 + SURAHS_FROM_23 + SURAHS_FROM_46 + SURAHS_FROM_69 + SURAHS_FROM_92

  /** The shape of the frozen map: every verse of every surah, and nothing else, has a page. */
  predicate Frozen(pages: PageMap) {
    && |pages| == |VERSES|
    && forall s :: 1 <= s < |pages| ==>
         |pages[s]| == VERSES[s] + 1 && forall n :: 1 <= n < |pages[s]| ==> pages[s][n] > 0
  }

  /** Every verse with a page that another surah can follow is numbered 1000 or less. */
  ghost predicate NumbersFit(pages: PageMap) {
    forall a: Ayah :: Admitted(a) && a.surah < LAST_SURAH && PageOf(pages, a).Some? ==> a.number <= CURSOR_MULTIPLIER
  }

  lemma LongestSurah(surah: nat)
    requires surah < |VERSES|
    ensures |VERSES| == LAST_SURAH + 1 && VERSES[surah] <= 286
  {
    assert forall i :: 0 <= i < 23 ==> SURAHS_FROM_0[i] <= 286;
    assert forall i :: 0 <= i < 23 ==> SURAHS_FROM_23[i] <= 286;
    assert forall i :: 0 <= i < 23 ==> SURAHS_FROM_46[i] <= 286;
    assert forall i :: 0 <= i < 23 ==> SURAHS_FROM_69[i] <= 286;
    assert forall i :: 0 <= i < 23 ==> SURAHS_FROM_92[i] <= 286;
  }

  /** The frozen map has pages for exactly the verses counted, and its numbers fit. */
  lemma FrozenMapFits(pages: PageMap)
    requires Frozen(pages)
    ensures NumbersFit(pages)
    ensures forall a: Ayah :: PageOf(pages, a).Some? <==> 1 <= a.surah <= LAST_SURAH && 1 <= a.number <= VERSES[a.surah]
  {
    LongestSurah(0);
    forall a: Ayah | PageOf(pages, a).Some? ensures a.number <= 286 {
      LongestSurah(a.surah);
    }
  }

  // ---- What a scan does -------------------------------------------------------------------

  function Pending(rows: seq<Row>): seq<Ayah> {
    if rows == [] then []
    else if rows[0].page.None? then [rows[0].ayah] + Pending(rows[1..])
    else Pending(rows[1..])
  }

  predicate AllMapped(pages: PageMap, ayahs: seq<Ayah>) {
    forall i :: 0 <= i < |ayahs| ==> PageOf(pages, ayahs[i]).Some?
  }

  datatype ScanResult = ScanResult(outside: bool, visited: seq<Ayah>)

  /**
   An undisturbed scan of the pending verses: chunk after chunk until one comes short, or holds a verse
   without a page and is given up whole.
   */
  function ScanOf(pages: PageMap, ayahs: seq<Ayah>, cursor: int, limit: nat): ScanResult
    requires limit > 0
    decreases |ayahs|
  {
    var waiting := Above(Cursor, ayahs, cursor);
    var taken := waiting[..Min(limit, |waiting|)];
    if !AllMapped(pages, taken) then ScanResult(true, [])
    else if |taken| < limit then ScanResult(false, taken)
    else
      assert taken[0] in waiting;
      WithoutSome(ayahs, taken, taken[0]);
      var rest := ScanOf(pages, Without(ayahs, taken), Cursor(taken[limit - 1]), limit);
      ScanResult(rest.outside, taken + rest.visited)
  }

  lemma ScanByChunk(pages: PageMap, ayahs: seq<Ayah>, cursor: int, limit: nat)
    requires limit > 0
    ensures var waiting := Above(Cursor, ayahs, cursor);
            var taken := waiting[..Min(limit, |waiting|)];
            ScanOf(pages, ayahs, cursor, limit) ==
              if !AllMapped(pages, taken) then ScanResult(true, [])
              else if |taken| < limit then ScanResult(false, taken)
              else
                var rest := ScanOf(pages, Without(ayahs, taken), Cursor(taken[limit - 1]), limit);
                ScanResult(rest.outside, taken + rest.visited)
  {}

  /** The place of the first verse without a page, or the end. */
  function FirstOutside(pages: PageMap, ayahs: seq<Ayah>): (k: nat)
    ensures k <= |ayahs| && AllMapped(pages, ayahs[..k])
    ensures k < |ayahs| ==> PageOf(pages, ayahs[k]).None?
  {
    if ayahs == [] || PageOf(pages, ayahs[0]).None? then 0
    else
      var k := FirstOutside(pages, ayahs[1..]);
      assert forall i :: 0 < i < k + 1 ==> ayahs[i] == ayahs[1..][..k][i - 1];
      k + 1
  }

  lemma {:induction false} FirstOutsideLater(pages: PageMap, ayahs: seq<Ayah>, n: nat)
    requires n <= FirstOutside(pages, ayahs)
    ensures FirstOutside(pages, ayahs[n..]) == FirstOutside(pages, ayahs) - n
  {
    hide PageOf, AllMapped;
    if n == 0 {
      assert ayahs[0..] == ayahs;
    } else {
      FirstOutsideLater(pages, ayahs[1..], n - 1);
      assert ayahs[1..][n - 1..] == ayahs[n..];
    }
  }

  lemma ChunkMapped(pages: PageMap, ayahs: seq<Ayah>, n: nat)
    requires n <= |ayahs|
    ensures AllMapped(pages, ayahs[..n]) <==> n <= FirstOutside(pages, ayahs)
  {
    hide PageOf;
    var k := FirstOutside(pages, ayahs);
    if k < n {
      assert ayahs[..n][k] == ayahs[k];
    } else {
      assert forall i :: 0 <= i < n ==> ayahs[..n][i] == ayahs[..k][i];
    }
  }

  /** What has been visited when the scan meets its first verse without a page: the full chunks before it. */
  function VisitedBefore(k: nat, limit: nat): (n: nat)
    requires limit > 0
    ensures n <= k < n + limit
  {
    if k < limit then 0 else limit + VisitedBefore(k - limit, limit)
  }

  /** Every later verse of the table lies above the cursor of a verse with a page. */
  lemma LaterLiesAbove(pages: PageMap, ayahs: seq<Ayah>, i: nat, j: nat)
    requires InTable(ayahs) && NumbersFit(pages) && i < j < |ayahs| && PageOf(pages, ayahs[i]).Some?
    ensures Cursor(ayahs[i]) < Cursor(ayahs[j])
  {
    assert Admitted(ayahs[i]) && Before(ayahs[i], ayahs[j]) && Admitted(ayahs[j]);
  }

  lemma TableTail(ayahs: seq<Ayah>, n: nat)
    requires InTable(ayahs) && n <= |ayahs|
    ensures InTable(ayahs[n..])
  {}

  lemma TableIsDistinct(ayahs: seq<Ayah>)
    requires InTable(ayahs)
    ensures Distinct(ayahs)
  {
    forall i, j | 0 <= i < j < |ayahs| ensures ayahs[i] != ayahs[j] {
      assert Before(ayahs[i], ayahs[j]);
    }
  }

  /** What a full chunk of verses with pages leaves: the rest of the table, all above the new cursor. */
  lemma FullChunk(pages: PageMap, ayahs: seq<Ayah>, n: nat)
    requires InTable(ayahs) && NumbersFit(pages) && 0 < n <= FirstOutside(pages, ayahs)
    ensures var left := ayahs[n..];
            && Without(ayahs, ayahs[..n]) == left && InTable(left)
            && FirstOutside(pages, left) == FirstOutside(pages, ayahs) - n
            && forall i :: 0 <= i < |left| ==> Cursor(left[i]) > Cursor(ayahs[n - 1])
  {
    hide Cursor, PageOf, NumbersFit, Before, Admitted, Without, Distinct, InTable, FirstOutside;
    TableIsDistinct(ayahs);
    WithoutPrefix(ayahs, n);
    FirstOutsideLater(pages, ayahs, n);
    TableTail(ayahs, n);
    ChunkMapped(pages, ayahs, n);
    assert ayahs[..n][n - 1] == ayahs[n - 1];
    forall i | 0 <= i < |ayahs[n..]| ensures Cursor(ayahs[n..][i]) > Cursor(ayahs[n - 1]) {
      LaterLiesAbove(pages, ayahs, n - 1, n + i);
    }
  }

  /** One turn of a scan that has everything still before it. */
  lemma ScanTurn(pages: PageMap, ayahs: seq<Ayah>, cursor: int, limit: nat)
    requires InTable(ayahs) && NumbersFit(pages) && limit > 0
    requires forall i :: 0 <= i < |ayahs| ==> Cursor(ayahs[i]) > cursor
    ensures var n, k := Min(limit, |ayahs|), FirstOutside(pages, ayahs);
            && (k < n ==> ScanOf(pages, ayahs, cursor, limit) == ScanResult(true, []))
            && (n <= k && n < limit ==> ScanOf(pages, ayahs, cursor, limit) == ScanResult(false, ayahs))
            && (n <= k && n == limit ==>
                  var rest := ScanOf(pages, ayahs[n..], Cursor(ayahs[n - 1]), limit);
                  ScanOf(pages, ayahs, cursor, limit) == ScanResult(rest.outside, ayahs[..n] + rest.visited))
  {
    hide Cursor, PageOf, NumbersFit, Before, Admitted, ScanOf, Above, Without, Distinct, InTable, FirstOutside, AllMapped;
    AllAbove(Cursor, ayahs, cursor);
    ScanByChunk(pages, ayahs, cursor, limit);
    var n := Min(limit, |ayahs|);
    ChunkMapped(pages, ayahs, n);
    if n <= FirstOutside(pages, ayahs) {
      if n < limit {
        assert ayahs[..n] == ayahs;
      } else {
        FullChunk(pages, ayahs, n);
      }
    }
  }

  lemma SplitPrefix(ayahs: seq<Ayah>, n: nat, m: nat)
    requires n + m <= |ayahs|
    ensures ayahs[..n] + ayahs[n..][..m] == ayahs[..n + m] && ayahs[..n] + ayahs[n..] == ayahs
  {}

  lemma {:induction false} ScanFrom(pages: PageMap, ayahs: seq<Ayah>, cursor: int, limit: nat)
    requires InTable(ayahs) && NumbersFit(pages) && limit > 0
    requires forall i :: 0 <= i < |ayahs| ==> Cursor(ayahs[i]) > cursor
    ensures var k := FirstOutside(pages, ayahs);
            ScanOf(pages, ayahs, cursor, limit) ==
              if k == |ayahs| then ScanResult(false, ayahs) else ScanResult(true, ayahs[..VisitedBefore(k, limit)])
    decreases |ayahs|
  {
    hide Cursor, PageOf, NumbersFit, Before, Admitted, ScanOf, InTable, FirstOutside, AllMapped, Above, Without, Distinct;
    var k, n := FirstOutside(pages, ayahs), Min(limit, |ayahs|);
    ScanTurn(pages, ayahs, cursor, limit);
    if n <= k && n == limit {
      FullChunk(pages, ayahs, n);
      ScanFrom(pages, ayahs[n..], Cursor(ayahs[n - 1]), limit);
      SplitPrefix(ayahs, n, if k < |ayahs| then VisitedBefore(k - n, limit) else 0);
    }
  }

  /**
   A scan of any table from cursor 0: when every pending verse has a page it visits each of them once,
   in order; otherwise it stops outside the profile after the full chunks before the first that has none.
   */
  lemma ScanExactly(pages: PageMap, ayahs: seq<Ayah>, limit: nat)
    requires InTable(ayahs) && NumbersFit(pages) && limit > 0
    ensures var k := FirstOutside(pages, ayahs);
            ScanOf(pages, ayahs, 0, limit) ==
              if k == |ayahs| then ScanResult(false, ayahs) else ScanResult(true, ayahs[..VisitedBefore(k, limit)])
  {
    assert forall i :: 0 <= i < |ayahs| ==> Admitted(ayahs[i]);
    ScanFrom(pages, ayahs, 0, limit);
  }

  /** No scan of a table ends without an error and without having visited everything. */
  ghost predicate LosesNothing(pages: PageMap) {
    forall ayahs: seq<Ayah>, limit: nat | InTable(ayahs) && limit > 0 ::
      ScanOf(pages, ayahs, 0, limit).outside || ScanOf(pages, ayahs, 0, limit).visited == ayahs
  }

  /** A map with a page for a verse numbered above 1000 would let the scan pass over the next surah. */
  lemma LongSurahWouldLoseVerse(pages: PageMap, a: Ayah)
    requires Admitted(a) && a.surah < LAST_SURAH && a.number > CURSOR_MULTIPLIER && PageOf(pages, a).Some?
    ensures var ayahs := [a, Ayah(a.surah + 1, 1)];
            InTable(ayahs) && ScanOf(pages, ayahs, 0, 1) == ScanResult(false, [a])
  {
    var b := Ayah(a.surah + 1, 1);
    var ayahs := [a, b];
    AllAbove(Cursor, ayahs, 0);
    ScanByChunk(pages, ayahs, 0, 1);
    WithoutPrefix(ayahs, 1);
    assert ayahs[..1] == [a] && ayahs[1..] == [b];
    ScanByChunk(pages, [b], Cursor(a), 1);
    assert Above(Cursor, [b], Cursor(a)) == [];
  }

  /** The page map is what makes the packed cursor safe: exactly the maps whose numbers fit lose nothing. */
  lemma ScanIsCompleteExactly(pages: PageMap)
    ensures LosesNothing(pages) <==> NumbersFit(pages)
  {
    hide Cursor, ScanOf;
    if NumbersFit(pages) {
      forall ayahs: seq<Ayah>, limit: nat | InTable(ayahs) && limit > 0
        ensures ScanOf(pages, ayahs, 0, limit).outside || ScanOf(pages, ayahs, 0, limit).visited == ayahs
      {
        ScanExactly(pages, ayahs, limit);
      }
    } else {
      var a: Ayah :| Admitted(a) && a.surah < LAST_SURAH && PageOf(pages, a).Some? && a.number > CURSOR_MULTIPLIER;
      LongSurahWouldLoseVerse(pages, a);
      var limit: nat := 1;
      assert !ScanOf(pages, [a, Ayah(a.surah + 1, 1)], 0, limit).outside;
    }
  }

  // ---- The job ----------------------------------------------------------------------------

  function FillRow(row: Row, numbers: map<Ayah, int>): Row {
    if row.ayah in numbers && row.page.None? then row.(page := Some(numbers[row.ayah])) else row
  }

  /** UPDATE ... SET page_number = incoming.page_number WHERE ayah_key matches AND page_number IS NULL. */
  function FillRows(rows: seq<Row>, numbers: map<Ayah, int>): (r: seq<Row>)
    ensures |r| == |rows| && forall i :: 0 <= i < |rows| ==> r[i] == FillRow(rows[i], numbers)
  {
    if rows == [] then [] else [FillRow(rows[0], numbers)] + FillRows(rows[1..], numbers)
  }

  function Affected(rows: seq<Row>, numbers: map<Ayah, int>): nat {
    if rows == [] then 0
    else (if rows[0].ayah in numbers && rows[0].page.None? then 1 else 0) + Affected(rows[1..], numbers)
  }

  predicate Numbered(pages: PageMap, taken: seq<Ayah>, numbers: map<Ayah, int>) {
    && numbers.Keys == (set a | a in taken)
    && forall a :: a in numbers ==> HasEntry(pages, a) && numbers[a] == pages[a.surah][a.number]
  }

  /** The UPDATE takes exactly its verses out of the pending ones. */
  lemma {:induction false} FillRemoves(pages: PageMap, rows: seq<Row>, taken: seq<Ayah>, numbers: map<Ayah, int>)
    requires Numbered(pages, taken, numbers)
    ensures Pending(FillRows(rows, numbers)) == Without(Pending(rows), taken)
    ensures Affected(rows, numbers) + |Without(Pending(rows), taken)| == |Pending(rows)|
  {
    if rows != [] {
      FillRemoves(pages, rows[1..], taken, numbers);
      assert FillRows(rows, numbers)[1..] == FillRows(rows[1..], numbers);
      var pending := Pending(rows[1..]);
      assert ([rows[0].ayah] + pending)[1..] == pending;
    }
  }

  /** The rows of the table, in the order of its primary key. */
  predicate TableRows(rows: seq<Row>) {
    && (forall i, j :: 0 <= i < j < |rows| ==> Before(rows[i].ayah, rows[j].ayah))
    && (forall i :: 0 <= i < |rows| ==> Admitted(rows[i].ayah))
  }

  lemma {:induction false} PendingInTable(rows: seq<Row>)
    requires TableRows(rows)
    ensures InTable(Pending(rows)) && Distinct(Pending(rows))
    ensures forall a :: a in Pending(rows) ==> exists i :: 0 <= i < |rows| && rows[i].ayah == a
  {
    hide Before, Admitted;
    if rows != [] {
      var head, tail := rows[0], rows[1..];
      assert forall i :: 0 <= i < |tail| ==> tail[i] == rows[i + 1];
      PendingInTable(tail);
      var rest := Pending(tail);
      forall a | a in rest
        ensures Before(head.ayah, a) && exists i :: 0 <= i < |rows| && rows[i].ayah == a
      {
        var i :| 0 <= i < |tail| && tail[i].ayah == a;
        assert rows[i + 1].ayah == a;
      }
      assert forall i :: 0 <= i < |rest| ==> rest[i] in rest;
    }
    TableIsDistinct(Pending(rows));
  }

  /** The taken verses, and only they, got the entry of the map at their surah and number and stopped being pending. */
  ghost predicate Filled(pages: PageMap, before: seq<Row>, after: seq<Row>, taken: seq<Ayah>) {
    && Pending(after) == Without(Pending(before), taken)
    && |after| == |before|
    && forall i :: 0 <= i < |after| ==>
         var a := before[i].ayah;
         if a in taken && before[i].page.None?
         then HasEntry(pages, a) && after[i] == Row(a, Some(pages[a.surah][a.number])) else after[i] == before[i]
  }

  /** Every verse has a page: the one it had, or else the entry of the map at its surah and number. */
  ghost predicate AllPaged(pages: PageMap, before: seq<Row>, after: seq<Row>) {
    && |after| == |before|
    && forall i :: 0 <= i < |after| ==>
         var a := before[i].ayah;
         if before[i].page.Some? then after[i] == before[i]
         else HasEntry(pages, a) && after[i] == Row(a, Some(pages[a.surah][a.number]))
  }

  lemma FilledAll(pages: PageMap, before: seq<Row>, after: seq<Row>)
    requires Filled(pages, before, after, Pending(before))
    ensures AllPaged(pages, before, after)
  {
    forall i | 0 <= i < |before| && before[i].page.None? ensures before[i].ayah in Pending(before) {
      PendingListed(before, i);
    }
  }

  lemma {:induction false} PendingListed(rows: seq<Row>, i: nat)
    requires i < |rows| && rows[i].page.None?
    ensures rows[i].ayah in Pending(rows)
  {
    if i > 0 {
      PendingListed(rows[1..], i - 1);
    }
  }

  lemma FillIsExact(pages: PageMap, rows: seq<Row>, taken: seq<Ayah>, numbers: map<Ayah, int>)
    requires TableRows(rows) && Numbered(pages, taken, numbers)
    ensures Filled(pages, rows, FillRows(rows, numbers), taken)
    ensures TableRows(FillRows(rows, numbers))
    ensures Affected(rows, numbers) + |Without(Pending(rows), taken)| == |Pending(rows)|
  {
    hide Without, Pending, Cursor;
    FillRemoves(pages, rows, taken, numbers);
  }

  lemma NothingFilled(pages: PageMap, rows: seq<Row>)
    ensures Filled(pages, rows, rows, [])
  {
    hide Pending;
    NothingTaken(Pending(rows), []);
  }

  lemma FilledPending(pages: PageMap, before: seq<Row>, after: seq<Row>, taken: seq<Ayah>)
    requires Filled(pages, before, after, taken)
    ensures Pending(after) == Without(Pending(before), taken)
  {}

  /** Filling verses in two rounds is filling them all at once. */
  lemma FilledTwice(pages: PageMap, a: seq<Row>, b: seq<Row>, c: seq<Row>, first: seq<Ayah>, second: seq<Ayah>)
    requires Filled(pages, a, b, first) && Filled(pages, b, c, second)
    ensures Filled(pages, a, c, first + second)
  {
    hide Pending, Without, PageOf;
    WithoutTwice(Pending(a), first, second);
  }

  lemma MappedOrNot(pages: PageMap, ayahs: seq<Ayah>)
    ensures !AllMapped(pages, ayahs) <==> exists a :: a in ayahs && PageOf(pages, a).None?
  {}

  lemma OutsideIsSome(pages: PageMap, ayahs: seq<Ayah>)
    ensures FirstOutside(pages, ayahs) < |ayahs| <==> exists a :: a in ayahs && PageOf(pages, a).None?
  {
    var k := FirstOutside(pages, ayahs);
    if k == |ayahs| {
      assert ayahs[..k] == ayahs;
    }
  }

  lemma Regroup(a: seq<Ayah>, b: seq<Ayah>, c: seq<Ayah>)
    ensures (a + b) + c == a + (b + c) && a + [] == a
  {}

  /** With a map whose numbers fit, the end of a scan says whether a page was missing, and nothing is left. */
  lemma ScanOutcome(pages: PageMap, before: seq<Row>, after: seq<Row>, limit: nat, outside: bool, visited: seq<Ayah>)
    requires TableRows(before) && NumbersFit(pages) && limit > 0 && Filled(pages, before, after, visited)
    requires ScanOf(pages, Pending(before), 0, limit) == ScanResult(outside, visited)
    ensures outside <==> exists a :: a in Pending(before) && PageOf(pages, a).None?
    ensures !outside ==> visited == Pending(before) && Pending(after) == []
  {
    hide Cursor, Without, Pending, ScanOf, Distinct, NumbersFit, PageOf, FirstOutside, TableRows, InTable;
    var all := Pending(before);
    PendingInTable(before);
    ScanExactly(pages, all, limit);
    OutsideIsSome(pages, all);
    WithoutPrefix(all, |all|);
    assert all[..|all|] == all;
  }

  datatype Chunk = Processed(cursor: int, processed: nat, done: bool) | OutsideProfile | WriteConflict | Database

  const DEFAULT_CHUNK_SIZE := 100

  function ChunkLimit(requested: int): (r: nat)
    ensures r > 0 && (requested > 0 ==> r == requested) && (requested <= 0 ==> r == 100)
  {
    if requested <= 0 then DEFAULT_CHUNK_SIZE else requested
  }

  class AyahTable {
    const pages: PageMap
    var rows: seq<Row>

    constructor (pages: PageMap, rows: seq<Row>)
      ensures this.pages == pages && this.rows == rows
    {
      this.pages, this.rows := pages, rows;
    }

    ghost predicate Valid()
      reads this
    {
      TableRows(rows)
    }

    ghost function Taken(cursor: int, limit: nat): seq<Ayah>
      reads this
    {
      var waiting := Above(Cursor, Pending(rows), cursor);
      waiting[..Min(limit, |waiting|)]
    }

    /** The row loop: look every verse up in the page map and remember the last cursor. */
    method LoadChunk(cursor: int, limit: nat) returns (outside: bool, keys: seq<Ayah>, numbers: map<Ayah, int>, lastCursor: int)
      ensures outside <==> exists a :: a in Taken(cursor, limit) && PageOf(pages, a).None?
      ensures !outside ==> keys == Taken(cursor, limit) && Numbered(pages, keys, numbers)
      ensures !outside ==> lastCursor == if keys == [] then cursor else Cursor(keys[|keys| - 1])
    {
      var waiting := Above(Cursor, Pending(rows), cursor);
      var selected := waiting[..Min(limit, |waiting|)];
      keys, numbers, lastCursor := [], map[], cursor;
      for k := 0 to |selected|
        invariant keys == selected[..k] && Numbered(pages, keys, numbers)
        invariant lastCursor == if k == 0 then cursor else Cursor(selected[k - 1])
        invariant forall i :: 0 <= i < k ==> PageOf(pages, selected[i]).Some?
      {
        var page := PageOf(pages, selected[k]);
        if page.None? {
          assert selected[k] in selected;
          return true, keys, numbers, lastCursor;
        }
        keys := keys + [selected[k]];
        numbers := numbers[selected[k] := page.value];
        lastCursor := Cursor(selected[k]);
      }
      outside := false;
    }

    method ProcessChunk(cursor: int, requested: int, commit: WriteResult) returns (r: Chunk)
      requires Valid()
      modifies this
      ensures Valid() && !r.WriteConflict?
      ensures r.OutsideProfile? <==> exists a :: a in old(Taken(cursor, ChunkLimit(requested))) && PageOf(pages, a).None?
      ensures r.OutsideProfile? || (commit.Lost? && old(Taken(cursor, ChunkLimit(requested))) != []) ==> rows == old(rows)
      ensures !r.OutsideProfile? && !(commit.Lost? && old(Taken(cursor, ChunkLimit(requested))) != []) ==>
                Filled(pages, old(rows), rows, old(Taken(cursor, ChunkLimit(requested))))
      ensures r.Processed? ==>
                var taken := old(Taken(cursor, ChunkLimit(requested)));
                && r.processed == |taken| && (r.done <==> |taken| < ChunkLimit(requested))
                && r.cursor == if taken == [] then cursor else Cursor(taken[|taken| - 1])
      ensures commit.Written? && !r.OutsideProfile? ==> r.Processed?
      ensures r.Processed? ==> commit.Written? || old(Taken(cursor, ChunkLimit(requested))) == []
    {
      hide Cursor, Above, Without, Distinct, Affected, Pending, FillRow, Filled, TableRows, Numbered;
      var limit := ChunkLimit(requested);
      var outside, keys, numbers, lastCursor := LoadChunk(cursor, limit);
      if outside {
        return OutsideProfile;
      }
      if |keys| == 0 {
        NothingFilled(pages, rows);
        return Processed(cursor, 0, true);
      }
      PendingInTable(rows);
      WithoutShrinks(Cursor, Pending(rows), cursor, |keys|);
      FillIsExact(pages, rows, keys, numbers);
      if Affected(rows, numbers) != |keys| {
        return WriteConflict;
      }
      if !commit.Lost? {
        rows := FillRows(rows, numbers);
      }
      if !commit.Written? {
        return Database;
      }
      return Processed(lastCursor, |keys|, |keys| < limit);
    }

    /**
     An undisturbed scan from the start visits what `ScanOf` says and fills exactly that. With a map whose
     numbers fit it fails exactly when some pending verse has no page, and otherwise leaves none pending.
     */
    method Scan(limit: nat) returns (outside: bool, ghost visited: seq<Ayah>)
      requires Valid() && limit > 0
      modifies this
      ensures Valid() && Filled(pages, old(rows), rows, visited)
      ensures ScanOf(pages, old(Pending(rows)), 0, limit) == ScanResult(outside, visited)
      ensures NumbersFit(pages) ==> (outside <==> exists a :: a in old(Pending(rows)) && PageOf(pages, a).None?)
      ensures NumbersFit(pages) && !outside ==> visited == old(Pending(rows)) && Pending(rows) == []
      ensures NumbersFit(pages) && !outside ==> AllPaged(pages, old(rows), rows)
    {
      hide Cursor, Above, Without, Pending, ScanOf, Distinct, FillRow, Filled, NumbersFit, AllMapped, TableRows, PageOf, AllPaged;
      var cursor := 0;
      visited := [];
      ghost var all := Pending(rows);
      PendingInTable(rows);
      NothingFilled(pages, rows);
      outside := false;
      var done := false;
      while !done && !outside
        invariant Valid() && Filled(pages, old(rows), rows, visited)
        invariant !done && !outside ==>
                    var rest := ScanOf(pages, Pending(rows), cursor, limit);
                    ScanOf(pages, all, 0, limit) == ScanResult(rest.outside, visited + rest.visited)
        invariant done || outside ==> ScanOf(pages, all, 0, limit) == ScanResult(outside, visited)
        decreases !done && !outside, |Pending(rows)|
      {
        ghost var before, taken, was := Pending(rows), Taken(cursor, limit), rows;
        PendingInTable(rows);
        TableIsDistinct(before);
        ScanByChunk(pages, before, cursor, limit);
        WithoutShrinks(Cursor, before, cursor, |taken|);
        MappedOrNot(pages, taken);
        var r := ProcessChunk(cursor, limit, Written);
        if r.OutsideProfile? {
          outside := true;
          Regroup(visited, [], []);
        } else {
          FilledPending(pages, was, rows, taken);
          FilledTwice(pages, old(rows), was, rows, visited, taken);
          Regroup(visited, taken, if r.done then [] else ScanOf(pages, Pending(rows), r.cursor, limit).visited);
          visited := visited + taken;
          done, cursor := r.done, r.cursor;
        }
      }
      if NumbersFit(pages) {
        ScanOutcome(pages, old(rows), rows, limit, outside, visited);
        if !outside {
          FilledAll(pages, old(rows), rows);
        }
      }
    }
  }
}
