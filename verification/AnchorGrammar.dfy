/** The anchor grammar spelled out: for every kind of anchor the text, the number in each place, and the bounds. */
module AnchorGrammar {
  import opened Common
  import opened Anchors
  import opened AnchorRoundTrip
  import D = Decimals

  // ---- Numbers -------------------------------------------------------------------------------

  /** `n` without its last `j` decimal digits. */
  function DropDigits(n: nat, j: nat): nat {
    if j == 0 then n else DropDigits(n / 10, j - 1)
  }

  /** The digits of a printed number, from the last one up, are those of its decimal expansion. */
  lemma {:induction false} DecimalDigits(n: nat, j: nat)
    requires j < |Decimal(n)|
    ensures Decimal(n)[|Decimal(n)| - 1 - j] as int == 48 + DropDigits(n, j) % 10
  {
    if j > 0 {
      DecimalDigits(n / 10, j - 1);
    }
  }

  /** As many digits are printed as there are, and one for zero. */
  lemma {:induction false} DecimalLength(n: nat)
    ensures DropDigits(n, |Decimal(n)|) == 0
    ensures n > 0 ==> DropDigits(n, |Decimal(n)| - 1) > 0
    ensures n == 0 ==> |Decimal(n)| == 1
  {
    if n >= 10 {
      DecimalLength(n / 10);
    }
  }

  lemma DecimalChars(n: int, c: char)
    requires c in Decimal(n)
    ensures c == '-' || D.IsDigit(c)
  {
    D.PrintIsNumeral(if n < 0 then -n else n);
  }

  lemma DecimalIsClean(n: int)
    ensures '/' !in Decimal(n) && ':' !in Decimal(n) && '.' !in Decimal(n)
  {
    if '/' in Decimal(n) {
      DecimalChars(n, '/');
    }
    if ':' in Decimal(n) {
      DecimalChars(n, ':');
    }
    if '.' in Decimal(n) {
      DecimalChars(n, '.');
    }
  }

  /** The parser reads back a printed number, from 1 to 2147483647, and from 0 where zero is allowed. */
  lemma NumberRead(n: int, allowZero: bool)
    ensures ParseDecimal(Decimal(n), allowZero) == if (if allowZero then 0 else 1) <= n <= 2147483647 then Ok(n) else Invalid
  {
    if ParseDecimal(Decimal(n), allowZero).Ok? {
      var m := ParseDecimal(Decimal(n), allowZero).value;
      ParseDecimalExactly(Decimal(n), allowZero, m);
      D.PrintIsNumeral(m);
      D.PrintIsNumeral(if n < 0 then -n else n);
    }
    ParseDecimalExactly(Decimal(n), allowZero, n);
  }

  // ---- Points --------------------------------------------------------------------------------

  lemma NoDotInJoin(parts: seq<string>)
    requires parts != [] && forall k | 0 <= k < |parts| :: '.' !in parts[k]
    ensures '.' !in Join(parts, '/')
  {}

  /** A text without dots is an anchor only if its parts are read as a point. */
  lemma RefusedParts(parts: seq<string>)
    requires parts != [] && forall k | 0 <= k < |parts| :: '/' !in parts[k] && '.' !in parts[k]
    requires if parts[0] == "quran" then ParseQuranPoint(parts) == Invalid
             else parts[0] == "kitab" ==> ParseKitabPoint(parts) == Invalid
    ensures Parse(Join(parts, '/')) == Invalid
  {
    SplitJoin(parts, '/');
    NoDotInJoin(parts);
    NoDots(Join(parts, '/'));
  }

  lemma LocatorRead(surah: int, ayah: int)
    ensures ParseAyahLocator(Decimal(surah) + ":" + Decimal(ayah)) ==
            if 1 <= surah <= 2147483647 && 1 <= ayah <= 2147483647 then Ok((surah, ayah)) else Invalid
  {
    var a, b := Decimal(surah), Decimal(ayah);
    DecimalIsClean(surah);
    DecimalIsClean(ayah);
    var raw := a + ":" + b;
    assert raw == a + [':'] + b;
    CountAfter(a, b, ':');
    NoIndex(a, ':');
    NoIndex(b, ':');
    IndexAfter(a, b, ':');
    assert raw[..|a|] == a && raw[|a| + 1..] == b;
    NumberRead(surah, false);
    NumberRead(ayah, false);
  }

  /** "quran/S" */
  lemma SurahText(surah: int)
    ensures Parse("quran/" + Decimal(surah)) ==
            if 1 <= surah <= 2147483647 then Ok(Value(Point(Quran, QuranSurah, 0, 0, 0, surah, 0), None)) else Invalid
  {
    if 1 <= surah <= 2147483647 {
      ShowThenParse(Value(Point(Quran, QuranSurah, 0, 0, 0, surah, 0), None));
    } else {
      DecimalIsClean(surah);
      NumberRead(surah, false);
      JoinTwo("quran", Decimal(surah));
      RefusedParts(["quran", Decimal(surah)]);
      assert "quran" + "/" == "quran/";
    }
  }

  /** "quran/S:A" */
  lemma AyahAnchor(surah: int, ayah: int)
    ensures Parse("quran/" + Decimal(surah) + ":" + Decimal(ayah)) ==
            if 1 <= surah <= 2147483647 && 1 <= ayah <= 2147483647
            then Ok(Value(Point(Quran, QuranAyah, 0, 0, 0, surah, ayah), None)) else Invalid
  {
    if 1 <= surah <= 2147483647 && 1 <= ayah <= 2147483647 {
      ShowThenParse(Value(Point(Quran, QuranAyah, 0, 0, 0, surah, ayah), None));
    } else {
      var locator := Decimal(surah) + ":" + Decimal(ayah);
      LocatorRead(surah, ayah);
      LocatorIsClean(surah, ayah);
      JoinTwo("quran", locator);
      RefusedParts(["quran", locator]);
      AyahText(Decimal(surah), Decimal(ayah));
    }
  }

  lemma LocatorIsClean(surah: int, ayah: int)
    ensures var locator := Decimal(surah) + ":" + Decimal(ayah);
            '/' !in locator && '.' !in locator && ':' in locator
  {
    DecimalIsClean(surah);
    DecimalIsClean(ayah);
    assert (Decimal(surah) + ":" + Decimal(ayah))[|Decimal(surah)|] == ':';
  }

  /** "quran/S:A/u/N" */
  lemma QuranUnitAnchor(surah: int, ayah: int, ordinal: int)
    ensures Parse("quran/" + Decimal(surah) + ":" + Decimal(ayah) + "/u/" + Decimal(ordinal)) ==
            if 1 <= surah <= 2147483647 && 1 <= ayah <= 2147483647 && 1 <= ordinal <= 2147483647
            then Ok(Value(Point(Quran, QuranUnit, 0, 0, ordinal, surah, ayah), None)) else Invalid
  {
    if 1 <= surah <= 2147483647 && 1 <= ayah <= 2147483647 && 1 <= ordinal <= 2147483647 {
      ShowThenParse(Value(Point(Quran, QuranUnit, 0, 0, ordinal, surah, ayah), None));
    } else {
      var locator := Decimal(surah) + ":" + Decimal(ayah);
      LocatorRead(surah, ayah);
      LocatorIsClean(surah, ayah);
      DecimalIsClean(ordinal);
      NumberRead(ordinal, false);
      JoinFour("quran", locator, "u", Decimal(ordinal));
      RefusedParts(["quran", locator, "u", Decimal(ordinal)]);
      QuranUnitText(Decimal(surah), Decimal(ayah), Decimal(ordinal));
    }
  }

  /** "kitab/B" */
  lemma WorkAnchor(book: int)
    ensures Parse("kitab/" + Decimal(book)) ==
            if 1 <= book <= 2147483647 then Ok(Value(Point(Kitab, KitabWork, book, 0, 0, 0, 0), None)) else Invalid
  {
    if 1 <= book <= 2147483647 {
      ShowThenParse(Value(Point(Kitab, KitabWork, book, 0, 0, 0, 0), None));
    } else {
      DecimalIsClean(book);
      NumberRead(book, false);
      JoinTwo("kitab", Decimal(book));
      RefusedParts(["kitab", Decimal(book)]);
      assert "kitab" + "/" == "kitab/";
    }
  }

  /** "kitab/B/h/H" */
  lemma HeadingAnchor(book: int, heading: int)
    ensures Parse("kitab/" + Decimal(book) + "/h/" + Decimal(heading)) ==
            if 1 <= book <= 2147483647 && 1 <= heading <= 2147483647
            then Ok(Value(Point(Kitab, KitabHeading, book, heading, 0, 0, 0), None)) else Invalid
  {
    if 1 <= book <= 2147483647 && 1 <= heading <= 2147483647 {
      ShowThenParse(Value(Point(Kitab, KitabHeading, book, heading, 0, 0, 0), None));
    } else {
      DecimalIsClean(book);
      DecimalIsClean(heading);
      NumberRead(book, false);
      NumberRead(heading, false);
      JoinFour("kitab", Decimal(book), "h", Decimal(heading));
      RefusedParts(["kitab", Decimal(book), "h", Decimal(heading)]);
      HeadingText(Decimal(book), Decimal(heading));
    }
  }

  /** "kitab/B/h/H/u/N", with heading 0 for the front matter */
  lemma KitabUnitAnchor(book: int, heading: int, ordinal: int)
    ensures Parse("kitab/" + Decimal(book) + "/h/" + Decimal(heading) + "/u/" + Decimal(ordinal)) ==
            if 1 <= book <= 2147483647 && 0 <= heading <= 2147483647 && 1 <= ordinal <= 2147483647
            then Ok(Value(Point(Kitab, KitabUnit, book, heading, ordinal, 0, 0), None)) else Invalid
  {
    if 1 <= book <= 2147483647 && 0 <= heading <= 2147483647 && 1 <= ordinal <= 2147483647 {
      ShowThenParse(Value(Point(Kitab, KitabUnit, book, heading, ordinal, 0, 0), None));
    } else {
      DecimalIsClean(book);
      DecimalIsClean(heading);
      DecimalIsClean(ordinal);
      NumberRead(book, false);
      NumberRead(heading, true);
      NumberRead(ordinal, false);
      JoinSix("kitab", Decimal(book), "h", Decimal(heading), "u", Decimal(ordinal));
      RefusedParts(["kitab", Decimal(book), "h", Decimal(heading), "u", Decimal(ordinal)]);
      KitabUnitText(Decimal(book), Decimal(heading), Decimal(ordinal));
    }
  }

  /** "S:A", the legacy key of an ayah */
  lemma LegacyKey(surah: int, ayah: int)
    ensures ParseLegacyAyahKey(Decimal(surah) + ":" + Decimal(ayah)) ==
            if 1 <= surah <= 2147483647 && 1 <= ayah <= 2147483647
            then Ok(Point(Quran, QuranAyah, 0, 0, 0, surah, ayah)) else Invalid
  {
    LocatorRead(surah, ayah);
    if 1 <= surah <= 2147483647 && 1 <= ayah <= 2147483647 {
      LocatorText(surah, ayah);
    }
  }

  // ---- Ranges and everything else --------------------------------------------------------------

  /** Two ayahs of one surah in order, or any two points of one book, make a range. */
  predicate MakeRange(p: Point, q: Point) {
    || (p.kind == QuranAyah && q.kind == QuranAyah && p.surah == q.surah && p.ayah <= q.ayah)
    || (p.corpus == Kitab && q.corpus == Kitab && p.bookId == q.bookId)
  }

  /** "P..Q" is a range exactly when P and Q are points that make one. */
  lemma RangeExactly(raw: string, p: Point, q: Point)
    ensures Parse(raw) == Ok(Value(p, Some(q))) <==>
            exists a, b :: raw == a + ".." + b && ParsePoint(a) == Ok(p) && ParsePoint(b) == Ok(q) && MakeRange(p, q)
  {
    if Parse(raw) == Ok(Value(p, Some(q))) {
      ParseThenShow(raw, Value(p, Some(q)));
      PointRead(p);
      PointRead(q);
      LengthNeverRefuses(p, q);
      assert raw == ShowPoint(p) + ".." + ShowPoint(q);
    }
    if a, b :| raw == a + ".." + b && ParsePoint(a) == Ok(p) && ParsePoint(b) == Ok(q) && MakeRange(p, q) {
      ParsedPoint(a, p);
      ParsedPoint(b, q);
      LengthNeverRefuses(p, q);
      ShowThenParse(Value(p, Some(q)));
    }
  }

  lemma PointRead(p: Point)
    requires Constructed(p)
    ensures ParsePoint(ShowPoint(p)) == Ok(p)
  {
    ConstructedIsValid(p);
    ShowThenParse(Value(p, None));
    ParsePointExactly(ShowPoint(p), p);
  }

  /** A text that is read as a point is one of the six forms above, with the numbers of the point in its places. */
  lemma NothingElseIsPoint(raw: string, p: Point)
    requires ParsePoint(raw) == Ok(p)
    ensures var s, a, n, b, h := Decimal(p.surah), Decimal(p.ayah), Decimal(p.ordinal), Decimal(p.bookId), Decimal(p.headingId);
            raw in {"quran/" + s, "quran/" + s + ":" + a, "quran/" + s + ":" + a + "/u/" + n,
                    "kitab/" + b, "kitab/" + b + "/h/" + h, "kitab/" + b + "/h/" + h + "/u/" + n}
  {
    ParsedPoint(raw, p);
  }
}
