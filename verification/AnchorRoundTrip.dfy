/** Parsing and printing anchors are inverse to each other, in both directions. */
module AnchorRoundTrip {
  import opened Common
  import opened Anchors
  import D = Decimals

  // ---- Decimals ----------------------------------------------------------------------------

  /** A decimal component is accepted exactly when it is the printed form of an admitted number. */
  lemma ParseDecimalExactly(raw: string, allowZero: bool, n: int)
    ensures ParseDecimal(raw, allowZero) == Ok(n)
            <==> NonNegative(n) && (n > 0 || allowZero) && raw == Decimal(n)
  {
    if ParseDecimal(raw, allowZero).Ok? {
      D.NumeralIsPrint(raw);
    }
    if n >= 0 {
      D.PrintIsNumeral(n);
    }
  }

  // ---- Splitting and joining ---------------------------------------------------------------

  function Join(parts: seq<string>, c: char): string
    requires parts != []
  {
    if |parts| == 1 then parts[0] else parts[0] + [c] + Join(parts[1..], c)
  }

  lemma {:induction false} JoinSplit(s: string, c: char)
    ensures Join(Split(s, c), c) == s
    decreases |s|
  {
    IndexInRange(s, c);
    var i := IndexOf(s, c);
    if i < |s| {
      JoinSplit(s[i + 1..], c);
      assert Split(s, c)[1..] == Split(s[i + 1..], c);
      assert s == s[..i] + [c] + s[i + 1..];
    }
  }

  lemma {:induction false} IndexAfter(a: string, b: string, c: char)
    requires c !in a
    ensures IndexOf(a + [c] + b, c) == |a|
  {
    if a != "" {
      IndexAfter(a[1..], b, c);
      assert (a + [c] + b)[1..] == a[1..] + [c] + b;
    }
  }

  lemma {:induction false} NoIndex(a: string, c: char)
    requires c !in a
    ensures IndexOf(a, c) == |a| && CountChar(a, c) == 0
  {
    if a != "" {
      NoIndex(a[1..], c);
    }
  }

  lemma {:induction false} SplitJoin(parts: seq<string>, c: char)
    requires parts != [] && forall k | 0 <= k < |parts| :: c !in parts[k]
    ensures Split(Join(parts, c), c) == parts
  {
    var s := Join(parts, c);
    if |parts| == 1 {
      NoIndex(parts[0], c);
    } else {
      var rest := Join(parts[1..], c);
      IndexAfter(parts[0], rest, c);
      SplitJoin(parts[1..], c);
      assert s[..|parts[0]|] == parts[0] && s[|parts[0]| + 1..] == rest;
    }
  }

  lemma {:induction false} CountAfter(a: string, b: string, c: char)
    ensures CountChar(a + [c] + b, c) == CountChar(a, c) + 1 + CountChar(b, c)
  {
    if a == "" {
      assert ([c] + b)[1..] == b;
      assert a + [c] + b == [c] + b;
    } else {
      CountAfter(a[1..], b, c);
      assert (a + [c] + b)[1..] == a[1..] + [c] + b;
    }
  }

  // ---- Ayah locators -----------------------------------------------------------------------

  function Locator(surah: int, ayah: int): string {
    Decimal(surah) + ":" + Decimal(ayah)
  }

  lemma DecimalHasNo(n: int, c: char)
    requires n >= 0 && !D.IsDigit(c)
    ensures c !in Decimal(n)
  {
    D.PrintIsNumeral(n);
  }

  lemma LocatorParses(surah: int, ayah: int)
    requires Positive(surah) && Positive(ayah)
    ensures ParseAyahLocator(Locator(surah, ayah)) == Ok((surah, ayah)) && ':' in Locator(surah, ayah)
  {
    var a, b := Decimal(surah), Decimal(ayah);
    var raw := Locator(surah, ayah);
    assert raw == a + [':'] + b;
    DecimalHasNo(surah, ':');
    DecimalHasNo(ayah, ':');
    CountAfter(a, b, ':');
    NoIndex(a, ':');
    NoIndex(b, ':');
    IndexAfter(a, b, ':');
    assert raw[..|a|] == a && raw[|a| + 1..] == b;
    ParseDecimalExactly(a, false, surah);
    ParseDecimalExactly(b, false, ayah);
  }

  lemma ParsedLocator(raw: string)
    requires ParseAyahLocator(raw).Ok?
    ensures var (surah, ayah) := ParseAyahLocator(raw).value;
            Positive(surah) && Positive(ayah) && raw == Locator(surah, ayah)
  {
    IndexInRange(raw, ':');
    CountedIsIn(raw, ':');
    var i := IndexOf(raw, ':');
    var (surah, ayah) := ParseAyahLocator(raw).value;
    ParseDecimalExactly(raw[..i], false, surah);
    ParseDecimalExactly(raw[i + 1..], false, ayah);
    assert raw == raw[..i] + [raw[i]] + raw[i + 1..];
  }

  // ---- Points ------------------------------------------------------------------------------

  /** The components of a point's printed form. */
  function Parts(p: Point): seq<string> {
    match p.kind
    case NoKind => [""]
    case QuranSurah => ["quran", Decimal(p.surah)]
    case QuranAyah => ["quran", Locator(p.surah, p.ayah)]
    case QuranUnit => ["quran", Locator(p.surah, p.ayah), "u", Decimal(p.ordinal)]
    case KitabWork => ["kitab", Decimal(p.bookId)]
    case KitabHeading => ["kitab", Decimal(p.bookId), "h", Decimal(p.headingId)]
    case KitabUnit => ["kitab", Decimal(p.bookId), "h", Decimal(p.headingId), "u", Decimal(p.ordinal)]
  }

  lemma JoinTwo(a: string, b: string)
    ensures Join([a, b], '/') == a + "/" + b
  {
    assert [a, b][1..] == [b];
  }

  lemma JoinFour(a: string, b: string, c: string, d: string)
    ensures Join([a, b, c, d], '/') == a + "/" + b + "/" + c + "/" + d
  {
    assert [a, b, c, d][1..] == [b, c, d];
    assert [b, c, d][1..] == [c, d];
    JoinTwo(c, d);
    assert Join([b, c, d], '/') == b + "/" + Join([c, d], '/');
  }

  lemma JoinSix(a: string, b: string, c: string, d: string, e: string, f: string)
    ensures Join([a, b, c, d, e, f], '/') == a + "/" + (b + "/" + (c + "/" + d + "/" + e + "/" + f))
  {
    JoinFour(c, d, e, f);
    assert [a, b, c, d, e, f][1..] == [b, c, d, e, f];
    assert [b, c, d, e, f][1..] == [c, d, e, f];
  }

  lemma AyahText(surah: string, ayah: string)
    ensures "quran/" + surah + ":" + ayah == "quran" + "/" + (surah + ":" + ayah)
  {}

  lemma QuranUnitText(surah: string, ayah: string, ordinal: string)
    ensures "quran/" + surah + ":" + ayah + "/u/" + ordinal
         == "quran" + "/" + (surah + ":" + ayah) + "/" + "u" + "/" + ordinal
  {
    AyahText(surah, ayah);
    assert "/u/" == "/" + "u" + "/";
  }

  lemma HeadingText(book: string, heading: string)
    ensures "kitab/" + book + "/h/" + heading == "kitab" + "/" + book + "/" + "h" + "/" + heading
  {
    assert "/h/" == "/" + "h" + "/";
  }

  lemma KitabUnitText(book: string, heading: string, ordinal: string)
    ensures "kitab/" + book + "/h/" + heading + "/u/" + ordinal
         == "kitab" + "/" + (book + "/" + ("h" + "/" + heading + "/" + "u" + "/" + ordinal))
  {
    HeadingText(book, heading);
    assert "/u/" == "/" + "u" + "/";
    var tail := "h" + "/" + heading + "/" + "u" + "/" + ordinal;
    assert "kitab/" + book + "/h/" + heading + "/u/" + ordinal == "kitab/" + book + "/" + tail;
  }

  lemma ShowIsJoin(p: Point)
    ensures ShowPoint(p) == Join(Parts(p), '/')
  {
    hide Join, Decimal;
    match p.kind
    case NoKind => JoinOne("");
    case QuranSurah => JoinTwo("quran", Decimal(p.surah));
    case QuranAyah =>
      JoinTwo("quran", Locator(p.surah, p.ayah));
      AyahText(Decimal(p.surah), Decimal(p.ayah));
    case QuranUnit =>
      JoinFour("quran", Locator(p.surah, p.ayah), "u", Decimal(p.ordinal));
      QuranUnitText(Decimal(p.surah), Decimal(p.ayah), Decimal(p.ordinal));
    case KitabWork => JoinTwo("kitab", Decimal(p.bookId));
    case KitabHeading =>
      JoinFour("kitab", Decimal(p.bookId), "h", Decimal(p.headingId));
      HeadingText(Decimal(p.bookId), Decimal(p.headingId));
    case KitabUnit =>
      JoinSix("kitab", Decimal(p.bookId), "h", Decimal(p.headingId), "u", Decimal(p.ordinal));
      KitabUnitText(Decimal(p.bookId), Decimal(p.headingId), Decimal(p.ordinal));
  }

  lemma JoinOne(a: string)
    ensures Join([a], '/') == a
  {}

  lemma PartsHaveNoSlash(p: Point)
    requires Constructed(p)
    ensures forall k | 0 <= k < |Parts(p)| :: '/' !in Parts(p)[k]
  {
    forall n: nat
      ensures '/' !in Decimal(n)
    {
      DecimalHasNo(n, '/');
    }
  }

  /** Every point a caller can hold is read back from its printed form. */
  lemma PointParses(p: Point)
    requires Constructed(p)
    ensures ParseParts(ShowPoint(p)) == Ok(p)
  {
    ShowIsJoin(p);
    PartsHaveNoSlash(p);
    SplitJoin(Parts(p), '/');
    PartsParse(p);
  }

  lemma PartsParse(p: Point)
    requires Constructed(p)
    ensures if p.corpus == Quran then Parts(p)[0] == "quran" && ParseQuranPoint(Parts(p)) == Ok(p)
            else Parts(p)[0] == "kitab" && ParseKitabPoint(Parts(p)) == Ok(p)
  {
    match p.kind
    case QuranSurah =>
      ParseDecimalExactly(Decimal(p.surah), false, p.surah);
      DecimalHasNo(p.surah, ':');
    case QuranAyah => LocatorParses(p.surah, p.ayah);
    case QuranUnit =>
      LocatorParses(p.surah, p.ayah);
      ParseDecimalExactly(Decimal(p.ordinal), false, p.ordinal);
    case KitabWork => ParseDecimalExactly(Decimal(p.bookId), false, p.bookId);
    case KitabHeading =>
      ParseDecimalExactly(Decimal(p.bookId), false, p.bookId);
      ParseDecimalExactly(Decimal(p.headingId), false, p.headingId);
    case KitabUnit =>
      ParseDecimalExactly(Decimal(p.bookId), false, p.bookId);
      ParseDecimalExactly(Decimal(p.headingId), true, p.headingId);
      ParseDecimalExactly(Decimal(p.ordinal), false, p.ordinal);
  }

  lemma ParsedQuran(parts: seq<string>, p: Point)
    requires parts != [] && parts[0] == "quran" && ParseQuranPoint(parts) == Ok(p)
    ensures Constructed(p) && parts == Parts(p)
  {
    if |parts| == 4 {
      ParsedLocator(parts[1]);
      ParseDecimalExactly(parts[3], false, p.ordinal);
    } else if ':' !in parts[1] {
      ParseDecimalExactly(parts[1], false, p.surah);
    } else {
      ParsedLocator(parts[1]);
    }
  }

  lemma ParsedKitab(parts: seq<string>, p: Point)
    requires parts != [] && parts[0] == "kitab" && ParseKitabPoint(parts) == Ok(p)
    ensures Constructed(p) && parts == Parts(p)
  {
    ParseDecimalExactly(parts[1], false, p.bookId);
    if |parts| == 4 {
      ParseDecimalExactly(parts[3], false, p.headingId);
    } else if |parts| == 6 {
      ParseDecimalExactly(parts[3], true, p.headingId);
      ParseDecimalExactly(parts[5], false, p.ordinal);
    }
  }

  /** A text read as a point is the printed form of that point, which a caller could have built. */
  lemma ParsedPoint(raw: string, p: Point)
    requires ParseParts(raw) == Ok(p)
    ensures Constructed(p) && ShowPoint(p) == raw
  {
    var parts := Split(raw, '/');
    JoinSplit(raw, '/');
    if parts[0] == "quran" {
      ParsedQuran(parts, p);
    } else {
      ParsedKitab(parts, p);
    }
    ShowIsJoin(p);
  }

  // ---- The text of a point -----------------------------------------------------------------

  predicate PointChar(c: char) {
    'a' <= c <= 'z' || D.IsDigit(c) || c == '/' || c == ':'
  }

  predicate PointText(s: string) {
    forall i | 0 <= i < |s| :: PointChar(s[i])
  }

  lemma DecimalText(n: int)
    requires NonNegative(n)
    ensures PointText(Decimal(n)) && 1 <= |Decimal(n)| <= 10
  {
    D.PrintIsNumeral(n);
    assert D.Power(10) == 10_000_000_000 by {
      assert D.Power(5) == 100_000;
    }
    D.PrintLength(n, 10);
  }

  lemma ShownText(p: Point)
    requires Constructed(p)
    ensures PointText(ShowPoint(p)) && 0 < |ShowPoint(p)| <= 42
  {
    hide Decimal;
    DecimalText(p.surah);
    DecimalText(p.ayah);
    DecimalText(p.ordinal);
    DecimalText(p.bookId);
    DecimalText(p.headingId);
  }

  // ---- Ranges ------------------------------------------------------------------------------

  lemma {:induction false} NoDots(s: string)
    requires '.' !in s
    ensures CountDots(s) == 0
  {
    if |s| >= 2 {
      assert s[..2][0] == s[0];
      NoDots(s[1..]);
    }
  }

  lemma {:induction false} DotsAfter(a: string, b: string)
    requires '.' !in a && '.' !in b
    ensures CountDots(a + ".." + b) == 1 && FirstDots(a + ".." + b) == |a|
  {
    var s := a + ".." + b;
    if a == "" {
      assert s[..2] == ".." && s[2..] == b;
      NoDots(b);
    } else {
      assert s[..2][0] == a[0] && s[1..] == a[1..] + ".." + b;
      DotsAfter(a[1..], b);
    }
  }

  lemma ConstructedIsValid(p: Point)
    requires Constructed(p)
    ensures Valid(p)
  {}

  /** No constructed value is refused for its length: 86 bytes are always enough. */
  lemma LengthNeverRefuses(start: Point, end: Point)
    requires Constructed(start) && Constructed(end)
    ensures |Show(Value(start, Some(end)))| <= 86
    ensures NewRange(start, end).Ok? <==> SharedScope(start, end)
  {
    ShownText(start);
    ShownText(end);
    ConstructedIsValid(start);
    ConstructedIsValid(end);
  }

  lemma ShownLength(v: Value)
    requires ConstructedValue(v)
    ensures 0 < |Show(v)| <= 86 && LexicalForm(Show(v))
  {
    ShownText(v.start);
    if v.end.Some? {
      ShownText(v.end.value);
    }
  }

  lemma TextHasNoDot(s: string)
    requires PointText(s)
    ensures '.' !in s
  {}

  /** Every value a caller can hold is read back from its printed form. */
  lemma ShowThenParse(v: Value)
    requires ConstructedValue(v)
    ensures Parse(Show(v)) == Ok(v)
  {
    ShownLength(v);
    PointParses(v.start);
    ShownText(v.start);
    TextHasNoDot(ShowPoint(v.start));
    if v.end.None? {
      NoDots(Show(v));
    } else {
      var a, b := ShowPoint(v.start), ShowPoint(v.end.value);
      PointParses(v.end.value);
      ShownText(v.end.value);
      TextHasNoDot(b);
      DotsAfter(a, b);
      assert Show(v)[..|a|] == a && Show(v)[|a| + 2..] == b;
    }
  }

  /** An accepted text is exactly the printed form of its value. */
  lemma ParseThenShow(raw: string, v: Value)
    ensures Parse(raw) == Ok(v) ==> Show(v) == raw && ConstructedValue(v)
  {
    if Parse(raw) == Ok(v) {
      ParsedThenShown(raw, v);
    }
  }

  lemma ParsedThenShown(raw: string, v: Value)
    requires Parse(raw) == Ok(v)
    ensures Show(v) == raw && ConstructedValue(v)
  {
    hide ParseParts, ShowPoint, CountDots, FirstDots, LexicalForm, Constructed;
    if CountDots(raw) == 0 {
      ParsedPoint(raw, v.start);
      ConstructedIsValid(v.start);
    } else {
      DotsInRange(raw);
      var i := FirstDots(raw);
      ParsedPoint(raw[..i], v.start);
      ParsedPoint(raw[i + 2..], v.end.value);
      assert raw == raw[..i] + raw[i..i + 2] + raw[i + 2..];
    }
  }

  /** The accepted texts are exactly the printed forms, one for each value. */
  lemma AcceptedExactly(raw: string, v: Value)
    ensures Parse(raw) == Ok(v) <==> ConstructedValue(v) && Show(v) == raw
  {
    if Parse(raw) == Ok(v) {
      ParseThenShow(raw, v);
    }
    if ConstructedValue(v) {
      ShowThenParse(v);
    }
  }

  /** Different values never print alike. */
  lemma ShowIsInjective(v: Value, w: Value)
    requires ConstructedValue(v) && ConstructedValue(w) && Show(v) == Show(w)
    ensures v == w
  {
    ShowThenParse(v);
    ShowThenParse(w);
  }

  /** ParsePoint accepts the points among the values and nothing else. */
  lemma ParsePointExactly(raw: string, p: Point)
    ensures ParsePoint(raw) == Ok(p) <==> Parse(raw) == Ok(Value(p, None))
  {
    if ParseParts(raw) == Ok(p) {
      ParsedPoint(raw, p);
      ConstructedIsValid(p);
    }
  }

  lemma LegacyKeyIsAyah(raw: string, p: Point)
    requires ParseLegacyAyahKey(raw) == Ok(p)
    ensures p.kind == QuranAyah && Constructed(p) && ShowPoint(p) == "quran/" + raw
  {
    ParsedLocator(raw);
    AyahText(Decimal(p.surah), Decimal(p.ayah));
    assert "quran" + "/" == "quran/";
  }

  lemma AyahIsLegacyKey(raw: string, p: Point)
    requires p.kind == QuranAyah && Constructed(p) && ShowPoint(p) == "quran/" + raw
    ensures ParseLegacyAyahKey(raw) == Ok(p)
  {
    AyahText(Decimal(p.surah), Decimal(p.ayah));
    assert "quran" + "/" == "quran/";
    assert "quran/" + raw == "quran/" + Locator(p.surah, p.ayah);
    assert raw == ("quran/" + raw)[6..] && Locator(p.surah, p.ayah) == ("quran/" + Locator(p.surah, p.ayah))[6..];
    LocatorParses(p.surah, p.ayah);
    LocatorText(p.surah, p.ayah);
  }

  lemma LocatorText(surah: int, ayah: int)
    requires Positive(surah) && Positive(ayah)
    ensures LexicalForm(Locator(surah, ayah))
  {
    DecimalText(surah);
    DecimalText(ayah);
  }

  /** A legacy ayah key is what follows "quran/" in the anchor of an ayah. */
  lemma LegacyAyahKeyExactly(raw: string, p: Point)
    ensures ParseLegacyAyahKey(raw) == Ok(p) <==> ParsePoint("quran/" + raw) == Ok(p) && p.kind == QuranAyah
  {
    hide ParseLegacyAyahKey, ParseParts, ShowPoint, LexicalForm;
    var text := "quran/" + raw;
    if ParseLegacyAyahKey(raw) == Ok(p) {
      LegacyKeyIsAyah(raw, p);
      ConstructedIsValid(p);
      ShowThenParse(Value(p, None));
      ParsePointExactly(text, p);
    }
    if ParsePoint(text) == Ok(p) && p.kind == QuranAyah {
      ParsedPoint(text, p);
      AyahIsLegacyKey(raw, p);
    }
  }
}
