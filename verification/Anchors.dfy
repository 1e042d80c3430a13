/** The canonical anchor grammar: points, ranges, their parser and their printer (internal/anchor). */
module Anchors {
  import opened Common
  import D = Decimals

  const MAX_LENGTH := 512
  const MAX_POSTGRES_INTEGER := 0x7FFF_FFFF

  datatype Corpus = NoCorpus | Quran | Kitab | Hadith | Wiki | Entity

  datatype Kind = NoKind | QuranSurah | QuranAyah | QuranUnit | KitabWork | KitabHeading | KitabUnit

  datatype Point = Point(corpus: Corpus, kind: Kind, bookId: int, headingId: int, ordinal: int, surah: int, ayah: int)

  datatype Value = Value(start: Point, end: Option<Point>)

  datatype Result<+T> = Ok(value: T) | Invalid {
    predicate IsFailure() {
      Invalid?
    }

    function PropagateFailure<U>(): Result<U>
      requires Invalid?
    {
      Invalid
    }

    function Extract(): T
      requires Ok?
    {
      value
    }
  }

  // ---- Constructors ------------------------------------------------------------------------

  predicate Positive(n: int) {
    0 < n <= MAX_POSTGRES_INTEGER
  }

  predicate NonNegative(n: int) {
    0 <= n <= MAX_POSTGRES_INTEGER
  }

  function NewQuranSurah(surah: int): Result<Point> {
    if Positive(surah) then Ok(Point(Quran, QuranSurah, 0, 0, 0, surah, 0)) else Invalid
  }

  function NewQuranAyah(surah: int, ayah: int): Result<Point> {
    if Positive(surah) && Positive(ayah) then Ok(Point(Quran, QuranAyah, 0, 0, 0, surah, ayah)) else Invalid
  }

  function NewQuranUnit(surah: int, ayah: int, ordinal: int): Result<Point> {
    if Positive(surah) && Positive(ayah) && Positive(ordinal)
    then Ok(Point(Quran, QuranUnit, 0, 0, ordinal, surah, ayah)) else Invalid
  }

  function NewKitabWork(bookId: int): Result<Point> {
    if Positive(bookId) then Ok(Point(Kitab, KitabWork, bookId, 0, 0, 0, 0)) else Invalid
  }

  function NewKitabHeading(bookId: int, headingId: int): Result<Point> {
    if Positive(bookId) && Positive(headingId)
    then Ok(Point(Kitab, KitabHeading, bookId, headingId, 0, 0, 0)) else Invalid
  }

  /** Heading zero is the front matter and is allowed for units only. */
  function NewKitabUnit(bookId: int, headingId: int, ordinal: int): Result<Point> {
    if Positive(bookId) && NonNegative(headingId) && Positive(ordinal)
    then Ok(Point(Kitab, KitabUnit, bookId, headingId, ordinal, 0, 0)) else Invalid
  }

  /** The points a caller can hold: fields are private, so each comes out of a constructor. */
  predicate Constructed(p: Point) {
    match p.kind
    case NoKind => false
    case QuranSurah => NewQuranSurah(p.surah) == Ok(p)
    case QuranAyah => NewQuranAyah(p.surah, p.ayah) == Ok(p)
    case QuranUnit => NewQuranUnit(p.surah, p.ayah, p.ordinal) == Ok(p)
    case KitabWork => NewKitabWork(p.bookId) == Ok(p)
    case KitabHeading => NewKitabHeading(p.bookId, p.headingId) == Ok(p)
    case KitabUnit => NewKitabUnit(p.bookId, p.headingId, p.ordinal) == Ok(p)
  }

  predicate Valid(p: Point) {
    match p.kind
    case NoKind => false
    case QuranSurah => p.corpus == Quran && Positive(p.surah) && p.ayah == 0
    case QuranAyah => p.corpus == Quran && Positive(p.surah) && Positive(p.ayah)
    case QuranUnit => p.corpus == Quran && Positive(p.surah) && Positive(p.ayah) && Positive(p.ordinal)
    case KitabWork => p.corpus == Kitab && Positive(p.bookId)
    case KitabHeading => p.corpus == Kitab && Positive(p.bookId) && Positive(p.headingId)
    case KitabUnit => p.corpus == Kitab && Positive(p.bookId) && NonNegative(p.headingId) && Positive(p.ordinal)
  }

  function FromPoint(p: Point): Result<Value> {
    if Valid(p) then Ok(Value(p, None)) else Invalid
  }

  /** Two ayahs of one surah in order, or any two points of one work. */
  predicate SharedScope(start: Point, end: Point) {
    && start.corpus == end.corpus
    && match start.corpus
       case Quran =>
         start.kind == QuranAyah && end.kind == QuranAyah && start.surah == end.surah && start.ayah <= end.ayah
       case Kitab => start.bookId == end.bookId
       case _ => false
  }

  function NewRange(start: Point, end: Point): Result<Value> {
    if !Valid(start) || !Valid(end) || !SharedScope(start, end) then Invalid
    else
      var value := Value(start, Some(end));
      if |Show(value)| > MAX_LENGTH then Invalid else Ok(value)
  }

  predicate ConstructedValue(v: Value) {
    && Constructed(v.start)
    && if v.end.None? then FromPoint(v.start) == Ok(v)
       else Constructed(v.end.value) && NewRange(v.start, v.end.value) == Ok(v)
  }

  // ---- Printing ----------------------------------------------------------------------------

  function Decimal(n: int): string {
    if n < 0 then "-" + D.Print(-n) else D.Print(n)
  }

  function ShowPoint(p: Point): string {
    match p.kind
    case NoKind => ""
    case QuranSurah => "quran/" + Decimal(p.surah)
    case QuranAyah => "quran/" + Decimal(p.surah) + ":" + Decimal(p.ayah)
    case QuranUnit => "quran/" + Decimal(p.surah) + ":" + Decimal(p.ayah) + "/u/" + Decimal(p.ordinal)
    case KitabWork => "kitab/" + Decimal(p.bookId)
    case KitabHeading => "kitab/" + Decimal(p.bookId) + "/h/" + Decimal(p.headingId)
    case KitabUnit => "kitab/" + Decimal(p.bookId) + "/h/" + Decimal(p.headingId) + "/u/" + Decimal(p.ordinal)
  }

  function Show(v: Value): string {
    if v.end.Some? then ShowPoint(v.start) + ".." + ShowPoint(v.end.value) else ShowPoint(v.start)
  }

  // ---- Splitting strings -------------------------------------------------------------------

  /** The first index of a character, or the length. */
  function IndexOf(s: string, c: char): nat {
    if s == "" || s[0] == c then 0 else 1 + IndexOf(s[1..], c)
  }

  function CountChar(s: string, c: char): nat {
    if s == "" then 0 else (if s[0] == c then 1 else 0) + CountChar(s[1..], c)
  }

  lemma IndexInRange(s: string, c: char)
    ensures IndexOf(s, c) <= |s|
    ensures IndexOf(s, c) < |s| ==> s[IndexOf(s, c)] == c
    ensures forall i | 0 <= i < IndexOf(s, c) :: s[i] != c
  {}

  function Split(s: string, c: char): seq<string>
    decreases |s|
  {
    IndexInRange(s, c);
    var i := IndexOf(s, c);
    if i == |s| then [s] else [s[..i]] + Split(s[i + 1..], c)
  }

  /** Non-overlapping occurrences of "..", from the left. */
  function CountDots(s: string): nat {
    if |s| < 2 then 0 else if s[..2] == ".." then 1 + CountDots(s[2..]) else CountDots(s[1..])
  }

  /** The first index of "..". */
  function FirstDots(s: string): nat
    requires CountDots(s) > 0
  {
    if s[..2] == ".." then 0 else 1 + FirstDots(s[1..])
  }

  // ---- Parsing -----------------------------------------------------------------------------

  predicate LexicalForm(raw: string) {
    && 0 < |raw| <= MAX_LENGTH
    && forall i | 0 <= i < |raw| :: '!' <= raw[i] <= '~' && !('A' <= raw[i] <= 'Z')
  }

  function ParseDecimal(raw: string, allowZero: bool): Result<int> {
    if raw == "" then Invalid
    else if |raw| > 1 && raw[0] == '0' then Invalid
    else if !D.AllDigits(raw) then Invalid
    else
      var value := D.Value(raw);
      if value > MAX_POSTGRES_INTEGER then Invalid
      else if value == 0 && !allowZero then Invalid
      else Ok(value)
  }

  function ParseAyahLocator(raw: string): Result<(int, int)> {
    if CountChar(raw, ':') != 1 then Invalid
    else
      IndexInRange(raw, ':');
      CountedIsIn(raw, ':');
      var i := IndexOf(raw, ':');
      var surah :- ParseDecimal(raw[..i], false);
      var ayah :- ParseDecimal(raw[i + 1..], false);
      Ok((surah, ayah))
  }

  lemma CountedIsIn(s: string, c: char)
    ensures CountChar(s, c) > 0 <==> IndexOf(s, c) < |s|
  {}

  function ParseQuranPoint(parts: seq<string>): Result<Point> {
    if |parts| == 4 then
      if parts[2] != "u" then Invalid
      else
        var locator :- ParseAyahLocator(parts[1]);
        var ordinal :- ParseDecimal(parts[3], false);
        NewQuranUnit(locator.0, locator.1, ordinal)
    else if |parts| != 2 then Invalid
    else if ':' !in parts[1] then
      var surah :- ParseDecimal(parts[1], false);
      NewQuranSurah(surah)
    else
      var locator :- ParseAyahLocator(parts[1]);
      NewQuranAyah(locator.0, locator.1)
  }

  function ParseKitabPoint(parts: seq<string>): Result<Point> {
    if |parts| == 2 then
      var bookId :- ParseDecimal(parts[1], false);
      NewKitabWork(bookId)
    else if |parts| == 4 then
      if parts[2] != "h" then Invalid
      else
        var bookId :- ParseDecimal(parts[1], false);
        var headingId :- ParseDecimal(parts[3], false);
        NewKitabHeading(bookId, headingId)
    else if |parts| == 6 then
      if parts[2] != "h" || parts[4] != "u" then Invalid
      else
        var bookId :- ParseDecimal(parts[1], false);
        var headingId :- ParseDecimal(parts[3], true);
        var ordinal :- ParseDecimal(parts[5], false);
        NewKitabUnit(bookId, headingId, ordinal)
    else Invalid
  }

  /** parsePoint: reserved and unknown corpora are both refused. */
  function ParseParts(raw: string): Result<Point> {
    var parts := Split(raw, '/');
    if parts[0] == "quran" then ParseQuranPoint(parts)
    else if parts[0] == "kitab" then ParseKitabPoint(parts)
    else Invalid
  }

  function ParsePoint(raw: string): Result<Point> {
    if !LexicalForm(raw) || CountDots(raw) > 0 then Invalid else ParseParts(raw)
  }

  function Parse(raw: string): Result<Value> {
    if !LexicalForm(raw) then Invalid
    else if CountDots(raw) == 0 then
      var p :- ParseParts(raw);
      FromPoint(p)
    else if CountDots(raw) != 1 then Invalid
    else
      DotsInRange(raw);
      var i := FirstDots(raw);
      var start :- ParseParts(raw[..i]);
      var end :- ParseParts(raw[i + 2..]);
      NewRange(start, end)
  }

  lemma {:induction false} DotsInRange(s: string)
    requires CountDots(s) > 0
    ensures FirstDots(s) + 2 <= |s| && s[FirstDots(s)..FirstDots(s) + 2] == ".."
  {
    if s[..2] != ".." {
      DotsInRange(s[1..]);
      var i := FirstDots(s[1..]);
      SliceOfRest(s, i, i + 2);
    }
  }

  lemma SliceOfRest(s: string, i: nat, j: nat)
    requires i <= j < |s|
    ensures s[1..][i..j] == s[i + 1..j + 1]
  {}

  function ParseLegacyAyahKey(raw: string): Result<Point> {
    if !LexicalForm(raw) then Invalid
    else
      var locator :- ParseAyahLocator(raw);
      NewQuranAyah(locator.0, locator.1)
  }
}
