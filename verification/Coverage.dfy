/**
 The canonical coverage verifier: which runes of a source document must be covered, which the active
 registry rows cover, and the single scan that compares the two on bitmaps.
 */
module Coverage {
  import opened Common
  import opened Bitmaps

  const ROLE_BOOK_PAGE := "book_page"
  const UNDERSCORE: Rune := 0x5F

  /** A Unicode code point. */
  type Rune = nat

  predicate IsSpace(r: Rune) {
    || 0x09 <= r <= 0x0D || r == 0x20 || r == 0x85 || r == 0xA0
    || r == 0x1680 || 0x2000 <= r <= 0x200A || r == 0x2028 || r == 0x2029
    || r == 0x202F || r == 0x205F || r == 0x3000
  }

  datatype Block = Block(anchorId: int, start: int, end: int)

  datatype Footnote = Footnote(marker: seq<Rune>, start: int)

  /** The columns a document key is made of; `hash` stands for the text it was computed from. */
  datatype DocumentKey = DocumentKey(book: int, heading: int, page: int, role: string, language: string, hash: string)

  datatype Document = Document(key: DocumentKey, text: seq<Rune>, blocks: seq<Block>, footnotes: seq<Footnote>)

  /** The columns a span key is made of; the hash of the text is taken as the text itself. */
  datatype Span = Span(document: DocumentKey, kind: string, start: int, end: int, text: string)

  /** An active registry row; the last three columns may be NULL. */
  datatype Row = Row(heading: int, page: int, kind: string, text: string, language: string, role: string,
                     hash: Option<string>, start: Option<int>, end: Option<int>)

  function KeyOf(book: int, heading: int, page: int, role: string, language: string, hash: string): DocumentKey {
    DocumentKey(book, if role == ROLE_BOOK_PAGE then 0 else heading, page, role, language, hash)
  }

  /** The footnotes point into the text, as slicing it demands. */
  predicate WellPlaced(d: Document) {
    forall n | n in d.footnotes :: 0 < |n.marker| <= n.start ==> n.start <= |d.text|
  }

  // ---- The required runes --------------------------------------------------------------------

  predicate OccursAt(text: seq<Rune>, marker: seq<Rune>, s: int) {
    0 <= s && s + |marker| <= |text| && text[s..s + |marker|] == marker
  }

  /** The last occurrence of a footnote's marker that ends at or before the footnote starts. */
  ghost predicate LastOccurrence(text: seq<Rune>, n: Footnote, s: int) {
    && |n.marker| > 0
    && s + |n.marker| <= n.start && OccursAt(text, n.marker, s)
    && forall later | s < later && later + |n.marker| <= n.start :: !OccursAt(text, n.marker, later)
  }

  ghost predicate InMarker(text: seq<Rune>, n: Footnote, i: nat) {
    exists s :: LastOccurrence(text, n, s) && s <= i < s + |n.marker|
  }

  predicate InAnchor(b: Block, i: nat) {
    b.anchorId > 0 && b.start <= i < b.end
  }

  predicate Visible(text: seq<Rune>, i: nat)
    requires i < |text|
  {
    !IsSpace(text[i]) && text[i] != UNDERSCORE
  }

  /** A rune must be covered unless it is blank, an underscore, in a heading anchor or a footnote marker. */
  ghost predicate Required(d: Document, i: nat) {
    && i < |d.text| && Visible(d.text, i)
    && (forall b | b in d.blocks :: !InAnchor(b, i))
    && (forall n | n in d.footnotes :: !InMarker(d.text, n, i))
  }

  ghost function RequiredRunes(d: Document): set<nat> {
    set i: nat | i < |d.text| && Required(d, i)
  }

  /** The order of blocks and of footnotes does not matter. */
  lemma RequiredRunesIgnoreOrder(d: Document, e: Document)
    requires d.text == e.text
    requires multiset(d.blocks) == multiset(e.blocks) && multiset(d.footnotes) == multiset(e.footnotes)
    ensures RequiredRunes(d) == RequiredRunes(e)
  {
    assert forall b :: b in d.blocks <==> b in multiset(d.blocks);
    assert forall b :: b in e.blocks <==> b in multiset(e.blocks);
    assert forall n :: n in d.footnotes <==> n in multiset(d.footnotes);
    assert forall n :: n in e.footnotes <==> n in multiset(e.footnotes);
  }

  // ---- One document on bitmaps ---------------------------------------------------------------

  class DocumentCoverage {
    const runeCount: nat
    const required: array<bv64>
    const actual: array<bv64>

    constructor (runeCount: nat)
      ensures this.runeCount == runeCount
      ensures required.Length == actual.Length == WordCount(runeCount)
      ensures required != actual && fresh(required) && fresh(actual)
      ensures Members(required[..]) == {} && Members(actual[..]) == {}
    {
      this.runeCount := runeCount;
      this.required := new bv64[WordCount(runeCount)](_ => 0);
      this.actual := new bv64[WordCount(runeCount)](_ => 0);
      new;
      EmptyMembers(required[..]);
      EmptyMembers(actual[..]);
    }
  }

  lemma EmptyMembers(words: seq<bv64>)
    requires forall k | 0 <= k < |words| :: words[k] == 0
    ensures Members(words) == {}
  {
    hide Bit;
    forall i: nat | i < WORD_BITS * |words|
      ensures !BitAt(words, i)
    {
      ZeroWord(i % WORD_BITS);
    }
  }

  lemma EnoughWords(runeCount: nat)
    ensures runeCount <= WORD_BITS * WordCount(runeCount) < runeCount + WORD_BITS
  {}

  method MarkVisible(bitmap: array<bv64>, text: seq<Rune>)
    requires |text| <= WORD_BITS * bitmap.Length && Members(bitmap[..]) == {}
    modifies bitmap
    ensures Members(bitmap[..]) == set i: nat | i < |text| && Visible(text, i)
  {
    hide BitAt;
    for offset := 0 to |text|
      invariant Members(bitmap[..]) == set i: nat | i < offset && Visible(text, i)
    {
      if !IsSpace(text[offset]) && text[offset] != UNDERSCORE {
        ghost var before := bitmap[..];
        SetBitmapBit(bitmap, offset);
        MembersWithBit(before, bitmap[..], offset);
      }
    }
  }

  /** The members outside every heading anchor of the blocks. */
  function OutsideAnchors(members: set<nat>, blocks: seq<Block>): set<nat> {
    set i | i in members && forall b | b in blocks :: !InAnchor(b, i)
  }

  lemma NoAnchors(members: set<nat>)
    ensures OutsideAnchors(members, []) == members
  {}

  lemma OutsideOneMore(members: set<nat>, blocks: seq<Block>, block: Block, i: nat)
    ensures i in OutsideAnchors(members, blocks + [block]) <==> i in OutsideAnchors(members, blocks) && !InAnchor(block, i)
  {
    hide InAnchor;
  }

  lemma OneBlockCleared(members: set<nat>, blocks: seq<Block>, block: Block, limit: nat, cleared: set<nat>)
    requires forall i | i in members :: i < limit
    requires cleared == OutsideAnchors(members, blocks)
                        - if block.anchorId > 0 then Interval(block.start, Min(block.end, limit)) else {}
    ensures cleared == OutsideAnchors(members, blocks + [block])
  {
    forall i: nat ensures i in cleared <==> i in OutsideAnchors(members, blocks + [block]) {
      OutsideOneMore(members, blocks, block, i);
    }
  }

  method ClearAnchors(bitmap: array<bv64>, blocks: seq<Block>, limit: nat)
    requires limit <= WORD_BITS * bitmap.Length && forall i | i in Members(bitmap[..]) :: i < limit
    modifies bitmap
    ensures Members(bitmap[..]) == OutsideAnchors(old(Members(bitmap[..])), blocks)
  {
    hide Members, OutsideAnchors;
    NoAnchors(Members(bitmap[..]));
    for index := 0 to |blocks|
      invariant Members(bitmap[..]) == OutsideAnchors(old(Members(bitmap[..])), blocks[..index])
    {
      var block := blocks[index];
      assert blocks[..index + 1] == blocks[..index] + [block];
      if block.anchorId > 0 {
        ClearRange(bitmap, block.start, block.end, limit);
      }
      OneBlockCleared(old(Members(bitmap[..])), blocks[..index], block, limit, Members(bitmap[..]));
    }
    assert blocks[..|blocks|] == blocks;
  }

  /** Clears the last occurrence of a footnote's marker before the footnote, if there is one. */
  method ClearMarker(bitmap: array<bv64>, text: seq<Rune>, note: Footnote)
    requires |text| <= WORD_BITS * bitmap.Length
    requires 0 < |note.marker| <= note.start ==> note.start <= |text|
    modifies bitmap
    ensures Members(bitmap[..]) == set i | i in old(Members(bitmap[..])) && !InMarker(text, note, i)
  {
    hide BitAt;
    var length := |note.marker|;
    if length == 0 || note.start < length {
      return;
    }
    var start := note.start - length;
    while start >= 0
      invariant -1 <= start <= note.start - length
      invariant forall later | start < later && later + length <= note.start :: !OccursAt(text, note.marker, later)
      invariant bitmap[..] == old(bitmap[..])
    {
      if text[start..start + length] != note.marker {
        start := start - 1;
        continue;
      }
      ClearRange(bitmap, start, start + length, |text|);
      assert LastOccurrence(text, note, start);
      assert forall s | LastOccurrence(text, note, s) :: s == start;
      return;
    }
    assert forall s :: !LastOccurrence(text, note, s);
  }

  method ClearMarkers(bitmap: array<bv64>, text: seq<Rune>, notes: seq<Footnote>)
    requires |text| <= WORD_BITS * bitmap.Length
    requires forall n | n in notes :: 0 < |n.marker| <= n.start ==> n.start <= |text|
    modifies bitmap
    ensures Members(bitmap[..]) ==
            set i | i in old(Members(bitmap[..])) && forall n | n in notes :: !InMarker(text, n, i)
  {
    hide BitAt, InMarker;
    for index := 0 to |notes|
      invariant Members(bitmap[..]) ==
                set i | i in old(Members(bitmap[..])) && forall n | n in notes[..index] :: !InMarker(text, n, i)
    {
      assert notes[..index + 1] == notes[..index] + [notes[index]];
      ClearMarker(bitmap, text, notes[index]);
    }
    assert notes[..|notes|] == notes;
  }

  /** markRequiredDocumentRunes: the bitmap holds exactly the required runes, nothing is covered yet. */
  method MarkRequired(d: Document) returns (c: DocumentCoverage)
    requires WellPlaced(d)
    ensures fresh(c) && fresh(c.required) && fresh(c.actual) && c.required != c.actual
    ensures c.runeCount == |d.text| && c.required.Length == c.actual.Length == WordCount(|d.text|)
    ensures Members(c.required[..]) == RequiredRunes(d)
    ensures Members(c.actual[..]) == {}
  {
    hide BitAt, InMarker;
    c := new DocumentCoverage(|d.text|);
    EnoughWords(|d.text|);
    MarkVisible(c.required, d.text);
    ClearAnchors(c.required, d.blocks, |d.text|);
    ClearMarkers(c.required, d.text, d.footnotes);
  }
}
