/** The quote search spelled out: which quotes are tried, in which order, and what settles one. */
module QuoteFields {
  import opened Common
  import opened ParityQuotes

  // ---- What settles one quote ------------------------------------------------------------------

  predicate ShownAt(pageText: string, quote: string, i: nat) {
    i + |quote| <= |pageText| && i + |quote| <= 4000 && pageText[i..i + |quote|] == quote
  }

  /** The quote stands in the first 4000 runes of the page. */
  ghost predicate OnPage(pageText: string, quote: string) {
    exists i: nat :: ShownAt(pageText, quote, i)
  }

  lemma VisibleExactly(c: Candidate, quote: string)
    ensures VisibleOnPage(c, quote) <==> OnPage(c.pageText, quote)
  {
    var text := Prefix(c.pageText, PAGE_SOURCE_RUNES);
    forall i: nat ensures ShownAt(c.pageText, quote, i) <==> i <= |text| && StandsAt(text, quote, i) {
      if i + |quote| <= |text| {
        assert text[i..i + |quote|] == c.pageText[i..i + |quote|];
      }
    }
  }

  /** The page ranked first, when it is another one that has exactly this source and shows the quote. */
  ghost predicate ShownElsewhere(repo: Repo, c: Candidate, quote: string, hit: Hit) {
    && (hit.heading, hit.page) != (c.heading, c.page)
    && repo.sources(c.book, hit.heading, hit.page).Some?
    && var sources := repo.sources(c.book, hit.heading, hit.page).value;
       |sources| == 1 && (sources[0].heading, sources[0].page) == (hit.heading, hit.page) && OnPage(sources[0].text, quote)
  }

  /**
   A quote is taken exactly when the locator finds it at the candidate and the search ranks the candidate's
   page first, or ranks another one first that shows the quote and at which the locator finds it too.
   */
  lemma TakenExactly(repo: Repo, c: Candidate, quote: string, d: Candidate, locator: Locator)
    ensures Try(repo, c, quote) == Quote(quote, d, locator) <==>
            && repo.resolve(c.book, c.heading, c.page, quote).Some? && repo.resolve(c.book, c.heading, c.page, quote).value.found
            && repo.search(c.book, quote).Some? && repo.search(c.book, quote).value != []
            && var hit := repo.search(c.book, quote).value[0];
               if hit == Hit(c.heading, c.page)
               then d == c && locator == repo.resolve(c.book, c.heading, c.page, quote).value
               else
                 && ShownElsewhere(repo, c, quote, hit)
                 && d == Candidate(c.book, hit.heading, hit.page, "", repo.sources(c.book, hit.heading, hit.page).value[0].text)
                 && repo.resolve(c.book, hit.heading, hit.page, quote) == Some(locator) && locator.found
    ensures Try(repo, c, quote).Quote? ==> Try(repo, c, quote).quote == quote
  {
    hide VisibleOnPage, OnPage;
    if repo.search(c.book, quote).Some? && repo.search(c.book, quote).value != [] {
      var hit := repo.search(c.book, quote).value[0];
      if repo.sources(c.book, hit.heading, hit.page).Some? && |repo.sources(c.book, hit.heading, hit.page).value| == 1 {
        VisibleExactly(Candidate(c.book, hit.heading, hit.page, "", repo.sources(c.book, hit.heading, hit.page).value[0].text), quote);
      }
    }
  }

  /** The search stops with an error exactly when a request it needs fails. */
  lemma FailsExactly(repo: Repo, c: Candidate, quote: string)
    ensures Try(repo, c, quote) == Failure <==>
            var located := repo.resolve(c.book, c.heading, c.page, quote);
            || located.None?
            || (located.value.found
                && (|| repo.search(c.book, quote).None?
                    || (repo.search(c.book, quote).value != []
                        && var hit := repo.search(c.book, quote).value[0];
                           && hit != Hit(c.heading, c.page)
                           && (|| repo.sources(c.book, hit.heading, hit.page).None?
                               || (ShownElsewhere(repo, c, quote, hit)
                                   && repo.resolve(c.book, hit.heading, hit.page, quote).None?)))))
  {
    hide VisibleOnPage, OnPage;
    if repo.search(c.book, quote).Some? && repo.search(c.book, quote).value != [] {
      var hit := repo.search(c.book, quote).value[0];
      if repo.sources(c.book, hit.heading, hit.page).Some? && |repo.sources(c.book, hit.heading, hit.page).value| == 1 {
        VisibleExactly(Candidate(c.book, hit.heading, hit.page, "", repo.sources(c.book, hit.heading, hit.page).value[0].text), quote);
      }
    }
  }

  // ---- Which quotes are tried ------------------------------------------------------------------

  /** Trimming cuts white space off both ends and nothing else. */
  lemma {:induction false} TrimExactly(isSpace: char -> bool, s: string) returns (a: nat, b: nat)
    ensures a <= b <= |s| && Trim(isSpace, s) == s[a..b]
    ensures forall i :: 0 <= i < a || b <= i < |s| ==> isSpace(s[i])
    ensures a < b ==> !isSpace(s[a]) && !isSpace(s[b - 1])
  {
    if s == "" {
      a, b := 0, 0;
    } else if isSpace(s[0]) {
      a, b := TrimExactly(isSpace, s[1..]);
      assert s[1..][a..b] == s[a + 1..b + 1];
      a, b := a + 1, b + 1;
      assert forall i :: 1 <= i < |s| ==> s[i] == s[1..][i - 1];
    } else if isSpace(s[|s| - 1]) {
      a, b := TrimExactly(isSpace, s[..|s| - 1]);
      assert s[..|s| - 1][a..b] == s[a..b];
    } else {
      a, b := 0, |s|;
      assert s[0..|s|] == s;
    }
  }

  /** The trimmed texts of the windows of one width from `start` on, until one reaches the end. */
  function Pieces(isSpace: char -> bool, runes: string, width: nat, start: nat): seq<string>
    requires width > 0
    decreases |runes| - start
  {
    if start >= |runes| then []
    else if start + width >= |runes| then [Trim(isSpace, runes[start..])]
    else [Trim(isSpace, runes[start..start + width])] + Pieces(isSpace, runes, width, start + Max(1, width / 2))
  }

  /** Where the j-th piece begins: each half a width after the one before. */
  function From(width: nat, start: nat, j: nat): nat
    decreases j
  {
    if j == 0 then start else From(width, start + Max(1, width / 2), j - 1)
  }

  /** All pieces but the last have the full width, and the last one ends with the text. */
  lemma {:induction false} PiecesExactly(isSpace: char -> bool, runes: string, width: nat, start: nat, j: nat)
    requires width > 0 && j < |Pieces(isSpace, runes, width, start)|
    ensures var from := From(width, start, j);
            && from < |runes|
            && Pieces(isSpace, runes, width, start)[j] == Trim(isSpace, runes[from..Min(from + width, |runes|)])
            && (j + 1 == |Pieces(isSpace, runes, width, start)| <==> from + width >= |runes|)
    decreases j
  {
    hide Trim;
    var next := start + Max(1, width / 2);
    if start + width >= |runes| {
      assert runes[start..] == runes[start..|runes|];
    } else if j > 0 {
      PiecesExactly(isSpace, runes, width, next, j - 1);
    } else {
      assert Pieces(isSpace, runes, width, next) != [];
    }
  }

  /** The first `n` of the quotes that have 4 to 256 runes and stand on the page. */
  function FirstGood(c: Candidate, quotes: seq<string>, n: nat): seq<string> {
    if quotes == [] || n == 0 then []
    else if 4 <= |quotes[0]| <= 256 && VisibleOnPage(c, quotes[0]) then [quotes[0]] + FirstGood(c, quotes[1..], n - 1)
    else FirstGood(c, quotes[1..], n)
  }

  /** One width contributes its first eight good pieces. */
  lemma {:induction false} WindowExactly(isSpace: char -> bool, c: Candidate, runes: string, width: nat, start: nat, accepted: nat)
    requires width > 0
    ensures WindowQuotes(isSpace, c, runes, width, start, accepted)
         == FirstGood(c, Pieces(isSpace, runes, width, start), if accepted < 8 then 8 - accepted else 0)
    decreases |runes| - start
  {
    hide VisibleOnPage, Trim;
    if start < |runes| && accepted < 8 {
      var quote := Trim(isSpace, runes[start..Min(start + width, |runes|)]);
      if start + width < |runes| {
        var rest := Pieces(isSpace, runes, width, start + Max(1, width / 2));
        assert ([quote] + rest)[1..] == rest;
        WindowExactly(isSpace, c, runes, width, start + Max(1, width / 2), if Acceptable(c, quote) then accepted + 1 else accepted);
      } else {
        assert runes[start..] == runes[start..|runes|];
        assert [quote][1..] == [];
      }
    }
  }

  /** The widths: the length of the text but at most 256, then half as much each time, down to four. */
  ghost predicate Halving(widths: seq<nat>, length: nat) {
    && (widths == [] <==> length < 4)
    && (widths != [] ==> widths[0] == Min(256, length) && widths[|widths| - 1] / 2 < 4)
    && (forall i :: 0 <= i < |widths| ==> widths[i] >= 4)
    && (forall i :: 0 < i < |widths| ==> widths[i] == widths[i - 1] / 2)
  }

  function GoodOf(isSpace: char -> bool, c: Candidate, runes: string, widths: seq<nat>): seq<string>
    requires forall i :: 0 <= i < |widths| ==> widths[i] >= 4
  {
    if widths == [] then []
    else FirstGood(c, Pieces(isSpace, runes, widths[0], 0), 8) + GoodOf(isSpace, c, runes, widths[1..])
  }

  lemma {:induction false} WidthsExactly(isSpace: char -> bool, c: Candidate, runes: string, width: nat) returns (widths: seq<nat>)
    ensures widths == [] <==> width < 4
    ensures widths != [] ==> widths[0] == width && widths[|widths| - 1] / 2 < 4
    ensures forall i :: 0 <= i < |widths| ==> widths[i] >= 4
    ensures forall i :: 0 < i < |widths| ==> widths[i] == widths[i - 1] / 2
    ensures AllQuotes(isSpace, c, runes, width) == GoodOf(isSpace, c, runes, widths)
    decreases width
  {
    hide FirstGood, Pieces, WindowQuotes;
    if width < 4 {
      widths := [];
    } else {
      var rest := WidthsExactly(isSpace, c, runes, width / 2);
      widths := [width] + rest;
      assert widths[1..] == rest;
      WindowExactly(isSpace, c, runes, width, 0, 0);
    }
  }

  /**
   The quotes tried, in order: for each width in turn, the first eight of its trimmed windows, half a width
   apart over the first 4000 runes of the unit, that have 4 to 256 runes and stand on the page.
   */
  lemma TriedExactly(isSpace: char -> bool, c: Candidate) returns (runes: string, widths: seq<nat>)
    ensures |runes| == Min(4000, |c.unitText|) && runes <= c.unitText && Halving(widths, |runes|)
    ensures QuotesTried(isSpace, c) == GoodOf(isSpace, c, runes, widths)
  {
    runes := Prefix(c.unitText, UNIT_SOURCE_RUNES);
    widths := WidthsExactly(isSpace, c, runes, Min(256, |runes|));
  }
}
