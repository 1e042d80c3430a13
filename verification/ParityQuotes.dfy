/**
 The search for a proof quote: windows of halving width slide over the unit text, and the first quote
 that the unit locator and the page search both bring back is taken.
 */
module ParityQuotes {
  import opened Common

  const QUOTE_RUNES := 256
  const PAGE_SOURCE_RUNES := 4000
  const UNIT_SOURCE_RUNES := 4000
  const MINIMUM_QUOTE_RUNES := 4
  const WINDOW_DIVISOR := 2
  const QUOTES_PER_WINDOW := 8

  datatype Candidate = Candidate(book: int, heading: int, page: int, unitText: string, pageText: string)

  datatype Locator = Locator(found: bool, unit: string, anchor: string)

  datatype Hit = Hit(heading: int, page: int)

  datatype Source = Source(heading: int, page: int, text: string)

  /** What the repository answers; `None` is an error. */
  datatype Repo = Repo(
    resolve: (int, int, int, string) -> Option<Locator>,
    search: (int, string) -> Option<seq<Hit>>,
    sources: (int, int, int) -> Option<seq<Source>>,
    isSpace: char -> bool)

  datatype Answer = Failure | Nothing | Quote(quote: string, candidate: Candidate, locator: Locator)

  function Prefix(text: string, n: nat): string {
    if |text| > n then text[..n] else text
  }

  predicate StandsAt(text: string, quote: string, i: nat) {
    i + |quote| <= |text| && text[i..i + |quote|] == quote
  }

  predicate Contains(text: string, quote: string) {
    exists i: nat | i <= |text| :: StandsAt(text, quote, i)
  }

  /** strings.TrimSpace. */
  function Trim(isSpace: char -> bool, s: string): (r: string)
    ensures |r| <= |s|
  {
    if s == "" then ""
    else if isSpace(s[0]) then Trim(isSpace, s[1..])
    else if isSpace(s[|s| - 1]) then Trim(isSpace, s[..|s| - 1])
    else s
  }

  lemma ContainsWithin(text: string, lo: nat, hi: nat, quote: string)
    requires lo <= hi <= |text| && Contains(text[lo..hi], quote)
    ensures Contains(text, quote)
  {
    var i: nat :| i <= |text[lo..hi]| && StandsAt(text[lo..hi], quote, i);
    var part := text[lo..hi];
    forall k | 0 <= k < |quote| ensures text[lo + i + k] == quote[k] {
      assert part[i..i + |quote|][k] == part[i + k];
    }
    assert text[lo + i..lo + i + |quote|] == quote;
    assert StandsAt(text, quote, lo + i);
  }

  lemma {:induction false} TrimStands(isSpace: char -> bool, s: string)
    ensures Contains(s, Trim(isSpace, s))
  {
    if s == "" {
      assert StandsAt(s, "", 0);
    } else if isSpace(s[0]) {
      TrimStands(isSpace, s[1..]);
      assert s[1..|s|] == s[1..];
      ContainsWithin(s, 1, |s|, Trim(isSpace, s));
    } else if isSpace(s[|s| - 1]) {
      TrimStands(isSpace, s[..|s| - 1]);
      ContainsWithin(s, 0, |s| - 1, Trim(isSpace, s));
    } else {
      assert StandsAt(s, s, 0);
    }
  }

  predicate VisibleOnPage(c: Candidate, quote: string) {
    Contains(Prefix(c.pageText, PAGE_SOURCE_RUNES), quote)
  }

  predicate Acceptable(c: Candidate, quote: string) {
    MINIMUM_QUOTE_RUNES <= |quote| <= QUOTE_RUNES && VisibleOnPage(c, quote)
  }

  // ---- The quotes that are tried, in order ------------------------------------------------

  /** One window: quotes from `start` on, until the end of the text or eight accepted ones. */
  function WindowQuotes(isSpace: char -> bool, c: Candidate, runes: string, window: nat, start: nat, accepted: nat): (r: seq<string>)
    requires window > 0
    decreases |runes| - start
  {
    if start >= |runes| || accepted >= QUOTES_PER_WINDOW then []
    else
      var end := Min(start + window, |runes|);
      var quote := Trim(isSpace, runes[start..end]);
      var ok := Acceptable(c, quote);
      var rest := if end == |runes| then []
                  else WindowQuotes(isSpace, c, runes, window, start + Max(1, window / WINDOW_DIVISOR), if ok then accepted + 1 else accepted);
      if ok then [quote] + rest else rest
  }

  /** All windows, each half as wide as the one before, down to four runes. */
  function AllQuotes(isSpace: char -> bool, c: Candidate, runes: string, window: nat): seq<string>
    decreases window
  {
    if window < MINIMUM_QUOTE_RUNES then []
    else
      WindowQuotes(isSpace, c, runes, window, 0, 0)
      + if window == MINIMUM_QUOTE_RUNES then [] else AllQuotes(isSpace, c, runes, window / 2)
  }

  function Windows(window: nat): nat {
    if window < MINIMUM_QUOTE_RUNES then 0
    else if window == MINIMUM_QUOTE_RUNES then 1
    else 1 + Windows(window / 2)
  }

  function QuotesTried(isSpace: char -> bool, c: Candidate): seq<string> {
    var runes := Prefix(c.unitText, UNIT_SOURCE_RUNES);
    AllQuotes(isSpace, c, runes, Min(QUOTE_RUNES, |runes|))
  }

  lemma {:induction false} WindowQuotesAreAcceptable(isSpace: char -> bool, c: Candidate, runes: string, window: nat, start: nat, accepted: nat)
    requires window > 0
    ensures |WindowQuotes(isSpace, c, runes, window, start, accepted)| <= Max(0, QUOTES_PER_WINDOW - accepted)
    ensures forall q :: q in WindowQuotes(isSpace, c, runes, window, start, accepted) ==> Acceptable(c, q) && Contains(runes, q)
    decreases |runes| - start
  {
    if start < |runes| && accepted < QUOTES_PER_WINDOW {
      var end := Min(start + window, |runes|);
      var quote := Trim(isSpace, runes[start..end]);
      TrimStands(isSpace, runes[start..end]);
      ContainsWithin(runes, start, end, quote);
      if end != |runes| {
        WindowQuotesAreAcceptable(isSpace, c, runes, window, start + Max(1, window / WINDOW_DIVISOR),
                                  if Acceptable(c, quote) then accepted + 1 else accepted);
      }
    }
  }

  lemma {:induction false} AllQuotesAreAcceptable(isSpace: char -> bool, c: Candidate, runes: string, window: nat)
    ensures |AllQuotes(isSpace, c, runes, window)| <= QUOTES_PER_WINDOW * Windows(window)
    ensures forall q :: q in AllQuotes(isSpace, c, runes, window) ==> Acceptable(c, q) && Contains(runes, q)
    decreases window
  {
    if window >= MINIMUM_QUOTE_RUNES {
      WindowQuotesAreAcceptable(isSpace, c, runes, window, 0, 0);
      AllQuotesAreAcceptable(isSpace, c, runes, window / 2);
    }
  }

  lemma AtMostSevenWindows(window: nat)
    requires window <= QUOTE_RUNES
    ensures Windows(window) <= 7
  {
    assert Windows(window) <= 1 + Windows(window / 2);
    assert Windows(window / 2) <= 1 + Windows(window / 4);
    assert Windows(window / 4) <= 1 + Windows(window / 8);
    assert Windows(window / 8) <= 1 + Windows(window / 16);
    assert Windows(window / 16) <= 1 + Windows(window / 32);
    assert Windows(window / 32) <= 1 + Windows(window / 64);
    assert window / 64 <= 4;
  }

  /** At most 56 quotes are tried; each has 4 to 256 runes and stands in the first 4000 runes of the unit and of its page. */
  lemma QuotesTriedAreFew(isSpace: char -> bool, c: Candidate)
    ensures |QuotesTried(isSpace, c)| <= 56
    ensures forall q :: q in QuotesTried(isSpace, c) ==>
              && MINIMUM_QUOTE_RUNES <= |q| <= QUOTE_RUNES
              && Contains(Prefix(c.unitText, UNIT_SOURCE_RUNES), q)
              && Contains(Prefix(c.pageText, PAGE_SOURCE_RUNES), q)
  {
    var runes := Prefix(c.unitText, UNIT_SOURCE_RUNES);
    AllQuotesAreAcceptable(isSpace, c, runes, Min(QUOTE_RUNES, |runes|));
    AtMostSevenWindows(Min(QUOTE_RUNES, |runes|));
  }

  // ---- Trying one quote -------------------------------------------------------------------

  /** The page the search ranks first, if it shows the quote and the locator finds the quote there. */
  function TopHit(repo: Repo, book: int, hits: seq<Hit>, quote: string): Answer {
    if hits == [] then Nothing
    else
      var hit := hits[0];
      match repo.sources(book, hit.heading, hit.page)
      case None => Failure
      case Some(sources) =>
        if |sources| != 1 || sources[0].heading != hit.heading || sources[0].page != hit.page then Nothing
        else
          var resolved := Candidate(book, hit.heading, hit.page, "", sources[0].text);
          if !VisibleOnPage(resolved, quote) then Nothing
          else match repo.resolve(book, hit.heading, hit.page, quote)
               case None => Failure
               case Some(locator) => if locator.found then Quote(quote, resolved, locator) else Nothing
  }

  function Try(repo: Repo, c: Candidate, quote: string): Answer {
    match repo.resolve(c.book, c.heading, c.page, quote)
    case None => Failure
    case Some(locator) =>
      if !locator.found then Nothing
      else match repo.search(c.book, quote)
           case None => Failure
           case Some(hits) =>
             if hits != [] && hits[0].heading == c.heading && hits[0].page == c.page
             then Quote(quote, c, locator)
             else TopHit(repo, c.book, hits, quote)
  }

  /** The first of the quotes that settles the search, one way or the other. */
  function FirstAnswer(repo: Repo, c: Candidate, quotes: seq<string>): Answer {
    if quotes == [] then Nothing
    else if Try(repo, c, quotes[0]) != Nothing then Try(repo, c, quotes[0])
    else FirstAnswer(repo, c, quotes[1..])
  }

  lemma SkipQuote(repo: Repo, c: Candidate, quote: string, rest: seq<string>)
    ensures FirstAnswer(repo, c, [quote] + rest) ==
            if Try(repo, c, quote) != Nothing then Try(repo, c, quote) else FirstAnswer(repo, c, rest)
  {
    assert ([quote] + rest)[1..] == rest;
  }

  lemma {:induction false} AnswerIsTried(repo: Repo, c: Candidate, quotes: seq<string>)
    ensures var answer := FirstAnswer(repo, c, quotes);
            && (answer == Nothing <==> forall q :: q in quotes ==> Try(repo, c, q) == Nothing)
            && (answer != Nothing ==> exists q :: q in quotes && answer == Try(repo, c, q))
  {
    if quotes != [] {
      AnswerIsTried(repo, c, quotes[1..]);
      assert quotes == [quotes[0]] + quotes[1..];
      assert quotes[0] in quotes;
    }
  }

  /**
   A quote that is returned is a proof: it has 4 to 256 runes, occurs in the first 4000 runes of the
   unit and of the returned candidate's page, the locator finds it there, and that page is the one the
   page search ranks first.
   */
  lemma QuoteIsProof(repo: Repo, c: Candidate)
    ensures var answer := FirstAnswer(repo, c, QuotesTried(repo.isSpace, c));
            answer.Quote? ==>
              && MINIMUM_QUOTE_RUNES <= |answer.quote| <= QUOTE_RUNES
              && Contains(Prefix(c.unitText, UNIT_SOURCE_RUNES), answer.quote)
              && Contains(Prefix(answer.candidate.pageText, PAGE_SOURCE_RUNES), answer.quote)
              && answer.candidate.book == c.book && answer.locator.found
              && repo.resolve(c.book, answer.candidate.heading, answer.candidate.page, answer.quote) == Some(answer.locator)
              && repo.search(c.book, answer.quote).Some? && repo.search(c.book, answer.quote).value != []
              && repo.search(c.book, answer.quote).value[0] == Hit(answer.candidate.heading, answer.candidate.page)
  {
    hide QuotesTried, Contains;
    var quotes := QuotesTried(repo.isSpace, c);
    QuotesTriedAreFew(repo.isSpace, c);
    AnswerIsTried(repo, c, quotes);
    var answer := FirstAnswer(repo, c, quotes);
    if answer.Quote? {
      var q :| q in quotes && answer == Try(repo, c, q);
    }
  }

  // ---- The search -------------------------------------------------------------------------

  method TryQuote(repo: Repo, c: Candidate, quote: string) returns (answer: Answer, locatorCalls: nat)
    ensures answer == Try(repo, c, quote) && locatorCalls <= 2
  {
    locatorCalls := 1;
    var located := repo.resolve(c.book, c.heading, c.page, quote);
    if located.None? {
      return Failure, locatorCalls;
    }
    if !located.value.found {
      return Nothing, locatorCalls;
    }
    var hits := repo.search(c.book, quote);
    if hits.None? {
      return Failure, locatorCalls;
    }
    if |hits.value| > 0 && hits.value[0].heading == c.heading && hits.value[0].page == c.page {
      return Quote(quote, c, located.value), locatorCalls;
    }
    if |hits.value| == 0 {
      return Nothing, locatorCalls;
    }
    var hit := hits.value[0];
    var sources := repo.sources(c.book, hit.heading, hit.page);
    if sources.None? {
      return Failure, locatorCalls;
    }
    if |sources.value| != 1 || sources.value[0].heading != hit.heading || sources.value[0].page != hit.page {
      return Nothing, locatorCalls;
    }
    var resolved := Candidate(c.book, hit.heading, hit.page, "", sources.value[0].text);
    if !VisibleOnPage(resolved, quote) {
      return Nothing, locatorCalls;
    }
    locatorCalls := 2;
    var again := repo.resolve(c.book, hit.heading, hit.page, quote);
    if again.None? {
      return Failure, locatorCalls;
    }
    answer := if again.value.found then Quote(quote, resolved, again.value) else Nothing;
  }

  /** catalogParityCandidateQuote: at most 7 windows and 112 locator calls, and the first answer there is. */
  method CandidateQuote(repo: Repo, c: Candidate) returns (answer: Answer, windows: nat, locatorCalls: nat)
    ensures answer == FirstAnswer(repo, c, QuotesTried(repo.isSpace, c))
    ensures windows <= 7 && locatorCalls <= 112
  {
    hide Try, Acceptable, FirstAnswer, WindowQuotes;
    var runes := Prefix(c.unitText, UNIT_SOURCE_RUNES);
    var first := Min(QUOTE_RUNES, |runes|);
    AtMostSevenWindows(first);
    var window := first;
    windows, locatorCalls := 0, 0;
    while window >= MINIMUM_QUOTE_RUNES
      invariant 0 <= window <= first
      invariant windows + Windows(window) == Windows(first) && locatorCalls <= 16 * windows
      invariant FirstAnswer(repo, c, AllQuotes(repo.isSpace, c, runes, window)) == FirstAnswer(repo, c, QuotesTried(repo.isSpace, c))
      decreases window
    {
      ghost var tail := if window == MINIMUM_QUOTE_RUNES then [] else AllQuotes(repo.isSpace, c, runes, window / 2);
      var calls: nat;
      answer, calls := SearchWindow(repo, c, runes, window, tail);
      locatorCalls := locatorCalls + calls;
      windows := windows + 1;
      if answer != Nothing {
        return;
      }
      if window == MINIMUM_QUOTE_RUNES {
        NoQuotes(repo, c);
        return;
      }
      window := window / 2;
    }
    NoQuotes(repo, c);
    answer := Nothing;
  }

  lemma NoQuotes(repo: Repo, c: Candidate)
    ensures FirstAnswer(repo, c, []) == Nothing
  {}

  method SearchWindow(repo: Repo, c: Candidate, runes: string, window: nat, ghost tail: seq<string>)
    returns (answer: Answer, locatorCalls: nat)
    requires window >= MINIMUM_QUOTE_RUNES
    ensures var all := WindowQuotes(repo.isSpace, c, runes, window, 0, 0) + tail;
            FirstAnswer(repo, c, all) == if answer != Nothing then answer else FirstAnswer(repo, c, tail)
    ensures locatorCalls <= 16
  {
    hide Try, Acceptable, FirstAnswer, WindowQuotes, Trim, Prefix;
    ghost var all := WindowQuotes(repo.isSpace, c, runes, window, 0, 0) + tail;
    var accepted, start := 0, 0;
    var step := Max(1, window / WINDOW_DIVISOR);
    answer, locatorCalls := Nothing, 0;
    while start < |runes| && accepted < QUOTES_PER_WINDOW
      invariant 0 <= accepted <= QUOTES_PER_WINDOW && locatorCalls <= 2 * accepted && answer == Nothing
      invariant FirstAnswer(repo, c, WindowQuotes(repo.isSpace, c, runes, window, start, accepted) + tail) == FirstAnswer(repo, c, all)
      decreases |runes| - start
    {
      WindowStep(repo, c, runes, window, start, accepted, tail);
      var end := Min(start + window, |runes|);
      var quote := Trim(repo.isSpace, runes[start..end]);
      if Acceptable(c, quote) {
        var calls: nat;
        answer, calls := TryQuote(repo, c, quote);
        locatorCalls := locatorCalls + calls;
        accepted := accepted + 1;
        if answer != Nothing {
          return;
        }
      }
      if end == |runes| {
        return;
      }
      start := start + step;
    }
    WindowEnds(repo, c, runes, window, start, accepted, tail);
  }

  /** One turn of the window loop leaves the answer to the quotes not tried yet. */
  lemma WindowStep(repo: Repo, c: Candidate, runes: string, window: nat, start: nat, accepted: nat, tail: seq<string>)
    requires window > 0 && start < |runes| && accepted < QUOTES_PER_WINDOW
    ensures var end := Min(start + window, |runes|);
            var quote := Trim(repo.isSpace, runes[start..end]);
            var ok := Acceptable(c, quote);
            var next := start + Max(1, window / WINDOW_DIVISOR);
            var rest := if end == |runes| then tail
                        else WindowQuotes(repo.isSpace, c, runes, window, next, if ok then accepted + 1 else accepted) + tail;
            FirstAnswer(repo, c, WindowQuotes(repo.isSpace, c, runes, window, start, accepted) + tail) ==
              if ok && Try(repo, c, quote) != Nothing then Try(repo, c, quote) else FirstAnswer(repo, c, rest)
  {
    hide Try, Acceptable, FirstAnswer, Trim, Contains;
    var end := Min(start + window, |runes|);
    var quote := Trim(repo.isSpace, runes[start..end]);
    var ok := Acceptable(c, quote);
    var rest := if end == |runes| then []
                else WindowQuotes(repo.isSpace, c, runes, window, start + Max(1, window / WINDOW_DIVISOR), if ok then accepted + 1 else accepted);
    assert [] + tail == tail;
    if ok {
      SkipQuote(repo, c, quote, rest + tail);
      assert [quote] + rest + tail == [quote] + (rest + tail);
    }
  }

  lemma WindowEnds(repo: Repo, c: Candidate, runes: string, window: nat, start: nat, accepted: nat, tail: seq<string>)
    requires window > 0 && (start >= |runes| || accepted >= QUOTES_PER_WINDOW)
    ensures WindowQuotes(repo.isSpace, c, runes, window, start, accepted) + tail == tail
  {}
}
