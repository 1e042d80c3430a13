/** The parity gate: one sample per published book, one verdict per sample, and counters that add up. */
module ParityAccounting {
  import opened Common
  import opened ParityQuotes

  /** A published book; public ones carry the candidates loaded for them, in order. */
  datatype Target = Target(book: int, isPublic: bool, candidates: seq<Candidate>)

  datatype Sample = Sample(book: int, isPublic: bool, heading: int, page: int, quote: string, unit: string, anchor: string)

  /** What the two requests about a sample showed. */
  datatype Observed = Observed(
    notFound: bool,
    askFailed: bool,
    citations: nat,
    llmCalls: nat,
    citationMatches: bool,
    resolvesToUnit: bool)

  datatype Verdict = Verified | DenialMismatch | RequestMismatch | LocatorMismatch | Unresolved

  datatype Verification = Verification(
    target: int, verified: int, mismatches: int, unresolved: int,
    samplesMissing: int, denialMismatches: int, requestMismatches: int, locatorMismatches: int)

  // ---- Samples ----------------------------------------------------------------------------

  /** The first candidate that yields a quote; an error stops everything. */
  function FirstQuote(repo: Repo, candidates: seq<Candidate>): Answer {
    if candidates == [] then Nothing
    else
      var answer := FirstAnswer(repo, candidates[0], QuotesTried(repo.isSpace, candidates[0]));
      if answer == Nothing then FirstQuote(repo, candidates[1..]) else answer
  }

  function SampleOf(repo: Repo, t: Target): Option<Sample>
  {
    if !t.isPublic then Some(Sample(t.book, false, 0, 0, "", "", ""))
    else match FirstQuote(repo, t.candidates)
         case Quote(quote, c, locator) => Some(Sample(t.book, true, c.heading, c.page, quote, locator.unit, locator.anchor))
         case _ => None
  }

  predicate Fails(repo: Repo, t: Target) {
    t.isPublic && FirstQuote(repo, t.candidates) == Failure
  }

  function Samples(repo: Repo, targets: seq<Target>): (r: seq<Sample>)
    ensures |r| <= |targets|
  {
    if targets == [] then []
    else
      var before := Samples(repo, targets[..|targets| - 1]);
      match SampleOf(repo, targets[|targets| - 1])
      case Some(sample) => before + [sample]
      case None => before
  }

  /** The answer to a list of candidates is that of the first one that has any. */
  lemma {:induction false} FirstQuoteIsFirst(repo: Repo, candidates: seq<Candidate>)
    ensures FirstQuote(repo, candidates) == Nothing <==>
            forall c :: c in candidates ==> FirstAnswer(repo, c, QuotesTried(repo.isSpace, c)) == Nothing
    ensures FirstQuote(repo, candidates) != Nothing ==>
            exists k :: && 0 <= k < |candidates|
                        && FirstQuote(repo, candidates) == FirstAnswer(repo, candidates[k], QuotesTried(repo.isSpace, candidates[k]))
                        && forall j :: 0 <= j < k ==> FirstAnswer(repo, candidates[j], QuotesTried(repo.isSpace, candidates[j])) == Nothing
  {
    hide FirstAnswer, QuotesTried;
    if candidates != [] {
      var rest := candidates[1..];
      FirstQuoteIsFirst(repo, rest);
      assert candidates == [candidates[0]] + rest;
      if FirstQuote(repo, rest) != Nothing {
        var k :| && 0 <= k < |rest|
                 && FirstQuote(repo, rest) == FirstAnswer(repo, rest[k], QuotesTried(repo.isSpace, rest[k]))
                 && forall j :: 0 <= j < k ==> FirstAnswer(repo, rest[j], QuotesTried(repo.isSpace, rest[j])) == Nothing;
        assert candidates[k + 1] == rest[k];
        assert forall j :: 1 <= j < k + 1 ==> candidates[j] == rest[j - 1];
      }
    }
  }

  /** A sample shows its book, and for a public one the quote with its place and the unit and anchor it was found at. */
  lemma SampleOnFields(repo: Repo, t: Target)
    ensures !t.isPublic ==> SampleOf(repo, t) == Some(Sample(t.book, false, 0, 0, "", "", ""))
    ensures t.isPublic ==>
              var answer := FirstQuote(repo, t.candidates);
              && (SampleOf(repo, t).Some? <==> answer.Quote?)
              && (answer.Quote? ==>
                    var s := SampleOf(repo, t).value;
                    && s.book == t.book && s.isPublic && s.quote == answer.quote
                    && (s.heading, s.page) == (answer.candidate.heading, answer.candidate.page)
                    && (s.unit, s.anchor) == (answer.locator.unit, answer.locator.anchor))
  {}

  method FindQuote(repo: Repo, candidates: seq<Candidate>) returns (answer: Answer)
    ensures answer == FirstQuote(repo, candidates)
  {
    hide QuotesTried;
    for k := 0 to |candidates|
      invariant FirstQuote(repo, candidates) == FirstQuote(repo, candidates[k..])
    {
      var windows: nat, calls: nat;
      answer, windows, calls := CandidateQuote(repo, candidates[k]);
      assert candidates[k..][1..] == candidates[k + 1..];
      if answer != Nothing {
        return;
      }
    }
    answer := Nothing;
  }

  method LoadSamples(repo: Repo, targets: seq<Target>) returns (samples: Option<seq<Sample>>)
    ensures samples.None? <==> exists i :: 0 <= i < |targets| && Fails(repo, targets[i])
    ensures samples.Some? ==> samples.value == Samples(repo, targets)
  {
    hide FirstQuote;
    var found := [];
    for k := 0 to |targets|
      invariant forall i :: 0 <= i < k ==> !Fails(repo, targets[i])
      invariant found == Samples(repo, targets[..k])
    {
      var t := targets[k];
      assert targets[..k + 1][..k] == targets[..k];
      if !t.isPublic {
        found := found + [Sample(t.book, false, 0, 0, "", "", "")];
      } else {
        var answer := FindQuote(repo, t.candidates);
        if answer == Failure {
          assert Fails(repo, targets[k]);
          return None;
        }
        if answer.Quote? {
          found := found + [Sample(t.book, true, answer.candidate.heading, answer.candidate.page, answer.quote,
                                   answer.locator.unit, answer.locator.anchor)];
        }
      }
    }
    assert targets[..|targets|] == targets;
    samples := Some(found);
  }

  // ---- Verdicts ---------------------------------------------------------------------------

  function Judge(sample: Sample, seen: Observed): Verdict {
    if !sample.isPublic then
      if !seen.notFound || seen.citations != 0 || seen.llmCalls != 0 then DenialMismatch else Verified
    else if seen.askFailed || seen.citations != 1 then RequestMismatch
    else if !seen.citationMatches then LocatorMismatch
    else if !seen.resolvesToUnit then Unresolved
    else Verified
  }

  /** Each verdict, on what the two requests showed. */
  lemma VerdictsOnFields(sample: Sample, seen: Observed)
    ensures Judge(sample, seen) == Verified <==>
            if sample.isPublic then !seen.askFailed && seen.citations == 1 && seen.citationMatches && seen.resolvesToUnit
            else seen.notFound && seen.citations == 0 && seen.llmCalls == 0
    ensures Judge(sample, seen) == DenialMismatch <==>
            !sample.isPublic && (!seen.notFound || seen.citations > 0 || seen.llmCalls > 0)
    ensures Judge(sample, seen) == RequestMismatch <==> sample.isPublic && (seen.askFailed || seen.citations != 1)
    ensures Judge(sample, seen) == LocatorMismatch <==>
            sample.isPublic && !seen.askFailed && seen.citations == 1 && !seen.citationMatches
    ensures Judge(sample, seen) == Unresolved <==>
            sample.isPublic && !seen.askFailed && seen.citations == 1 && seen.citationMatches && !seen.resolvesToUnit
  {}

  /** The samples with a verdict, by their places. */
  ghost function Places(samples: seq<Sample>, observe: Sample -> Observed, verdict: Verdict): set<nat> {
    set i: nat | i < |samples| && Judge(samples[i], observe(samples[i])) == verdict
  }

  lemma LastPlace(samples: seq<Sample>, last: Sample, observe: Sample -> Observed, verdict: Verdict)
    ensures |Places(samples + [last], observe, verdict)|
         == |Places(samples, observe, verdict)| + if Judge(last, observe(last)) == verdict then 1 else 0
  {
    hide Judge;
    var before, n := Places(samples, observe, verdict), |samples|;
    assert Places(samples + [last], observe, verdict) == if Judge(last, observe(last)) == verdict then before + {n} else before;
  }

  /** Each counter is the number of places in the sample list with its verdict. */
  lemma {:induction false} CountsPlaces(samples: seq<Sample>, observe: Sample -> Observed, verdict: Verdict)
    ensures CountVerdict(samples, observe, verdict) == |Places(samples, observe, verdict)|
  {
    hide Judge, Places;
    if samples == [] {
      NoPlaces(observe, verdict);
    } else {
      var n := |samples| - 1;
      CountsPlaces(samples[..n], observe, verdict);
      assert samples == samples[..n] + [samples[n]];
      LastPlace(samples[..n], samples[n], observe, verdict);
    }
  }

  lemma NoPlaces(observe: Sample -> Observed, verdict: Verdict)
    ensures |Places([], observe, verdict)| == 0
  {}

  function CountVerdict(samples: seq<Sample>, observe: Sample -> Observed, verdict: Verdict): nat {
    if samples == [] then 0
    else CountVerdict(samples[..|samples| - 1], observe, verdict)
         + if Judge(samples[|samples| - 1], observe(samples[|samples| - 1])) == verdict then 1 else 0
  }

  method VerifyParity(repo: Repo, targets: seq<Target>, observe: Sample -> Observed) returns (r: Option<Verification>)
    ensures r.None? <==> exists i :: 0 <= i < |targets| && Fails(repo, targets[i])
    ensures r.Some? ==>
              var v, samples := r.value, Samples(repo, targets);
              && v.target == |targets| == v.verified + v.mismatches + v.unresolved
              && v.mismatches == v.samplesMissing + v.denialMismatches + v.requestMismatches + v.locatorMismatches
              && v.samplesMissing == |targets| - |samples|
              && v.verified == CountVerdict(samples, observe, Verified)
              && v.denialMismatches == CountVerdict(samples, observe, DenialMismatch)
              && v.requestMismatches == CountVerdict(samples, observe, RequestMismatch)
              && v.locatorMismatches == CountVerdict(samples, observe, LocatorMismatch)
              && v.unresolved == CountVerdict(samples, observe, Unresolved)
  {
    hide Samples, Fails;
    var loaded := LoadSamples(repo, targets);
    if loaded.None? {
      return None;
    }
    var samples := loaded.value;
    var missing := |targets| - |samples|;
    var v := Verification(|targets|, 0, missing, 0, missing, 0, 0, 0);
    for k := 0 to |samples|
      invariant v.target == |targets| && v.samplesMissing == missing
      invariant v.verified + v.mismatches + v.unresolved == missing + k
      invariant v.mismatches == missing + v.denialMismatches + v.requestMismatches + v.locatorMismatches
      invariant v.verified == CountVerdict(samples[..k], observe, Verified)
      invariant v.denialMismatches == CountVerdict(samples[..k], observe, DenialMismatch)
      invariant v.requestMismatches == CountVerdict(samples[..k], observe, RequestMismatch)
      invariant v.locatorMismatches == CountVerdict(samples[..k], observe, LocatorMismatch)
      invariant v.unresolved == CountVerdict(samples[..k], observe, Unresolved)
    {
      assert samples[..k + 1][..k] == samples[..k];
      var sample, seen := samples[k], observe(samples[k]);
      if !sample.isPublic {
        if !seen.notFound || seen.citations != 0 || seen.llmCalls != 0 {
          v := v.(mismatches := v.mismatches + 1, denialMismatches := v.denialMismatches + 1);
        } else {
          v := v.(verified := v.verified + 1);
        }
      } else if seen.askFailed || seen.citations != 1 {
        v := v.(mismatches := v.mismatches + 1, requestMismatches := v.requestMismatches + 1);
      } else if !seen.citationMatches {
        v := v.(mismatches := v.mismatches + 1, locatorMismatches := v.locatorMismatches + 1);
      } else if !seen.resolvesToUnit {
        v := v.(unresolved := v.unresolved + 1);
      } else {
        v := v.(verified := v.verified + 1);
      }
    }
    assert samples[..|samples|] == samples;
    r := Some(v);
  }

  lemma {:induction false} AllVerified(samples: seq<Sample>, observe: Sample -> Observed)
    ensures CountVerdict(samples, observe, Verified) <= |samples|
    ensures CountVerdict(samples, observe, Verified) == |samples| <==>
            forall i :: 0 <= i < |samples| ==> Judge(samples[i], observe(samples[i])) == Verified
  {
    if samples != [] {
      AllVerified(samples[..|samples| - 1], observe);
    }
  }

  lemma {:induction false} EveryTargetSampled(repo: Repo, targets: seq<Target>)
    ensures |Samples(repo, targets)| == |targets| <==> forall i :: 0 <= i < |targets| ==> SampleOf(repo, targets[i]).Some?
    ensures (forall i :: 0 <= i < |targets| ==> SampleOf(repo, targets[i]).Some?) ==>
              forall i :: 0 <= i < |targets| ==> Samples(repo, targets)[i] == SampleOf(repo, targets[i]).value
  {
    hide SampleOf;
    if targets != [] {
      EveryTargetSampled(repo, targets[..|targets| - 1]);
    }
  }

  /** No mismatch and nothing unresolved means: every published book has a sample, and every sample is verified. */
  lemma CleanExactly(repo: Repo, targets: seq<Target>, observe: Sample -> Observed)
    ensures CountVerdict(Samples(repo, targets), observe, Verified) == |targets| <==>
            forall i :: 0 <= i < |targets| ==>
              && SampleOf(repo, targets[i]).Some?
              && Judge(SampleOf(repo, targets[i]).value, observe(SampleOf(repo, targets[i]).value)) == Verified
  {
    hide SampleOf, Samples, Judge;
    EveryTargetSampled(repo, targets);
    AllVerified(Samples(repo, targets), observe);
  }
}
