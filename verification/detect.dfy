/**
  Per-fragment language detection (libretranslate/detect.py). The langdetect
  estimator is a parameter: a function from the text to either its ranked
  list of (language, probability) pairs or the exception it raised.
*/
module Detect {
  import opened Wrappers
  import opened PyStr
  import opened Sequences

  /** A detected language with its confidence (a percentage) and the length of the text it came from. */
  datatype Language = Language(code: string, confidence: real, textLength: nat)

  /** One entry of the estimator's output. */
  datatype LangProb = LangProb(lang: string, prob: real)

  /** The exceptions of the estimator: langdetect's "can't detect" error code, and every other one. */
  datatype EstimatorError = CantDetect | OtherError(message: string)

  datatype Estimate = Probs(langs: seq<LangProb>) | Raised(error: EstimatorError)

  /** `Language(code, confidence)`: a fresh record has no text length yet. */
  function NewLanguage(code: string, confidence: int): (l: Language)
    ensures l.code == code && l.confidence == confidence as real
    ensures l.textLength == 0
  {
    Language(code, confidence as real, 0)
  }

  /** The answer when nothing can be detected: English with zero confidence. */
  function Fallback(): Language
  {
    NewLanguage("en", 0)
  }

  /** `normalized_lang_code`: both Marathi spellings become "mr", every other code is kept. */
  function NormalizedLangCode(lang: LangProb): (code: string)
    ensures code == "mr" <==> lang.lang == "mr" || lang.lang == "mar"
    ensures code != "mr" ==> code == lang.lang
    ensures code != "mar"
  {
    if lang.lang == "mr" || lang.lang == "mar" then "mr" else lang.lang
  }

  /** `check_lang`: every language is supported when no codes are given. */
  function CheckLang(langcodes: seq<string>, lang: LangProb): (ok: bool)
    ensures ok <==> langcodes == [] || NormalizedLangCode(lang) in langcodes
  {
    if langcodes == [] then true else NormalizedLangCode(lang) in langcodes
  }

  /** Python's `round(x)` on a number: the nearest integer, ties to the even one. */
  function RoundHalfEven(x: real): (n: int)
    ensures x - 0.5 <= n as real <= x + 0.5
    ensures (n as real == x - 0.5 || n as real == x + 0.5) ==> n % 2 == 0
    ensures 0.0 <= x <= 100.0 ==> 0 <= n <= 100
  {
    var f := x.Floor;
    var d := x - f as real;
    if d < 0.5 then f
    else if d > 0.5 then f + 1
    else if f % 2 == 0 then f
    else f + 1
  }

  /** `Language(normalized_lang_code(lang), round(lang.prob * 100))`. */
  function ToLanguage(lang: LangProb): (l: Language)
    ensures l.code == NormalizedLangCode(lang) && l.textLength == 0
    ensures lang.prob * 100.0 - 0.5 <= l.confidence <= lang.prob * 100.0 + 0.5
    ensures l.confidence == l.confidence.Floor as real
    ensures l.confidence == RoundHalfEven(lang.prob * 100.0) as real
    ensures 0.0 <= lang.prob <= 1.0 ==> 0.0 <= l.confidence <= 100.0
  {
    NewLanguage(NormalizedLangCode(lang), RoundHalfEven(lang.prob * 100.0))
  }

  /** The estimator's entries that `check_lang` accepts, in the estimator's order. */
  function FilterSupported(langcodes: seq<string>, ds: seq<LangProb>): (r: seq<LangProb>)
    ensures |r| <= |ds|
    ensures forall i :: 0 <= i < |r| ==> CheckLang(langcodes, r[i])
    ensures IsSubsequence(r, ds)
    ensures forall i :: 0 <= i < |ds| && CheckLang(langcodes, ds[i]) ==> ds[i] in r
  {
    if ds == [] then []
    else
      var rest := FilterSupported(langcodes, ds[1..]);
      assert forall i :: 1 <= i < |ds| ==> ds[i] == ds[1..][i - 1];
      if CheckLang(langcodes, ds[0]) then [ds[0]] + rest else rest
  }

  /**
    The filter keeps every supported entry exactly as often as the estimator
    lists it and drops every other one; with `FilterSupported`'s order this
    makes the result the filtered list itself.
  */
  lemma {:induction false} FilterSupportedCounts(langcodes: seq<string>, ds: seq<LangProb>)
    ensures forall x :: multiset(FilterSupported(langcodes, ds))[x] == if CheckLang(langcodes, x) then multiset(ds)[x] else 0
  {
    if ds != [] {
      FilterSupportedCounts(langcodes, ds[1..]);
      assert multiset(ds) == multiset{ds[0]} + multiset(ds[1..]) by { HeadTail(ds); }
    }
  }

  /** `top_choices`: at most three entries, filtered when codes are given. */
  function TopChoices(langcodes: seq<string>, ds: seq<LangProb>): seq<LangProb>
  {
    if langcodes != [] then Take(FilterSupported(langcodes, ds), 3) else Take(ds, 3)
  }

  /**
    The answer built from the estimator's ranked list: the converted top
    choices, or the fallback when there are none or the best has probability 0.
  */
  function FromEstimates(langcodes: seq<string>, ds: seq<LangProb>): (r: seq<Language>)
    ensures 1 <= |r| <= 3
    ensures forall i :: 0 <= i < |r| ==> r[i].textLength == 0 && r[i].code != "mar"
    ensures r != [Fallback()] ==> forall i :: 0 <= i < |r| ==> langcodes == [] || r[i].code in langcodes
  {
    var top := TopChoices(langcodes, ds);
    if top == [] || top[0].prob == 0.0 then [Fallback()]
    else
      TopChoicesAreFirstSupported(langcodes, ds);
      seq(|top|, i requires 0 <= i < |top| => ToLanguage(top[i]))
  }

  /** `Detector(langcodes).detect(text)`; `Err` is an exception that escapes it. */
  function Detect(langcodes: seq<string>, text: string, estimate: string -> Estimate): (r: Result<seq<Language>, EstimatorError>)
    ensures IsBlank(text) ==> r == Ok([Fallback()])
    ensures r.Err? <==> !IsBlank(text) && estimate(text).Raised? && estimate(text).error.OtherError?
    ensures r.Err? ==> r.error == estimate(text).error
    ensures r.Ok? ==> 1 <= |r.value| <= 3
    ensures r.Ok? ==> forall i :: 0 <= i < |r.value| ==> r.value[i].textLength == 0 && r.value[i].code != "mar"
    ensures r.Ok? && r.value != [Fallback()] ==>
              forall i :: 0 <= i < |r.value| ==> langcodes == [] || r.value[i].code in langcodes
  {
    if IsBlank(text) then Ok([Fallback()])
    else
      match estimate(text)
      case Raised(CantDetect) => Ok([Fallback()])
      case Raised(e) => Err(e)
      case Probs(ds) => Ok(FromEstimates(langcodes, ds))
  }

  /**
    The three ways to the English fallback: blank text, langdetect's "can't
    detect" error, and no supported estimate among the first three or a best
    one with probability 0.
  */
  lemma DetectFallsBack(langcodes: seq<string>, text: string, estimate: string -> Estimate)
    ensures IsBlank(text) || estimate(text) == Raised(CantDetect) ==> Detect(langcodes, text, estimate) == Ok([Fallback()])
    ensures !IsBlank(text) && estimate(text).Probs? &&
            (Take(FilterSupported(langcodes, estimate(text).langs), 3) == [] ||
             Take(FilterSupported(langcodes, estimate(text).langs), 3)[0].prob == 0.0) ==>
              Detect(langcodes, text, estimate) == Ok([Fallback()])
  {
    if !IsBlank(text) && estimate(text).Probs? {
      TopChoicesAreFirstSupported(langcodes, estimate(text).langs);
    }
  }

  /** With no codes given every entry is supported, so both branches of `top_choices` agree. */
  lemma {:induction false} TopChoicesAreFirstSupported(langcodes: seq<string>, ds: seq<LangProb>)
    ensures TopChoices(langcodes, ds) == Take(FilterSupported(langcodes, ds), 3)
  {
    if langcodes == [] {
      FilterAllSupported(ds);
    }
  }

  lemma {:induction false} FilterAllSupported(ds: seq<LangProb>)
    ensures FilterSupported([], ds) == ds
  {
    if ds != [] {
      FilterAllSupported(ds[1..]);
    }
  }

  /** Blank text is answered without consulting the estimator. */
  lemma BlankIgnoresEstimator(langcodes: seq<string>, text: string, e1: string -> Estimate, e2: string -> Estimate)
    requires IsBlank(text)
    ensures Detect(langcodes, text, e1) == Detect(langcodes, text, e2) == Ok([Fallback()])
  {
  }

  /** When English is among the codes, every code of a successful detection is one of them. */
  lemma DetectCodesSupported(langcodes: seq<string>, text: string, estimate: string -> Estimate)
    requires "en" in langcodes
    ensures Detect(langcodes, text, estimate).Ok? ==>
              forall i :: 0 <= i < |Detect(langcodes, text, estimate).value| ==> Detect(langcodes, text, estimate).value[i].code in langcodes
  {
    var r := Detect(langcodes, text, estimate);
    if r.Ok? && r.value == [Fallback()] {
      assert r.value[0].code == "en";
    }
  }

  /**
    A real detection is, entry by entry, the conversion of the first supported
    estimates (three at most), taken in the estimator's order.
  */
  lemma DetectKeepsEstimatorOrder(langcodes: seq<string>, text: string, estimate: string -> Estimate, ds: seq<LangProb>)
    requires !IsBlank(text) && estimate(text) == Probs(ds)
    ensures var top := Take(FilterSupported(langcodes, ds), 3);
            top != [] && top[0].prob != 0.0 ==>
              Detect(langcodes, text, estimate).Ok? && |Detect(langcodes, text, estimate).value| == |top| &&
              forall j :: 0 <= j < |top| ==> Detect(langcodes, text, estimate).value[j] == ToLanguage(top[j])
    ensures Detect(langcodes, text, estimate) != Ok([Fallback()]) ==>
              exists top: seq<LangProb> ::
                IsSubsequence(top, ds) && |top| == |Detect(langcodes, text, estimate).value| &&
                forall j :: 0 <= j < |top| ==> Detect(langcodes, text, estimate).value[j] == ToLanguage(top[j])
  {
    var top := TopChoices(langcodes, ds);
    TopChoicesAreFirstSupported(langcodes, ds);
    var f := FilterSupported(langcodes, ds);
    PrefixIsSubsequence(top, f);
    SubsequenceTransitive(top, f, ds);
  }

  /** For probabilities in [0, 1] every reported confidence is a whole percentage between 0 and 100. */
  lemma DetectConfidenceIsPercentage(langcodes: seq<string>, text: string, estimate: string -> Estimate)
    requires estimate(text).Probs? ==> forall i :: 0 <= i < |estimate(text).langs| ==> 0.0 <= estimate(text).langs[i].prob <= 1.0
    requires Detect(langcodes, text, estimate).Ok?
    ensures forall l :: l in Detect(langcodes, text, estimate).value ==>
              0.0 <= l.confidence <= 100.0 && l.confidence == l.confidence.Floor as real
  {
    if !IsBlank(text) && estimate(text).Probs? {
      FromEstimatesArePercentages(langcodes, estimate(text).langs);
    }
  }

  lemma FromEstimatesArePercentages(langcodes: seq<string>, ds: seq<LangProb>)
    requires forall i :: 0 <= i < |ds| ==> 0.0 <= ds[i].prob <= 1.0
    ensures forall l :: l in FromEstimates(langcodes, ds) ==>
              0.0 <= l.confidence <= 100.0 && l.confidence == l.confidence.Floor as real
  {
    var f := FilterSupported(langcodes, ds);
    var top := TopChoices(langcodes, ds);
    assert forall p :: p in f ==> 0.0 <= p.prob <= 1.0 by {
      forall p | p in f ensures 0.0 <= p.prob <= 1.0 {
        SubsequenceMembers(f, ds, p);
      }
    }
    assert forall j :: 0 <= j < |top| ==> top[j] in f by {
      TopChoicesAreFirstSupported(langcodes, ds);
    }
  }

  lemma {:induction false} SubsequenceMembers(a: seq<LangProb>, b: seq<LangProb>, x: LangProb)
    requires IsSubsequence(a, b) && x in a
    ensures x in b
    decreases |b|
  {
    if a[0] == b[0] && IsSubsequence(a[1..], b[1..]) {
      if x != a[0] {
        SubsequenceMembers(a[1..], b[1..], x);
      }
    } else {
      SubsequenceMembers(a, b[1..], x);
    }
  }
}
