/**
  Language detection over one text or a batch of texts (`detect_languages` in
  libretranslate/language.py). Every fragment is run through the per-fragment
  detector; its candidates carry the fragment's length and a fragment whose
  detector raised contributes nothing. For a batch the candidates of each
  supported code are merged into one (mean confidence, summed length). The
  result is ordered by length-weighted confidence, highest first, keeping the
  earlier order among equal weights.
*/
module LanguageDetection {
  import opened Wrappers
  import opened Detect
  import opened LanguageRegistry

  /** One entry of the answer: `{"confidence": ..., "language": ...}`. */
  datatype Detection = Detection(confidence: real, language: string)

  /** The fragments of the request: the single text, or the texts of a batch. */
  function Fragments(text: OneOrMany<string>): (ts: seq<string>)
    ensures text.One? ==> ts == [text.item]
    ensures text.Many? ==> ts == text.items
  {
    match text
    case One(t) => [t]
    case Many(ts) => ts
  }

  /** The detector's candidates, each stamped with the length `n` of its fragment. */
  function WithLength(d: seq<Language>, n: nat): (r: seq<Language>)
    ensures |r| == |d|
    ensures forall i :: 0 <= i < |r| ==> r[i] == d[i].(textLength := n)
  {
    seq(|d|, i requires 0 <= i < |d| => d[i].(textLength := n))
  }

  /** What one fragment contributes: its stamped candidates, or nothing when detection raised. */
  function FragmentCandidates(t: string, estimate: string -> Estimate): seq<Language>
  {
    match Detect.Detect(LangCodes, t, estimate)
    case Ok(d) => WithLength(d, |t|)
    case Err(_) => []
  }

  /** The `candidates` list after the loop over the fragments. */
  function Candidates(texts: seq<string>, estimate: string -> Estimate): seq<Language>
  {
    if texts == [] then []
    else Candidates(texts[..|texts| - 1], estimate) + FragmentCandidates(texts[|texts| - 1], estimate)
  }

  /** `sum(c.text_length for c in cs)`. */
  function TotalLength(cs: seq<Language>): nat
  {
    if cs == [] then 0 else cs[0].textLength + TotalLength(cs[1..])
  }

  /** `sum(l.confidence for l in cs)`. */
  function TotalConfidence(cs: seq<Language>): real
  {
    if cs == [] then 0.0 else cs[0].confidence + TotalConfidence(cs[1..])
  }

  /** `list(filter(lambda l: l.code == code, cs))`. */
  function OfCode(cs: seq<Language>, code: string): (r: seq<Language>)
    ensures |r| <= |cs|
    ensures forall i :: 0 <= i < |r| ==> r[i].code == code
  {
    if cs == [] then []
    else (if cs[0].code == code then [cs[0]] else []) + OfCode(cs[1..], code)
  }

  /**
    The entry kept for one code: nothing, the single candidate unchanged, or
    the first candidate carrying the mean confidence and the summed length.
  */
  function Summary(lc: seq<Language>): seq<Language>
  {
    if |lc| > 1 then [lc[0].(confidence := TotalConfidence(lc) / |lc| as real, textLength := TotalLength(lc))]
    else lc
  }

  /** `temp_average_list` after the loop over the codes `codes`. */
  function Merge(codes: seq<string>, cs: seq<Language>): seq<Language>
  {
    if codes == [] then []
    else Merge(codes[..|codes| - 1], cs) + Summary(OfCode(cs, codes[|codes| - 1]))
  }

  /** The batch step: the merged list, unless it came out empty. */
  function Aggregate(isBatch: bool, cs: seq<Language>): seq<Language>
  {
    if isBatch && Merge(LangCodes, cs) != [] then Merge(LangCodes, cs) else cs
  }

  /** The sort key: the length-weighted confidence, or 0 when no text was read. */
  function Weight(l: Language, total: nat): real
  {
    if total == 0 then 0.0 else l.confidence * l.textLength as real / total as real
  }

  /** `x` placed before the first entry of `s` that does not outweigh it. */
  function Insert(x: Language, s: seq<Language>, total: nat): (r: seq<Language>)
    ensures multiset(r) == multiset(s) + multiset{x}
  {
    if s == [] || Weight(s[0], total) <= Weight(x, total) then [x] + s
    else
      assert s == [s[0]] + s[1..];
      [s[0]] + Insert(x, s[1..], total)
  }

  /** `cs.sort(key=weight, reverse=True)`: a stable sort, heaviest first. */
  function SortByWeight(cs: seq<Language>, total: nat): (r: seq<Language>)
    ensures multiset(r) == multiset(cs)
  {
    if cs == [] then []
    else
      assert cs == [cs[0]] + cs[1..];
      Insert(cs[0], SortByWeight(cs[1..], total), total)
  }

  predicate NonIncreasing(s: seq<Language>, total: nat) {
    forall i, j :: 0 <= i < j < |s| ==> Weight(s[i], total) >= Weight(s[j], total)
  }

  /** The candidates in their final order, before they are turned into answers. */
  function Ranked(text: OneOrMany<string>, estimate: string -> Estimate): seq<Language>
  {
    var cs := Candidates(Fragments(text), estimate);
    SortByWeight(Aggregate(text.Many?, cs), TotalLength(cs))
  }

  function ToDetections(ls: seq<Language>): (r: seq<Detection>)
    ensures |r| == |ls|
    ensures forall i :: 0 <= i < |r| ==> r[i] == Detection(ls[i].confidence, ls[i].code)
  {
    seq(|ls|, i requires 0 <= i < |ls| => Detection(ls[i].confidence, ls[i].code))
  }

  /** `detect_languages(text)`: English with zero confidence when nothing was detected. */
  function DetectLanguagesSpec(text: OneOrMany<string>, estimate: string -> Estimate): (r: seq<Detection>)
    ensures Candidates(Fragments(text), estimate) == [] ==> r == [Detection(0.0, "en")]
    ensures Candidates(Fragments(text), estimate) != [] ==> r == ToDetections(Ranked(text, estimate))
  {
    if Candidates(Fragments(text), estimate) == [] then [Detection(0.0, "en")]
    else ToDetections(Ranked(text, estimate))
  }

  /** The imperative procedure of `detect_languages`. */
  method DetectLanguages(text: OneOrMany<string>, estimate: string -> Estimate) returns (r: seq<Detection>)
    ensures r == DetectLanguagesSpec(text, estimate)
  {
    var isBatch := text.Many?;
    var texts := if isBatch then text.items else [text.item];

    var candidates := CollectCandidates(texts, estimate);
    var textLengthTotal := TotalLength(candidates);
    if candidates == [] {
      return [Detection(0.0, "en")];
    }

    if isBatch {
      var tempAverageList := AverageByCode(LangCodes, candidates);
      if tempAverageList != [] {
        candidates := tempAverageList;
      }
    }

    candidates := SortByWeight(candidates, textLengthTotal);
    r := ToDetections(candidates);
  }

  /** The loop over the fragments: detect each one, stamp its candidates, skip it when detection raised. */
  method CollectCandidates(texts: seq<string>, estimate: string -> Estimate) returns (candidates: seq<Language>)
    ensures candidates == Candidates(texts, estimate)
  {
    candidates := [];
    var j := 0;
    while j < |texts|
      invariant 0 <= j <= |texts|
      invariant candidates == Candidates(texts[..j], estimate)
    {
      var found := DetectFragment(texts[j], estimate);
      assert texts[..j + 1][..j] == texts[..j];
      assert Candidates(texts[..j + 1], estimate) == candidates + found;
      candidates := candidates + found;
      j := j + 1;
    }
    assert texts[..j] == texts;
  }

  /** The body of the fragment loop: detect one fragment and stamp its candidates, or nothing when detection raised. */
  method DetectFragment(t: string, estimate: string -> Estimate) returns (found: seq<Language>)
    ensures found == FragmentCandidates(t, estimate)
  {
    found := [];
    match Detect.Detect(LangCodes, t, estimate) {
      case Ok(d) =>
        found := StampLength(d, |t|);
      case Err(_) =>
    }
  }

  /** The loop over the codes building `temp_average_list`. */
  method AverageByCode(langCodes: seq<string>, candidates: seq<Language>) returns (tempAverageList: seq<Language>)
    ensures tempAverageList == Merge(langCodes, candidates)
  {
    tempAverageList := [];
    var k := 0;
    while k < |langCodes|
      invariant 0 <= k <= |langCodes|
      invariant tempAverageList == Merge(langCodes[..k], candidates)
    {
      var entry := AverageOfCode(langCodes[k], candidates);
      assert langCodes[..k + 1][..k] == langCodes[..k];
      tempAverageList := tempAverageList + entry;
      k := k + 1;
    }
    assert langCodes[..k] == langCodes;
  }

  /** The body of the code loop: what one code adds to `temp_average_list`. */
  method AverageOfCode(langCode: string, candidates: seq<Language>) returns (entry: seq<Language>)
    ensures entry == Summary(OfCode(candidates, langCode))
  {
    entry := [];
    var lc := OfCode(candidates, langCode);
    if |lc| > 1 {
      var lang := lc[0];
      lang := lang.(confidence := TotalConfidence(lc) / |lc| as real);
      lang := lang.(textLength := TotalLength(lc));
      entry := [lang];
    } else if lc != [] {
      entry := [lc[0]];
    }
  }

  /** `for i in range(len(d)): d[i].text_length = len(t)`. */
  method StampLength(d: seq<Language>, n: nat) returns (stamped: seq<Language>)
    ensures stamped == WithLength(d, n)
  {
    stamped := d;
    var i := 0;
    while i < |stamped|
      invariant 0 <= i <= |stamped| == |d|
      invariant forall k :: 0 <= k < i ==> stamped[k] == d[k].(textLength := n)
      invariant forall k :: i <= k < |stamped| ==> stamped[k] == d[k]
    {
      stamped := stamped[i := stamped[i].(textLength := n)];
      i := i + 1;
    }
  }
}
