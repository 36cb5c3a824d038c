/**
  Properties of `detect_languages`: the stable weight sort, the per-code merge
  of a batch, the candidates collected from the fragments, and the answer as
  a whole.
*/
module DetectionProperties {
  import opened Wrappers
  import opened PyStr
  import opened Detect
  import opened LanguageRegistry
  import opened LanguageDetection
  import Sequences

  // ---------------------------------------------------------------------------
  // The sort

  /** The entries of `s` whose weight is `v`, in order. */
  function AtWeight(s: seq<Language>, total: nat, v: real): (r: seq<Language>)
    ensures forall i :: 0 <= i < |r| ==> Weight(r[i], total) == v
  {
    if s == [] then []
    else (if Weight(s[0], total) == v then [s[0]] else []) + AtWeight(s[1..], total, v)
  }

  lemma InsertMembers(x: Language, s: seq<Language>, total: nat, y: Language)
    requires y in Insert(x, s, total)
    ensures y == x || y in s
  {
    assert y in multiset(Insert(x, s, total));
  }

  lemma {:induction false} InsertNonIncreasing(x: Language, s: seq<Language>, total: nat)
    requires NonIncreasing(s, total)
    ensures NonIncreasing(Insert(x, s, total), total)
  {
    if s != [] && Weight(s[0], total) > Weight(x, total) {
      var rest := Insert(x, s[1..], total);
      InsertNonIncreasing(x, s[1..], total);
      forall j | 0 <= j < |rest| ensures Weight(s[0], total) >= Weight(rest[j], total) {
        InsertMembers(x, s[1..], total, rest[j]);
      }
    }
  }

  /** The sort orders the entries by non-increasing weight. */
  lemma {:induction false} SortNonIncreasing(cs: seq<Language>, total: nat)
    ensures NonIncreasing(SortByWeight(cs, total), total)
  {
    if cs != [] {
      SortNonIncreasing(cs[1..], total);
      InsertNonIncreasing(cs[0], SortByWeight(cs[1..], total), total);
    }
  }

  lemma {:induction false} InsertAtWeight(x: Language, s: seq<Language>, total: nat, v: real)
    ensures AtWeight(Insert(x, s, total), total, v) == (if Weight(x, total) == v then [x] else []) + AtWeight(s, total, v)
  {
    if s == [] || Weight(s[0], total) <= Weight(x, total) {
      AtWeightCons(x, s, total, v);
    } else {
      var ins := Insert(x, s[1..], total);
      InsertAtWeight(x, s[1..], total, v);
      AtWeightCons(s[0], ins, total, v);
      AtWeightCons(s[0], s[1..], total, v);
      assert [s[0]] + s[1..] == s;
    }
  }

  lemma AtWeightCons(y: Language, s: seq<Language>, total: nat, v: real)
    ensures AtWeight([y] + s, total, v) == (if Weight(y, total) == v then [y] else []) + AtWeight(s, total, v)
  {
    assert ([y] + s)[1..] == s;
  }

  /** The sort is stable: the entries of any one weight keep their relative order. */
  lemma {:induction false} SortStable(cs: seq<Language>, total: nat, v: real)
    ensures AtWeight(SortByWeight(cs, total), total, v) == AtWeight(cs, total, v)
  {
    if cs != [] {
      SortStable(cs[1..], total, v);
      InsertAtWeight(cs[0], SortByWeight(cs[1..], total), total, v);
    }
  }

  /** When no text was read every weight is 0 and the order is left as it is. */
  lemma {:induction false} SortWithoutTextKeepsOrder(cs: seq<Language>)
    ensures SortByWeight(cs, 0) == cs
  {
    if cs != [] {
      SortWithoutTextKeepsOrder(cs[1..]);
    }
  }

  // ---------------------------------------------------------------------------
  // The merge

  predicate Distinct(codes: seq<string>) {
    forall i, j :: 0 <= i < j < |codes| ==> codes[i] != codes[j]
  }

  lemma {:induction false} OfCodeAppend(a: seq<Language>, b: seq<Language>, c: string)
    ensures OfCode(a + b, c) == OfCode(a, c) + OfCode(b, c)
  {
    if a == [] {
      assert a + b == b;
    } else {
      assert (a + b)[0] == a[0] && (a + b)[1..] == a[1..] + b;
      OfCodeAppend(a[1..], b, c);
    }
  }

  lemma {:induction false} OfCodeOfOneCode(s: seq<Language>, d: string, c: string)
    requires forall i :: 0 <= i < |s| ==> s[i].code == d
    ensures OfCode(s, c) == if c == d then s else []
  {
    if s != [] {
      OfCodeOfOneCode(s[1..], d, c);
      if c == d {
        assert s == [s[0]] + s[1..];
      }
    }
  }

  lemma {:induction false} OfCodeComplete(cs: seq<Language>, c: string, i: nat)
    requires i < |cs| && cs[i].code == c
    ensures cs[i] in OfCode(cs, c)
  {
    if i > 0 {
      OfCodeComplete(cs[1..], c, i - 1);
    }
  }

  lemma SummaryOfOneCode(lc: seq<Language>, d: string)
    requires forall i :: 0 <= i < |lc| ==> lc[i].code == d
    ensures |Summary(lc)| <= 1 && (Summary(lc) == [] <==> lc == [])
    ensures forall i :: 0 <= i < |Summary(lc)| ==> Summary(lc)[i].code == d
  {
  }

  /**
    After the merge over distinct codes, the entries of a code are exactly the
    summary of its candidates when the code is one of them, and none otherwise.
  */
  lemma {:induction false} MergeByCode(codes: seq<string>, cs: seq<Language>, c: string)
    requires Distinct(codes)
    ensures OfCode(Merge(codes, cs), c) == if c in codes then Summary(OfCode(cs, c)) else []
  {
    if codes != [] {
      var init := codes[..|codes| - 1];
      var last := codes[|codes| - 1];
      var before := OfCode(Merge(init, cs), c);
      assert before == if c in init then Summary(OfCode(cs, c)) else [] by {
        DistinctSnoc(codes, init);
        MergeByCode(init, cs, c);
      }
      assert c in codes <==> c in init || c == last by {
        assert codes == init + [last];
      }
      if c == last {
        assert c !in init by {
          DistinctSnoc(codes, init);
        }
        assert OfCode(Merge(codes, cs), c) == before + Summary(OfCode(cs, c)) by {
          MergeStep(codes, init, cs, c);
        }
        assert before + Summary(OfCode(cs, c)) == Summary(OfCode(cs, c));
      } else {
        assert OfCode(Merge(codes, cs), c) == before by {
          MergeStep(codes, init, cs, c);
        }
      }
    }
  }

  /** The last code of the loop adds the entries of its own code only. */
  lemma MergeStep(codes: seq<string>, init: seq<string>, cs: seq<Language>, c: string)
    requires codes != [] && init == codes[..|codes| - 1]
    ensures c == codes[|codes| - 1] ==> OfCode(Merge(codes, cs), c) == OfCode(Merge(init, cs), c) + Summary(OfCode(cs, c))
    ensures c != codes[|codes| - 1] ==> OfCode(Merge(codes, cs), c) == OfCode(Merge(init, cs), c)
  {
    var last := codes[|codes| - 1];
    var summary := Summary(OfCode(cs, last));
    OfCodeAppend(Merge(init, cs), summary, c);
    SummaryOfOneCode(OfCode(cs, last), last);
    OfCodeOfOneCode(summary, last, c);
    if c != last {
      assert OfCode(Merge(init, cs), c) + [] == OfCode(Merge(init, cs), c);
    }
  }

  lemma DistinctSnoc(codes: seq<string>, init: seq<string>)
    requires Distinct(codes) && codes != [] && init == codes[..|codes| - 1]
    ensures Distinct(init) && codes[|codes| - 1] !in init
  {
    forall i | 0 <= i < |init| ensures init[i] != codes[|codes| - 1] {
      assert init[i] == codes[i];
    }
  }

  /** A merge over distinct codes has at most one entry per code. */
  lemma MergeOnePerCode(codes: seq<string>, cs: seq<Language>, c: string)
    requires Distinct(codes)
    ensures |OfCode(Merge(codes, cs), c)| <= 1
  {
    MergeByCode(codes, cs, c);
    SummaryOfOneCode(OfCode(cs, c), c);
  }

  /** The codes of a list of candidates, in order. */
  function CodesOf(ls: seq<Language>): (codes: seq<string>)
    ensures |codes| == |ls|
    ensures forall i :: 0 <= i < |ls| ==> codes[i] == ls[i].code
  {
    seq(|ls|, i requires 0 <= i < |ls| => ls[i].code)
  }

  /** The codes among `codes` that some candidate carries, in the order of `codes`. */
  function Present(codes: seq<string>, cs: seq<Language>): seq<string>
  {
    if codes == [] then []
    else Present(codes[..|codes| - 1], cs) + (if OfCode(cs, codes[|codes| - 1]) != [] then [codes[|codes| - 1]] else [])
  }

  /** The merged list follows the order of the codes, one entry for each code that was detected. */
  lemma {:induction false} MergeFollowsCodeOrder(codes: seq<string>, cs: seq<Language>)
    ensures CodesOf(Merge(codes, cs)) == Present(codes, cs)
  {
    if codes != [] {
      var init := codes[..|codes| - 1];
      var last := codes[|codes| - 1];
      MergeFollowsCodeOrder(init, cs);
      var summary := Summary(OfCode(cs, last));
      SummaryOfOneCode(OfCode(cs, last), last);
      assert CodesOf(Merge(init, cs) + summary) == CodesOf(Merge(init, cs)) + CodesOf(summary);
    }
  }

  lemma {:induction false} TotalLengthAppend(a: seq<Language>, b: seq<Language>)
    ensures TotalLength(a + b) == TotalLength(a) + TotalLength(b)
  {
    if a == [] {
      assert a + b == b;
    } else {
      assert (a + b)[0] == a[0] && (a + b)[1..] == a[1..] + b;
      TotalLengthAppend(a[1..], b);
    }
  }

  /** A summary keeps the total length of the candidates it replaces. */
  lemma SummaryKeepsLength(lc: seq<Language>)
    ensures TotalLength(Summary(lc)) == TotalLength(lc)
  {
    if |lc| > 1 {
      assert TotalLength(Summary(lc)) == TotalLength(lc) + TotalLength([]);
    }
  }

  predicate AllSupported(cs: seq<Language>) {
    forall i :: 0 <= i < |cs| ==> cs[i].code in LangCodes
  }

  lemma {:induction false} SplitLengthByCode(cs: seq<Language>)
    requires AllSupported(cs)
    ensures TotalLength(cs) == TotalLength(OfCode(cs, "en")) + TotalLength(OfCode(cs, "mr"))
  {
    if cs != [] {
      assert AllSupported(cs[1..]);
      SplitLengthByCode(cs[1..]);
      var en := if cs[0].code == "en" then [cs[0]] else [];
      var mr := if cs[0].code == "mr" then [cs[0]] else [];
      TotalLengthAppend(en, OfCode(cs[1..], "en"));
      TotalLengthAppend(mr, OfCode(cs[1..], "mr"));
    }
  }

  lemma MergeOfTwo(a: string, b: string, cs: seq<Language>)
    ensures Merge([a, b], cs) == Summary(OfCode(cs, a)) + Summary(OfCode(cs, b))
  {
    assert [a, b][..1] == [a];
    assert [a][..0] == [];
    assert Merge([a], cs) == Summary(OfCode(cs, a));
  }

  lemma MergeOfLangCodes(cs: seq<Language>)
    ensures Merge(LangCodes, cs) == Summary(OfCode(cs, "en")) + Summary(OfCode(cs, "mr"))
  {
    MergeOfTwo("en", "mr", cs);
  }

  /** Merging candidates of supported codes keeps their total length. */
  lemma MergeKeepsTotalLength(cs: seq<Language>)
    requires AllSupported(cs)
    ensures TotalLength(Merge(LangCodes, cs)) == TotalLength(cs)
  {
    MergeOfLangCodes(cs);
    TotalLengthAppend(Summary(OfCode(cs, "en")), Summary(OfCode(cs, "mr")));
    SummaryKeepsLength(OfCode(cs, "en"));
    SummaryKeepsLength(OfCode(cs, "mr"));
    SplitLengthByCode(cs);
  }

  /** Candidates of supported codes never merge into nothing. */
  lemma MergeNonEmpty(cs: seq<Language>)
    requires cs != [] && AllSupported(cs)
    ensures Merge(LangCodes, cs) != []
  {
    MergeOfLangCodes(cs);
    OfCodeComplete(cs, cs[0].code, 0);
    SummaryOfOneCode(OfCode(cs, "en"), "en");
    SummaryOfOneCode(OfCode(cs, "mr"), "mr");
  }

  lemma {:induction false} TotalConfidenceBounds(lc: seq<Language>)
    requires forall i :: 0 <= i < |lc| ==> 0.0 <= lc[i].confidence <= 100.0
    ensures 0.0 <= TotalConfidence(lc) <= 100.0 * |lc| as real
  {
    if lc != [] {
      TotalConfidenceBounds(lc[1..]);
    }
  }

  /** The mean of percentages is a percentage. */
  lemma SummaryConfidenceBounds(lc: seq<Language>)
    requires forall i :: 0 <= i < |lc| ==> 0.0 <= lc[i].confidence <= 100.0
    ensures forall i :: 0 <= i < |Summary(lc)| ==> 0.0 <= Summary(lc)[i].confidence <= 100.0
  {
    if |lc| > 1 {
      TotalConfidenceBounds(lc);
      var n := |lc| as real;
      var m := TotalConfidence(lc) / n;
      assert m * n == TotalConfidence(lc);
    }
  }

  // ---------------------------------------------------------------------------
  // The candidates

  /** Every candidate carries one of the loaded codes (the English fallback included). */
  lemma {:induction false} CandidatesSupported(texts: seq<string>, estimate: string -> Estimate)
    ensures AllSupported(Candidates(texts, estimate))
  {
    if texts != [] {
      var init := texts[..|texts| - 1];
      var t := texts[|texts| - 1];
      CandidatesSupported(init, estimate);
      FragmentSupported(t, estimate);
      assert Candidates(texts, estimate) == Candidates(init, estimate) + FragmentCandidates(t, estimate);
    }
  }

  lemma FragmentSupported(t: string, estimate: string -> Estimate)
    ensures AllSupported(FragmentCandidates(t, estimate))
  {
    var d := Detect.Detect(LangCodes, t, estimate);
    if d.Ok? {
      assert forall i :: 0 <= i < |d.value| ==> d.value[i].code in LangCodes by {
        DetectCodesSupported(LangCodes, t, estimate);
      }
      var w := WithLength(d.value, |t|);
      assert forall i :: 0 <= i < |w| ==> w[i].code == d.value[i].code;
    }
  }

  /** The detector raised on the fragment `t`. */
  predicate Raises(t: string, estimate: string -> Estimate) {
    Detect.Detect(LangCodes, t, estimate).Err?
  }

  lemma FragmentEmptyIffRaised(t: string, estimate: string -> Estimate)
    ensures FragmentCandidates(t, estimate) == [] <==> Raises(t, estimate)
  {
  }

  /** No candidate is found exactly when the detector raised on every fragment. */
  lemma {:induction false} NoCandidatesIffAllRaised(texts: seq<string>, estimate: string -> Estimate)
    ensures Candidates(texts, estimate) == [] <==> forall i :: 0 <= i < |texts| ==> Raises(texts[i], estimate)
  {
    if texts != [] {
      var init := texts[..|texts| - 1];
      var last := texts[|texts| - 1];
      NoCandidatesIffAllRaised(init, estimate);
      FragmentEmptyIffRaised(last, estimate);
      assert Candidates(texts, estimate) == Candidates(init, estimate) + FragmentCandidates(last, estimate);
      Sequences.AllSnoc(texts, init, t => Raises(t, estimate));
    }
  }

  /** A fragment on which the detector raised adds nothing, and the later fragments are still handled. */
  lemma RaisedFragmentSkipped(texts: seq<string>, t: string, estimate: string -> Estimate)
    requires Raises(t, estimate)
    ensures Candidates(texts + [t], estimate) == Candidates(texts, estimate)
  {
    var all := texts + [t];
    assert all[..|all| - 1] == texts && all[|all| - 1] == t;
    assert FragmentCandidates(t, estimate) == [] by {
      FragmentEmptyIffRaised(t, estimate);
    }
    assert Candidates(all, estimate) == Candidates(texts, estimate) + [];
  }

  // ---------------------------------------------------------------------------
  // The answer

  /** When every fragment raised (or there are no fragments) the answer is English with zero confidence. */
  lemma AllRaisedAnswersEnglish(text: OneOrMany<string>, estimate: string -> Estimate)
    requires forall t :: t in Fragments(text) ==> Raises(t, estimate)
    ensures DetectLanguagesSpec(text, estimate) == [Detection(0.0, "en")]
  {
    NoCandidatesIffAllRaised(Fragments(text), estimate);
  }

  /** A single blank text is answered with English at zero confidence. */
  lemma BlankTextAnswersEnglish(t: string, estimate: string -> Estimate)
    requires IsBlank(t)
    ensures DetectLanguagesSpec(One(t), estimate) == [Detection(0.0, "en")]
  {
    var cs := Candidates([t], estimate);
    assert [t][..0] == [];
    assert Candidates([], estimate) == [];
    assert cs == FragmentCandidates(t, estimate);
    assert Detect.Detect(LangCodes, t, estimate) == Ok([Fallback()]);
    assert WithLength([Fallback()], |t|) == [Fallback().(textLength := |t|)];
    assert cs == [Fallback().(textLength := |t|)];
    assert SortByWeight(cs, TotalLength(cs)) == cs;
  }

  /** The answer is never empty, and lists the candidates heaviest first. */
  lemma AnswerRanked(text: OneOrMany<string>, estimate: string -> Estimate)
    ensures DetectLanguagesSpec(text, estimate) != []
    ensures NonIncreasing(Ranked(text, estimate), TotalLength(Candidates(Fragments(text), estimate)))
  {
    var cs := Candidates(Fragments(text), estimate);
    var agg := Aggregate(text.Many?, cs);
    SortNonIncreasing(agg, TotalLength(cs));
    if cs != [] {
      if text.Many? {
        CandidatesSupported(Fragments(text), estimate);
        MergeNonEmpty(cs);
      }
      assert agg != [];
      assert |multiset(SortByWeight(agg, TotalLength(cs)))| == |multiset(agg)|;
    }
  }

  /**
    A batch answer holds the merged candidates: one entry per detected code,
    which for a code seen more than once carries the mean confidence and the
    summed text length; the weights use the same total before and after.
  */
  lemma BatchAnswerMerged(texts: seq<string>, estimate: string -> Estimate, c: string)
    requires Candidates(texts, estimate) != []
    ensures multiset(Ranked(Many(texts), estimate)) == multiset(Merge(LangCodes, Candidates(texts, estimate)))
    ensures OfCode(Merge(LangCodes, Candidates(texts, estimate)), c) ==
              if c in LangCodes then Summary(OfCode(Candidates(texts, estimate), c)) else []
    ensures |OfCode(Merge(LangCodes, Candidates(texts, estimate)), c)| <= 1
    ensures TotalLength(Merge(LangCodes, Candidates(texts, estimate))) == TotalLength(Candidates(texts, estimate))
  {
    var cs := Candidates(texts, estimate);
    CandidatesSupported(texts, estimate);
    MergeNonEmpty(cs);
    assert Distinct(LangCodes);
    MergeByCode(LangCodes, cs, c);
    MergeOnePerCode(LangCodes, cs, c);
    MergeKeepsTotalLength(cs);
  }

  /** A single text is not merged: its answer is a reordering of its own candidates, at most three. */
  lemma SingleTextNotMerged(t: string, estimate: string -> Estimate)
    requires Candidates([t], estimate) != []
    ensures multiset(Ranked(One(t), estimate)) == multiset(FragmentCandidates(t, estimate))
    ensures 1 <= |DetectLanguagesSpec(One(t), estimate)| <= 3
  {
    assert [t][..0] == [];
    var cs := Candidates([t], estimate);
    assert cs == FragmentCandidates(t, estimate);
    assert |multiset(Ranked(One(t), estimate))| == |multiset(cs)|;
  }
}
