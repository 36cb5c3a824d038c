/**
  Conversion between ISO language codes and the codes of the translation
  model (`iso2model` / `model2iso` in libretranslate/language.py). Both alias
  tables are empty in this repository, so both conversions come down to
  lower-casing.
*/
module LanguageAliases {
  import opened Wrappers
  import opened PyStr
  import opened Json

  /** `aliases`: ISO code to model code (empty). */
  const Aliases: map<string, string> := map[]
  /** `rev_aliases`: model code to ISO code (empty). */
  const RevAliases: map<string, string> := map[]

  /** `table.get(code, code)`. */
  function Lookup(table: map<string, string>, code: string): string
  {
    if code in table then table[code] else code
  }

  /** Every string in `v`, and in the lists nested in it, has no upper-case letter. */
  predicate LowerCased(v: Value)
  {
    match v
    case JStr(s) => forall i :: 0 <= i < |s| ==> !IsUpperChar(s[i])
    case JList(items) => forall i :: 0 <= i < |items| ==> LowerCased(items[i])
    case _ => true
  }

  /** `b` has the shape of `a`: strings where `a` has strings, lists of the same length, the rest identical. */
  predicate SameShape(a: Value, b: Value)
  {
    match a
    case JStr(_) => b.JStr?
    case JList(items) =>
      b.JList? && |b.items| == |items| && forall i :: 0 <= i < |items| ==> SameShape(items[i], b.items[i])
    case _ => b == a
  }

  /** A language code or a (nested) list of them. */
  predicate IsCodeList(v: Value)
  {
    match v
    case JStr(_) => true
    case JList(items) => forall i :: 0 <= i < |items| ==> IsCodeList(items[i])
    case _ => false
  }

  /**
    `iso2model`: lists are converted element by element, strings are lower-cased
    and looked up in `rev_aliases`, any other value is returned unchanged.
  */
  function Iso2Model(lang: Value): (r: Value)
    ensures SameShape(lang, r)
    ensures LowerCased(r)
    ensures lang.JStr? ==> r == JStr(Lower(lang.s))
    ensures lang.JList? ==>
              r.JList? && |r.items| == |lang.items| &&
              forall i :: 0 <= i < |lang.items| ==> r.items[i] == Iso2Model(lang.items[i])
  {
    match lang
    case JList(items) => JList(seq(|items|, i requires 0 <= i < |items| => Iso2Model(items[i])))
    case JStr(s) => JStr(Lookup(RevAliases, Lower(s)))
    case _ => lang
  }

  /**
    The value of a list comprehension whose elements may raise: the values in
    order, or the first exception raised.
  */
  function Collect(rs: seq<Result<Value, string>>): (r: Result<seq<Value>, string>)
    ensures r.Ok? <==> forall i :: 0 <= i < |rs| ==> rs[i].Ok?
    ensures r.Ok? ==> |r.value| == |rs| && forall i :: 0 <= i < |rs| ==> rs[i] == Ok(r.value[i])
    ensures r.Err? ==> exists i :: 0 <= i < |rs| && rs[i] == Err(r.error) && forall j :: 0 <= j < i ==> rs[j].Ok?
  {
    if rs == [] then Ok([])
    else
      match rs[0]
      case Err(e) => Err(e)
      case Ok(v) =>
        var rest := Collect(rs[1..]);
        assert forall i :: 1 <= i < |rs| ==> rs[i] == rs[1..][i - 1];
        match rest
        case Ok(vs) => Ok([v] + vs)
        case Err(e) =>
          ghost var k :| 0 <= k < |rs[1..]| && rs[1..][k] == Err(e) && forall j :: 0 <= j < k ==> rs[1..][j].Ok?;
          assert rs[k + 1] == Err(e) && forall j :: 0 <= j < k + 1 ==> rs[j].Ok?;
          Err(e)
  }

  /**
    `model2iso`: a dict with a "language" key is copied with that entry converted,
    lists are converted element by element, strings are lower-cased and looked up
    in `aliases`; anything else has no `lower()` and raises `AttributeError`.
  */
  function Model2Iso(lang: Value): (r: Result<Value, string>)
    ensures lang.JStr? ==> r == Ok(JStr(Lower(lang.s)))
    ensures lang.JList? ==> (r.Ok? <==> forall i :: 0 <= i < |lang.items| ==> Model2Iso(lang.items[i]).Ok?)
    ensures lang.JList? && r.Ok? ==>
              r.value.JList? && |r.value.items| == |lang.items| &&
              forall i :: 0 <= i < |lang.items| ==> Model2Iso(lang.items[i]) == Ok(r.value.items[i])
    ensures lang.JObject? && "language" in lang.fields ==>
              (r.Ok? <==> Model2Iso(lang.fields["language"]).Ok?) &&
              (r.Err? ==> r == Model2Iso(lang.fields["language"]))
    ensures lang.JObject? && "language" in lang.fields && r.Ok? ==>
              r.value.JObject? && r.value.fields.Keys == lang.fields.Keys &&
              r.value.fields["language"] == Model2Iso(lang.fields["language"]).value &&
              forall k :: k in lang.fields && k != "language" ==> r.value.fields[k] == lang.fields[k]
    ensures !lang.JStr? && !lang.JList? && !(lang.JObject? && "language" in lang.fields) ==>
              r == Err(NoAttribute(lang, "lower"))
  {
    match lang
    case JObject(fields) =>
      if "language" in fields then
        match Model2Iso(fields["language"])
        case Ok(code) => Ok(JObject(fields["language" := code]))
        case Err(e) => Err(e)
      else Err(NoAttribute(lang, "lower"))
    case JList(items) =>
      var rs := seq(|items|, i requires 0 <= i < |items| => Model2Iso(items[i]));
      assert forall i :: 0 <= i < |items| ==> rs[i] == Model2Iso(items[i]);
      var c := Collect(rs);
      if c.Ok? then Ok(JList(c.value)) else Err(c.error)
    case JStr(s) => Ok(JStr(Lookup(Aliases, Lower(s))))
    case _ => Err(NoAttribute(lang, "lower"))
  }

  /** A list whose conversion raises raises the exception of its first element that does not convert. */
  lemma {:induction false} Model2IsoRaisesFirst(lang: Value)
    requires lang.JList? && Model2Iso(lang).Err?
    ensures exists i :: 0 <= i < |lang.items| && Model2Iso(lang.items[i]) == Model2Iso(lang) &&
              forall j :: 0 <= j < i ==> Model2Iso(lang.items[j]).Ok?
  {
    var items := lang.items;
    var rs := seq(|items|, i requires 0 <= i < |items| => Model2Iso(items[i]));
    var c := Collect(rs);
    assert c.Err? && Model2Iso(lang) == Err(c.error);
    var k :| 0 <= k < |rs| && rs[k] == Err(c.error) && forall j :: 0 <= j < k ==> rs[j].Ok?;
    PrefixConverts(items, rs, k);
    assert Model2Iso(items[k]) == Model2Iso(lang);
  }

  lemma PrefixConverts(items: seq<Value>, rs: seq<Result<Value, string>>, k: nat)
    requires |rs| == |items| && k <= |items|
    requires forall i :: 0 <= i < |items| ==> rs[i] == Model2Iso(items[i])
    requires forall j :: 0 <= j < k ==> rs[j].Ok?
    ensures forall j :: 0 <= j < k ==> Model2Iso(items[j]).Ok?
  {
  }

  /** Lower-casing twice is lower-casing once. */
  lemma LowerIdempotent(s: string)
    ensures Lower(Lower(s)) == Lower(s)
  {
  }

  /** `iso2model` is idempotent: converting a model code again changes nothing. */
  lemma {:induction false} Iso2ModelIdempotent(v: Value)
    ensures Iso2Model(Iso2Model(v)) == Iso2Model(v)
  {
    match v
    case JList(items) =>
      var once := Iso2Model(v).items;
      forall i | 0 <= i < |items| ensures Iso2Model(once[i]) == once[i] {
        Iso2ModelIdempotent(items[i]);
      }
    case JStr(s) => LowerIdempotent(s);
    case _ =>
  }

  /**
    On codes and lists of codes both directions agree: each is lower-casing,
    so `model2iso` never raises on them and keeps their shape.
  */
  lemma {:induction false} DirectionsAgree(v: Value)
    requires IsCodeList(v)
    ensures Model2Iso(v) == Ok(Iso2Model(v))
    ensures Model2Iso(v).Ok? && SameShape(v, Model2Iso(v).value)
  {
    match v
    case JList(items) =>
      forall i | 0 <= i < |items| ensures Model2Iso(items[i]) == Ok(Iso2Model(items[i])) {
        DirectionsAgree(items[i]);
      }
      assert Model2Iso(v).value.items == Iso2Model(v).items;
    case JStr(s) =>
  }

  /** Round trip: a code converted to the model's form converts back to itself. */
  lemma RoundTrip(v: Value)
    requires IsCodeList(v)
    ensures Model2Iso(Iso2Model(v)) == Ok(Iso2Model(v))
  {
    DirectionsAgree(v);
    CodeListPreserved(v);
    DirectionsAgree(Iso2Model(v));
    Iso2ModelIdempotent(v);
  }

  lemma {:induction false} CodeListPreserved(v: Value)
    requires IsCodeList(v)
    ensures IsCodeList(Iso2Model(v))
  {
    match v
    case JList(items) =>
      forall i | 0 <= i < |items| ensures IsCodeList(Iso2Model(items[i])) {
        CodeListPreserved(items[i]);
      }
    case JStr(s) =>
  }
}
