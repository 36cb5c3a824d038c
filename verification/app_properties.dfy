/** Properties of the `/translate` endpoint: the order of its guards, the shape of its answers, blank texts and echoes. */
module AppProperties {
  import opened Wrappers
  import opened PyStr
  import opened Json
  import opened App
  import Sequences

  /** The lower-cased code under `key`, or the code "" when the body has none. */
  function Code(fields: map<string, Value>, key: string): string
    requires Get(fields, key, JStr("")).JStr?
  {
    Lower(Get(fields, key, JStr("")).s)
  }

  /** A body is accepted exactly when it is an object whose guards all pass, and then the codes are lower-cased. */
  lemma AcceptedIff(data: Value)
    ensures Validate(data).Ok? <==>
              !IsFalsy(data) && data.JObject? &&
              Get(data.fields, "source", JStr("")).JStr? && Get(data.fields, "target", JStr("")).JStr? &&
              !IsFalsy(Get(data.fields, "q", JNull)) &&
              Code(data.fields, "source") in Supported && Code(data.fields, "target") in Supported &&
              Code(data.fields, "source") != Code(data.fields, "target")
    ensures Validate(data).Ok? ==>
              Validate(data).value ==
                Request(Get(data.fields, "q", JNull), Code(data.fields, "source"), Code(data.fields, "target"))
  {
  }

  /**
    For an object whose codes are strings, the guards fire in the order of the
    source: missing `q`, then a missing code, then an unsupported one, then
    equal codes; each is answered with status 400.
  */
  lemma ValidationOrder(data: Value)
    requires data.JObject? && data.fields != map[]
    requires Get(data.fields, "source", JStr("")).JStr? && Get(data.fields, "target", JStr("")).JStr?
    ensures IsFalsy(Get(data.fields, "q", JNull)) ==> Validate(data) == Err(Failure(400, MissingQ))
    ensures !IsFalsy(Get(data.fields, "q", JNull)) && (Code(data.fields, "source") == [] || Code(data.fields, "target") == []) ==>
              Validate(data) == Err(Failure(400, MissingLanguage))
    ensures !IsFalsy(Get(data.fields, "q", JNull)) && Code(data.fields, "source") != [] && Code(data.fields, "target") != [] &&
            (Code(data.fields, "source") !in Supported || Code(data.fields, "target") !in Supported) ==>
              Validate(data) == Err(Failure(400, Unsupported))
    ensures !IsFalsy(Get(data.fields, "q", JNull)) && Code(data.fields, "source") in Supported &&
            Code(data.fields, "source") == Code(data.fields, "target") ==>
              Validate(data) == Err(Failure(400, SameLanguage))
  {
  }

  /** A missing or empty body is refused with status 400 before anything else is looked at. */
  lemma EmptyBodyRejected(data: Value)
    requires IsFalsy(data)
    ensures Validate(data) == Err(Failure(400, NoJsonData))
  {
  }

  /** A code given in capitals is accepted and reported lower-cased. */
  lemma CapitalCodesAccepted(q: Value, source: string, target: string)
    requires !IsFalsy(q) && Lower(source) in Supported && Lower(target) in Supported && Lower(source) != Lower(target)
    ensures Validate(JObject(map["q" := q, "source" := JStr(source), "target" := JStr(target)])) ==
              Ok(Request(q, Lower(source), Lower(target)))
  {
    var fields := map["q" := q, "source" := JStr(source), "target" := JStr(target)];
    assert "q" in fields && "source" in fields && "target" in fields;
    assert fields["q"] == q && fields["source"] == JStr(source) && fields["target"] == JStr(target);
  }

  lemma UpperCaseEnglish()
    ensures Lower("EN") == "en" && Lower("MR") == "mr"
  {
    assert Lower("EN")[0] == 'e' && Lower("EN")[1] == 'n';
    assert Lower("MR")[0] == 'm' && Lower("MR")[1] == 'r';
  }

  /** `{"q": q, "source": "EN", "target": "MR"}` is an English-to-Marathi request. */
  lemma EnToMrInCapitals(q: Value)
    requires !IsFalsy(q)
    ensures Validate(JObject(map["q" := q, "source" := JStr("EN"), "target" := JStr("MR")])) == Ok(Request(q, "en", "mr"))
  {
    UpperCaseEnglish();
    CapitalCodesAccepted(q, "EN", "MR");
  }

  /** An empty or blank text gives "" without running the pipeline: any two pipelines agree on it. */
  lemma BlankTextNeedsNoModel(p1: Pipeline, p2: Pipeline, t: Value)
    requires IsFalsy(t) || (t.JStr? && IsBlank(t.s))
    ensures TranslateOne(p1, t) == TranslateOne(p2, t) == Ok("")
  {
  }

  /** When the pipeline returns no translation the text is given back unchanged. */
  lemma EmptyOutputEchoes(p: Pipeline, s: string)
    requires !IsBlank(s) && p.run(s) == Outputs([])
    ensures TranslateOne(p, JStr(s)) == Ok(s)
  {
  }

  /** The loop gives a translation for every text, in order, unless translating one of them raised. */
  lemma TranslateAllElementwise(p: Pipeline, texts: seq<Value>)
    ensures TranslateAll(p, texts).Ok? <==> forall i :: 0 <= i < |texts| ==> TranslateOne(p, texts[i]).Ok?
    ensures TranslateAll(p, texts).Ok? ==>
              forall i :: 0 <= i < |texts| ==> TranslateOne(p, texts[i]) == Ok(TranslateAll(p, texts).value[i])
  {
    TranslateAllSucceeds(p, texts);
    if TranslateAll(p, texts).Ok? {
      TranslateAllValues(p, texts);
    }
  }

  /** The loop stops at the first text that raises, and the request fails with that exception. */
  lemma TranslateAllFailsAt(p: Pipeline, texts: seq<Value>, i: nat)
    requires i < |texts| && TranslateOne(p, texts[i]).Err?
    requires forall j :: 0 <= j < i ==> TranslateOne(p, texts[j]).Ok?
    ensures TranslateAll(p, texts) == Err(TranslateOne(p, texts[i]).error)
  {
    TranslateAllSucceeds(p, texts[..i]);
    assert texts[..i + 1][..i] == texts[..i];
    FirstErrorStands(p, texts, i + 1);
  }

  /**
    A pipeline exception on a non-blank text, after every earlier text was
    translated, fails the whole request with status 500 and the exception's
    message: no text is echoed and earlier translations are lost.
  */
  lemma PipelineFailureFailsRequest(p: Pipeline, req: Request, i: nat, m: string)
    requires i < |Texts(req.q)| && Texts(req.q)[i].JStr? && !IsBlank(Texts(req.q)[i].s)
    requires p.run(Texts(req.q)[i].s) == Failed(m)
    requires forall j :: 0 <= j < i ==> TranslateOne(p, Texts(req.q)[j]).Ok?
    ensures Respond(p, req) == Failure(500, m)
  {
    TranslateAllFailsAt(p, Texts(req.q), i);
  }

  lemma {:induction false} TranslateAllSucceeds(p: Pipeline, texts: seq<Value>)
    ensures TranslateAll(p, texts).Ok? <==> forall i :: 0 <= i < |texts| ==> TranslateOne(p, texts[i]).Ok?
  {
    if texts != [] {
      var init := texts[..|texts| - 1];
      TranslateAllSucceeds(p, init);
      Sequences.AllSnoc(texts, init, t => TranslateOne(p, t).Ok?);
    }
  }

  lemma {:induction false} TranslateAllValues(p: Pipeline, texts: seq<Value>)
    requires TranslateAll(p, texts).Ok?
    ensures forall i :: 0 <= i < |texts| ==> TranslateOne(p, texts[i]) == Ok(TranslateAll(p, texts).value[i])
  {
    if texts != [] {
      var init := texts[..|texts| - 1];
      TranslateAllValues(p, init);
      var last := TranslateOne(p, texts[|texts| - 1]);
      var ts := TranslateAll(p, texts).value;
      assert last.Ok? && ts == TranslateAll(p, init).value + [last.value];
      forall i | 0 <= i < |texts| ensures TranslateOne(p, texts[i]) == Ok(ts[i]) {
        if i < |init| {
          assert texts[i] == init[i];
        } else {
          assert texts[i] == texts[|texts| - 1];
        }
      }
    }
  }

  /**
    A successful answer has the shape of `q`: a list of the same length for a
    list, element by element the translation of the corresponding text, and a
    single string for a single text; it always reports the source language
    with confidence 100.
  */
  lemma AnswerShape(p: Pipeline, req: Request)
    requires Respond(p, req).Success?
    ensures Respond(p, req).confidence == 100 && Respond(p, req).language == req.source
    ensures req.q.JList? ==>
              Respond(p, req).translatedText.Many? &&
              |Respond(p, req).translatedText.items| == |req.q.items| &&
              forall i :: 0 <= i < |req.q.items| ==>
                TranslateOne(p, req.q.items[i]) == Ok(Respond(p, req).translatedText.items[i])
    ensures !req.q.JList? ==>
              Respond(p, req).translatedText.One? && TranslateOne(p, req.q) == Ok(Respond(p, req).translatedText.item)
  {
    TranslateAllElementwise(p, Texts(req.q));
  }

  /** Any answer of the endpoint is a success reporting a supported source language, or status 400 or 500. */
  lemma AnswerStatus(service: TranslationService, data: Value, cached: Option<Pipeline>)
    ensures service.Answer(data, cached).Success? ==>
              service.Answer(data, cached).confidence == 100 &&
              service.Answer(data, cached).language == Validate(data).value.source &&
              service.Answer(data, cached).language in Supported
    ensures service.Answer(data, cached).Failure? ==>
              service.Answer(data, cached).status == 400 || service.Answer(data, cached).status == 500
    ensures Validate(data).Err? ==> service.Answer(data, cached) == Validate(data).error
  {
  }

  /** Once a model is cached, a valid request is answered by it, whatever loading would give. */
  lemma CachedModelServes(service: TranslationService, data: Value, p: Pipeline)
    requires Validate(data).Ok?
    ensures service.Answer(data, Some(p)) == Respond(p, Validate(data).value)
  {
  }
}
