/**
  The `/translate` endpoint of app.py and the model cache behind it. A request
  body is checked by a fixed chain of guards; the model is loaded on first use
  and kept; each text of the request is translated in turn, blank texts
  giving "" and an empty model output giving the text back; the answer has
  the shape of the request (one text or a list of texts).
*/
module App {
  import opened Wrappers
  import opened PyStr
  import opened Json

  /** The output of the translation pipeline on one text: its candidate translations, or the exception it raised. */
  datatype PipelineOutput = Outputs(translations: seq<string>) | Failed(message: string)

  /** The transformers `pipeline("translation", ...)`; `max_length=512` is part of it. */
  datatype Pipeline = Pipeline(run: string -> PipelineOutput)

  /** A request that passed validation: the `q` value and the lower-cased codes. */
  datatype Request = Request(q: Value, source: string, target: string)

  /** The reply of the endpoint: status 200 with the translation, or an error status and message. */
  datatype Reply =
    | Success(translatedText: OneOrMany<string>, confidence: int, language: string)
    | Failure(status: int, message: string)

  const NoJsonData: string := "No JSON data provided"
  const MissingQ: string := "Missing 'q' parameter"
  const MissingLanguage: string := "Missing 'source' or 'target' parameter"
  const Unsupported: string := "Supported languages: 'en', 'mr'"
  const SameLanguage: string := "Source and target languages must be different"
  const ModelNotFound: string := "Model not found at models/en-mr-marianmt. Run: python scripts/download_marianmt.py"

  /** The two codes the endpoint accepts. */
  const Supported: seq<string> := ["en", "mr"]

  /** `data.get(key, '').lower()`: the lower-cased string, or the exception when the value is not a string. */
  function LowerField(fields: map<string, Value>, key: string): (r: Result<string, string>)
    ensures r.Ok? <==> Get(fields, key, JStr("")).JStr?
    ensures r.Ok? ==> r.value == Lower(Get(fields, key, JStr("")).s)
  {
    var v := Get(fields, key, JStr(""));
    if v.JStr? then Ok(Lower(v.s)) else Err(NoAttribute(v, "lower"))
  }

  /**
    The guards of `translate`, in the order the source applies them. An
    exception raised while reading the body (not an object, a code that is not
    a string) is caught by the handler and answered with status 500.
  */
  function Validate(data: Value): (r: Result<Request, Reply>)
    ensures r.Err? ==> r.error.Failure? && (r.error.status == 400 || r.error.status == 500)
    ensures r.Ok? ==> r.value.source in Supported && r.value.target in Supported && r.value.source != r.value.target
    ensures r.Ok? ==> !IsFalsy(r.value.q)
  {
    if IsFalsy(data) then Err(Failure(400, NoJsonData))
    else if !data.JObject? then Err(Failure(500, NoAttribute(data, "get")))
    else
      var text := Get(data.fields, "q", JNull);
      match LowerField(data.fields, "source")
      case Err(m) => Err(Failure(500, m))
      case Ok(source) =>
        match LowerField(data.fields, "target")
        case Err(m) => Err(Failure(500, m))
        case Ok(target) =>
          if IsFalsy(text) then Err(Failure(400, MissingQ))
          else if source == [] || target == [] then Err(Failure(400, MissingLanguage))
          else if source !in Supported || target !in Supported then Err(Failure(400, Unsupported))
          else if source == target then Err(Failure(400, SameLanguage))
          else Ok(Request(text, source, target))
  }

  /**
    The translation of one element of `texts`: "" for a falsy or blank text
    without running the pipeline, the first output otherwise, or the text
    itself when the pipeline returned nothing. `Err` is the message of an
    exception: one the pipeline raised, or the missing `strip` of a truthy
    value that is not a string.
  */
  function TranslateOne(p: Pipeline, t: Value): (r: Result<string, string>)
    ensures IsFalsy(t) ==> r == Ok([])
    ensures t.JStr? && IsBlank(t.s) ==> r == Ok([])
    ensures !IsFalsy(t) && !t.JStr? ==> r == Err(NoAttribute(t, "strip"))
    ensures t.JStr? && !IsBlank(t.s) && p.run(t.s).Outputs? && p.run(t.s).translations != [] ==>
              r == Ok(p.run(t.s).translations[0])
    ensures t.JStr? && !IsBlank(t.s) && p.run(t.s).Failed? ==> r == Err(p.run(t.s).message)
  {
    if IsFalsy(t) then Ok([])
    else if !t.JStr? then Err(NoAttribute(t, "strip"))
    else if IsBlank(t.s) then Ok([])
    else
      match p.run(t.s)
      case Failed(m) => Err(m)
      case Outputs(results) => if results != [] then Ok(results[0]) else Ok(t.s)
  }

  /** The `translations` list after the loop, or the first exception raised in it. */
  function TranslateAll(p: Pipeline, texts: seq<Value>): (r: Result<seq<string>, string>)
    ensures r.Ok? ==> |r.value| == |texts|
  {
    if texts == [] then Ok([])
    else
      match TranslateAll(p, texts[..|texts| - 1])
      case Err(m) => Err(m)
      case Ok(ts) =>
        match TranslateOne(p, texts[|texts| - 1])
        case Err(m) => Err(m)
        case Ok(s) => Ok(ts + [s])
  }

  /** `texts = text if is_batch else [text]`. */
  function Texts(q: Value): seq<Value>
  {
    if q.JList? then q.items else [q]
  }

  /** The reply to a valid request once the model is available. */
  function Respond(p: Pipeline, req: Request): (r: Reply)
  {
    match TranslateAll(p, Texts(req.q))
    case Err(m) => Failure(500, m)
    case Ok(ts) =>
      if req.q.JList? then Success(Many(ts), 100, req.source)
      else Success(One(ts[0]), 100, req.source)
  }

  /** One pass of the loop body: the guard for blank texts, the pipeline call and the echo. */
  method TranslateFragment(p: Pipeline, t: Value) returns (r: Result<string, string>)
    ensures r == TranslateOne(p, t)
  {
    if IsFalsy(t) {
      return Ok("");
    }
    if !t.JStr? {
      return Err(NoAttribute(t, "strip"));
    }
    if Strip(t.s) == [] {
      return Ok("");
    }
    var result := p.run(t.s);
    if result.Failed? {
      return Err(result.message);
    }
    var translated := if result.translations != [] then result.translations[0] else t.s;
    return Ok(translated);
  }

  /** The loop over the texts; an exception ends it. */
  method TranslateTexts(p: Pipeline, texts: seq<Value>) returns (r: Result<seq<string>, string>)
    ensures r == TranslateAll(p, texts)
  {
    var translations: seq<string> := [];
    var i := 0;
    while i < |texts|
      invariant 0 <= i <= |texts|
      invariant TranslateAll(p, texts[..i]) == Ok(translations)
    {
      assert texts[..i + 1][..i] == texts[..i];
      var translated := TranslateFragment(p, texts[i]);
      if translated.Err? {
        FirstErrorStands(p, texts, i + 1);
        return Err(translated.error);
      }
      translations := translations + [translated.value];
      i := i + 1;
    }
    assert texts[..i] == texts;
    return Ok(translations);
  }

  /** Once an exception is raised, the texts after it do not change the outcome. */
  lemma {:induction false} FirstErrorStands(p: Pipeline, texts: seq<Value>, k: nat)
    requires k <= |texts| && TranslateAll(p, texts[..k]).Err?
    ensures TranslateAll(p, texts) == TranslateAll(p, texts[..k])
    decreases |texts| - k
  {
    if k < |texts| {
      assert texts[..k + 1][..k] == texts[..k];
      FirstErrorStands(p, texts, k + 1);
    } else {
      assert texts[..k] == texts;
    }
  }

  /**
    The process-wide state of app.py: the `translator` global, whether the
    model directory exists, and what building the pipeline from it gives
    (the pipeline, or the message of the exception raised while loading).
  */
  class TranslationService {
    var translator: Option<Pipeline>
    const modelDirExists: bool
    const build: Result<Pipeline, string>

    /** At start-up no model is loaded. */
    constructor (modelDirExists: bool, build: Result<Pipeline, string>)
      ensures translator == None
      ensures this.modelDirExists == modelDirExists && this.build == build
    {
      translator := None;
      this.modelDirExists := modelDirExists;
      this.build := build;
    }

    /** What `load_model()` answers when the cache holds `cached`. */
    function LoadOutcome(cached: Option<Pipeline>): (r: Result<Pipeline, string>)
      reads this
      ensures cached.Some? ==> r == Ok(cached.value)
      ensures cached.None? && !modelDirExists ==> r == Err(ModelNotFound)
      ensures cached.None? && modelDirExists ==> r == build
    {
      if cached.Some? then Ok(cached.value)
      else if !modelDirExists then Err(ModelNotFound)
      else build
    }

    /** `load_model()`: a set `translator` is returned as it is; otherwise the model is built and cached. */
    method LoadModel() returns (r: Result<Pipeline, string>)
      modifies this
      ensures r == LoadOutcome(old(translator))
      ensures old(translator).Some? ==> translator == old(translator)
      ensures old(translator).None? ==> translator == (if r.Ok? then Some(r.value) else None)
    {
      if translator.Some? {
        return Ok(translator.value);
      }
      if !modelDirExists {
        return Err(ModelNotFound);
      }
      if build.Err? {
        return Err(build.error);
      }
      translator := Some(build.value);
      return Ok(build.value);
    }

    /** The reply of `translate()` to the body `data` when the cache holds `cached`. */
    function Answer(data: Value, cached: Option<Pipeline>): Reply
      reads this
    {
      match Validate(data)
      case Err(reply) => reply
      case Ok(req) =>
        match LoadOutcome(cached)
        case Err(m) => Failure(500, m)
        case Ok(p) => Respond(p, req)
    }

    /** `translate()` on the body `data`. */
    method Translate(data: Value) returns (reply: Reply)
      modifies this
      ensures reply == Answer(data, old(translator))
      ensures Validate(data).Err? || old(translator).Some? ==> translator == old(translator)
      ensures Validate(data).Ok? && old(translator).None? ==>
                translator == (if LoadOutcome(None).Ok? then Some(LoadOutcome(None).value) else None)
    {
      var v := Validate(data);
      if v.Err? {
        return v.error;
      }
      var req := v.value;
      if translator.None? {
        var loaded := LoadModel();
        if loaded.Err? {
          return Failure(500, loaded.error);
        }
      }
      var p := translator.value;
      var isBatch := req.q.JList?;
      var texts := if isBatch then req.q.items else [req.q];
      var translations := TranslateTexts(p, texts);
      if translations.Err? {
        return Failure(500, translations.error);
      }
      if isBatch {
        return Success(Many(translations.value), 100, req.source);
      }
      return Success(One(translations.value[0]), 100, req.source);
    }
  }
}
