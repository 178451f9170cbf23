/**
 * The decisions of `ContentProcessor.verify_relevance`,
 * `_refine_latex_with_ai` and `_process_single_url`: which text is parsed,
 * when the sample question is sent for LaTeX repair, and when a verified
 * page becomes a candidate.
 *
 * The model service, `json.loads` and the existence of the prompt files are
 * inputs (`Services`); the prompts themselves are not modelled.
 */
module Verification {
  import opened Common
  import opened Text
  import opened Documents
  import opened ContextExtractor
  import opened ResponseText
  import opened Retry
  import opened Fetcher

  /** A JSON value as `json.loads` returns it, inside an object. Lists and
      objects only matter by their size, which decides their truthiness. */
  datatype JValue = JNull | JBool(b: bool) | JInt(i: int) | JString(s: string) | JCollection(size: nat)

  /** Python truthiness of a value. */
  predicate Truthy(v: JValue) {
    match v
    case JNull => false
    case JBool(b) => b
    case JInt(i) => i != 0
    case JString(s) => s != []
    case JCollection(size) => size > 0
  }

  /** The whole document `json.loads` returns: an object, or some other value. */
  datatype Json = Object(fields: map<string, JValue>) | NonObject(value: JValue)

  /** `json.loads(text)`: a value, or a `JSONDecodeError`. */
  datatype Decoded = DecodeError | Loaded(json: Json)

  /**
   * What the verifier consults besides the pages: whether `PROMPT/PROMPT.txt`
   * and `PROMPT/FIX_LATEX_PROMPT.txt` exist, the outcomes of the successive
   * calls of the model service for the verification and for the LaTeX repair,
   * and `json.loads`.
   */
  datatype Services = Services(
    promptAvailable: bool,
    verifyCalls: nat -> CallResult,
    fixPromptAvailable: bool,
    refineCalls: nat -> CallResult,
    decode: string -> Decoded)

  /** `max_retries` of the verification call. */
  const VerifyRetries := 5
  /** `max_retries` of the LaTeX repair call. */
  const RefineRetries := 3
  /** Samples shorter than this are not sent for repair. */
  const MinSampleLength := 5
  /** A candidate needs at least this score. */
  const MinScore := 5

  /** `dict.get(key, default)`. */
  function Get(fields: map<string, JValue>, key: string, default: JValue): JValue {
    if key in fields then fields[key] else default
  }

  /**
   * The parsing decision: the cleaned reply is parsed strictly; if that
   * raises, the greedy `{...}` span of the raw reply (not the cleaned one) is
   * parsed, and a failure there gives `None`.
   */
  function ParseResponse(raw: string, decode: string -> Decoded): Option<Json> {
    match decode(CleanJsonText(raw))
    case Loaded(json) => Some(json)
    case DecodeError =>
      match BraceSpan(raw)
      case None => None
      case Some(span) =>
        match decode(span)
        case Loaded(json) => Some(json)
        case DecodeError => None
  }

  /** The strict parse wins when it succeeds; otherwise the result is the parse
      of the brace span of the raw reply, if there is one, and nothing else. */
  lemma ParseResponseCases(raw: string, decode: string -> Decoded)
    ensures decode(CleanJsonText(raw)).Loaded? ==> ParseResponse(raw, decode) == Some(decode(CleanJsonText(raw)).json)
    ensures ParseResponse(raw, decode).Some? <==>
      (decode(CleanJsonText(raw)).Loaded? || (BraceSpan(raw).Some? && decode(BraceSpan(raw).value).Loaded?))
    ensures decode(CleanJsonText(raw)).DecodeError? && BraceSpan(raw).Some? ==>
      ParseResponse(raw, decode) == (match decode(BraceSpan(raw).value) case Loaded(j) => Some(j) case DecodeError => None)
  {
  }

  /** A reply whose strict parse fails and which holds no `{` followed by a `}` gives no result. */
  lemma NoBracesNoResult(raw: string, decode: string -> Decoded)
    requires decode(CleanJsonText(raw)).DecodeError?
    requires !exists i, j :: 0 <= i < j < |raw| && raw[i] == '{' && raw[j] == '}'
    ensures ParseResponse(raw, decode) == None
  {
    BraceSpanExists(raw);
  }

  /**
   * `_refine_latex_with_ai(raw_sample)`: a sample shorter than five
   * characters, a missing prompt file or a failed call leave the sample as it
   * is; otherwise the reply is stripped of its fences.
   */
  function RefineLatex(raw: string, services: Services): (r: string)
    ensures |raw| < MinSampleLength || !services.fixPromptAvailable ==> r == raw
    ensures r == raw || IsStripped(r)
  {
    if raw == [] || |raw| < MinSampleLength then raw
    else if !services.fixPromptAvailable then raw
    else
      match RetryCall(services.refineCalls, RefineRetries).response
      case None => raw
      case Some(text) => UnfenceReply(text)
  }

  /** When the first repair call replies with a fenced block, the repaired sample is its stripped body. */
  lemma RefineUnwrapsFencedReply(raw: string, services: Services, lang: string, body: string)
    requires |raw| >= MinSampleLength && services.fixPromptAvailable
    requires '\n' !in lang && services.refineCalls(0) == Reply(Fence + lang + "\n" + body + Fence)
    ensures RefineLatex(raw, services) == Strip(body)
  {
    FirstReplyReturned(services.refineCalls, RefineRetries, 0);
    UnfenceWrapped(lang, body);
  }

  /** When every repair call hits the quota, the sample is kept. */
  lemma RefineKeepsSampleOnQuota(raw: string, services: Services)
    requires QuotaHitBefore(services.refineCalls, RefineRetries + 1)
    ensures RefineLatex(raw, services) == raw
  {
    QuotaAlwaysHit(services.refineCalls, RefineRetries);
  }

  /**
   * The refine-only-when-relevant rule: a truthy `sample_question` of a
   * result with truthy `is_relevant` and `contains_exercises` is replaced by
   * its repair. `None` stands for an exception, which makes
   * `verify_relevance` return `None`: `.get` on a truthy non-object, or
   * `len` of a numeric or boolean sample.
   */
  function RefineIfRelevant(json: Json, services: Services): Option<Json> {
    match json
    case NonObject(v) => if Truthy(v) then None else Some(json)
    case Object(fields) =>
      if fields == map[] then Some(json)
      else if Truthy(Get(fields, "is_relevant", JNull)) && Truthy(Get(fields, "contains_exercises", JNull)) then
        var sample := Get(fields, "sample_question", JNull);
        if !Truthy(sample) then Some(json)
        else
          match sample
          case JString(s) => Some(Object(fields["sample_question" := JString(RefineLatex(s, services))]))
          case JCollection(_) => Some(json)
          case _ => None
      else Some(json)
  }

  /** The repair touches nothing but `sample_question`, and only on a relevant result with exercises. */
  lemma RefineOnlyWhenRelevant(fields: map<string, JValue>, services: Services)
    ensures var r := RefineIfRelevant(Object(fields), services);
      && (!(Truthy(Get(fields, "is_relevant", JNull)) && Truthy(Get(fields, "contains_exercises", JNull))) ==>
            r == Some(Object(fields)))
      && (r.Some? ==>
            r.value.Object? && r.value.fields.Keys == fields.Keys
            && forall k :: k in fields && k != "sample_question" ==> r.value.fields[k] == fields[k])
  {
  }

  /**
   * `verify_relevance(pages_data, doc_type, user_topic, difficulty)`: the
   * excerpt of the pages is sent to the model with five retries, and the
   * reply is parsed and refined.
   */
  function VerifyRelevance(pages: seq<Page>, topic: string, services: Services): (r: Option<Json>)
    ensures pages == [] || !services.promptAvailable ==> r == None
  {
    if pages == [] then None
    else
      var context := ExtractContext(pages, topic, DefaultWindowSize);
      if context == [] then None
      else if !services.promptAvailable then None
      else
        match RetryCall(services.verifyCalls, VerifyRetries).response
        case None => None
        case Some(raw) =>
          match ParseResponse(raw, services.decode)
          case None => None
          case Some(json) => RefineIfRelevant(json, services)
  }

  /** Non-empty pages always yield an excerpt, so the result is decided by the model's reply alone. */
  lemma VerifyUsesReply(pages: seq<Page>, topic: string, services: Services)
    requires pages != [] && services.promptAvailable
    ensures VerifyRelevance(pages, topic, services) ==
      match RetryCall(services.verifyCalls, VerifyRetries).response
      case None => None
      case Some(raw) =>
        match ParseResponse(raw, services.decode)
        case None => None
        case Some(json) => RefineIfRelevant(json, services)
  {
    assert ExtractContext(pages, topic, DefaultWindowSize) != [];
  }

  /** When every verification call hits the quota, the page is not verified. */
  lemma VerifyGivesUpOnQuota(pages: seq<Page>, topic: string, services: Services)
    requires QuotaHitBefore(services.verifyCalls, VerifyRetries + 1)
    ensures VerifyRelevance(pages, topic, services) == None
  {
    QuotaAlwaysHit(services.verifyCalls, VerifyRetries);
  }

  /** One entry of the ranked list. */
  datatype Candidate = Candidate(url: string, docType: Option<DocType>, score: int, page: JValue, reason: JValue, sample: JValue)

  /**
   * The acceptance filter of `_process_single_url`: a result is accepted when
   * its score (0 when missing) is at least 5 and `contains_exercises` is
   * truthy. A score that is not an integer compares false (a boolean) or
   * raises (anything else), and both give `None`.
   */
  function Accept(link: string, docType: Option<DocType>, evaluation: Option<Json>): (r: Option<Candidate>)
    ensures r.Some? ==> r.value.url == link && r.value.docType == docType && r.value.score >= MinScore
  {
    match evaluation
    case None => None
    case Some(NonObject(_)) => None
    case Some(Object(fields)) =>
      if fields == map[] then None
      else
        match Get(fields, "score", JInt(0))
        case JInt(score) =>
          if score >= MinScore && Truthy(Get(fields, "contains_exercises", JBool(false))) then
            Some(Candidate(link, docType, score,
                           Get(fields, "page_location", JString("Unknown")),
                           Get(fields, "reason", JString("N/A")),
                           Get(fields, "sample_question", JString(""))))
          else None
        case _ => None
  }

  /** A result is accepted exactly when its score is an integer of at least 5 and it has exercises. */
  lemma AcceptIff(link: string, docType: Option<DocType>, fields: map<string, JValue>)
    ensures Accept(link, docType, Some(Object(fields))).Some? <==>
      (Get(fields, "score", JInt(0)).JInt? && Get(fields, "score", JInt(0)).i >= MinScore
       && Truthy(Get(fields, "contains_exercises", JBool(false))))
  {
  }

  /** `is_relevant` is not consulted by the filter. */
  lemma AcceptIgnoresRelevance(link: string, docType: Option<DocType>, fields: map<string, JValue>, v: JValue)
    ensures Accept(link, docType, Some(Object(fields["is_relevant" := v]))) ==
            Accept(link, docType, Some(Object(fields - {"is_relevant"})))
  {
    var with := fields["is_relevant" := v];
    var without := fields - {"is_relevant"};
    assert forall k :: k != "is_relevant" ==> Get(with, k, JNull) == Get(without, k, JNull);
    assert Get(with, "score", JInt(0)) == Get(without, "score", JInt(0));
    assert Get(with, "contains_exercises", JBool(false)) == Get(without, "contains_exercises", JBool(false));
    if without == map[] {
      assert "score" !in without;
    }
  }

  /** A missing score counts as 0 and rejects; missing descriptive fields take their defaults. */
  lemma AcceptDefaults(link: string, docType: Option<DocType>, fields: map<string, JValue>)
    ensures "score" !in fields ==> Accept(link, docType, Some(Object(fields))) == None
    ensures var r := Accept(link, docType, Some(Object(fields)));
      r.Some? && "page_location" !in fields && "reason" !in fields && "sample_question" !in fields ==>
        r.value.page == JString("Unknown") && r.value.reason == JString("N/A") && r.value.sample == JString("")
  {
  }

  /**
   * `_process_single_url(link, topic, difficulty)`: fetch, verify, filter.
   * The fetch is the corrected one, which never mixes PDF pages into a web
   * result; `LeakKeepsCandidate` shows the fetch as written gives the same
   * candidate.
   */
  function ProcessSingleUrl(link: string, response: Option<HttpResponse>, topic: string, services: Services): (r: Option<Candidate>)
    ensures r.Some? ==> r.value.url == link && r.value.score >= MinScore
  {
    var fetched := FetchContentResult(link, response);
    if fetched.pages == [] then None
    else Accept(link, fetched.docType, VerifyRelevance(fetched.pages, topic, services))
  }

  /** A denied URL, a failed request or a document without pages never yields a candidate. */
  lemma NoPagesNoCandidate(link: string, response: Option<HttpResponse>, topic: string, services: Services)
    requires FetchContentResult(link, response).pages == [] || Denied(link) || response.None?
    ensures ProcessSingleUrl(link, response, topic, services) == None
  {
    FetchContract(link, response);
  }

  /** A candidate always comes from a PDF or a web document. */
  lemma CandidateHasType(link: string, response: Option<HttpResponse>, topic: string, services: Services)
    requires ProcessSingleUrl(link, response, topic, services).Some?
    ensures ProcessSingleUrl(link, response, topic, services).value.docType.Some?
  {
    FetchContract(link, response);
  }

  /**
   * The verifier's answer depends on whether there are pages, not on their
   * text: the prompt is not modelled, and the replies are inputs.
   */
  lemma VerifyIgnoresPageText(pages1: seq<Page>, pages2: seq<Page>, topic: string, services: Services)
    requires pages1 != [] && pages2 != []
    ensures VerifyRelevance(pages1, topic, services) == VerifyRelevance(pages2, topic, services)
  {
  }

  /**
   * `_process_single_url` with `fetch_content` as written, which may pass
   * leaked PDF pages in front of the web page to the verifier, yields the
   * same candidate as with the corrected fetch.
   */
  lemma LeakKeepsCandidate(link: string, response: Option<HttpResponse>, topic: string, services: Services)
    ensures ProcessSingleUrl(link, response, topic, services) ==
      var written := FetchAsWritten(link, response);
      if written.pages == [] then None
      else Accept(link, written.docType, VerifyRelevance(written.pages, topic, services))
  {
    var written := FetchAsWritten(link, response);
    var fetched := FetchContentResult(link, response);
    AsWrittenDiffersOnlyByLeak(link, response);
    if written.pages != [] && fetched.pages != [] {
      VerifyIgnoresPageText(written.pages, fetched.pages, topic, services);
    }
  }
}
