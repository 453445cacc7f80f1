/**
 * Post-processing of the language model's reply (Backend/src/services/resumeAnalyzer.ts):
 * the Markdown code-fence extraction, the structural validation of the parsed report,
 * the error wrapping of `analyzeResume`, and the lazily created analyzer instance.
 * The chat-completion call and `JSON.parse` are opaque: the completion is an input and
 * the parser a function parameter.
 */
module ResumeAnalyzer {
  import opened Common
  import Text

  /** A parsed JSON value. JSON text never yields NaN or infinities, so numbers are reals. */
  datatype Json =
    | JNull
    | JBool(b: bool)
    | JNum(n: real)
    | JStr(s: string)
    | JArr(items: seq<Json>)
    | JObj(fields: map<string, Json>)

  // ---------------------------------------------------------------------------
  // Code-fence extraction: the regular expression /```(?:json)?\s*([\s\S]*?)\s*```/
  // ---------------------------------------------------------------------------

  predicate FenceAt(s: string, i: nat)
  {
    i + 3 <= |s| && s[i] == '`' && s[i + 1] == '`' && s[i + 2] == '`'
  }

  predicate NoFence(t: string)
  {
    forall i: nat :: i + 3 <= |t| ==> !FenceAt(t, i)
  }

  /** The first "```" starting at or after `from`. */
  function FindFence(s: string, from: nat): (r: Option<nat>)
    ensures r.Some? ==> from <= r.value && FenceAt(s, r.value)
    ensures r.Some? ==> forall j: nat :: from <= j < r.value ==> !FenceAt(s, j)
    ensures r.None? ==> forall j: nat :: from <= j ==> !FenceAt(s, j)
    decreases |s| - from
  {
    if from + 3 > |s| then None
    else if FenceAt(s, from) then Some(from)
    else FindFence(s, from + 1)
  }

  /** The first index at or after `i` that is not white space (greedy `\s*`). */
  function SkipWhitespace(s: string, i: nat): (k: nat)
    requires i <= |s|
    ensures i <= k <= |s|
    ensures forall j :: i <= j < k ==> Text.IsWhitespace(s[j])
    ensures k < |s| ==> !Text.IsWhitespace(s[k])
    decreases |s| - i
  {
    if i < |s| && Text.IsWhitespace(s[i]) then SkipWhitespace(s, i + 1) else i
  }

  /** The least `e` in [lo, hi] such that s[e..hi] is all white space. */
  function BackOverWhitespace(s: string, lo: nat, hi: nat): (e: nat)
    requires lo <= hi <= |s|
    ensures lo <= e <= hi
    ensures forall j :: e <= j < hi ==> Text.IsWhitespace(s[j])
    ensures e > lo ==> !Text.IsWhitespace(s[e - 1])
    decreases hi - lo
  {
    if hi > lo && Text.IsWhitespace(s[hi - 1]) then BackOverWhitespace(s, lo, hi - 1) else hi
  }

  /** Where the capture group starts once the opening fence at `p` has been matched. */
  function CaptureStart(s: string, p: nat): (b: nat)
    requires p + 3 <= |s|
    ensures p + 3 <= b <= |s|
  {
    var a := if p + 7 <= |s| && s[p + 3..p + 7] == "json" then p + 7 else p + 3;
    SkipWhitespace(s, a)
  }

  /**
   * The capture group of the fence expression, or None when it does not match. The
   * leftmost match starts at the first fence; the optional "json" tag and white space
   * are skipped; the lazy group ends before the white space that precedes the first
   * closing fence.
   */
  function FencedBody(s: string): (r: Option<string>)
    ensures r.Some? ==> NoFence(r.value)
    ensures r.Some? ==> r.value == [] || (!Text.IsWhitespace(r.value[0]) && !Text.IsWhitespace(r.value[|r.value| - 1]))
  {
    match FindFence(s, 0)
    case None => None
    case Some(p) =>
      var b := CaptureStart(s, p);
      match FindFence(s, b)
      case None => None
      case Some(f) =>
        var e := BackOverWhitespace(s, b, f);
        var body := s[b..e];
        assert NoFence(body) by {
          forall i: nat | i + 3 <= |body| ensures !FenceAt(body, i) {
            if FenceAt(body, i) { assert FenceAt(s, b + i); }
          }
        }
        Some(body)
  }

  /** The text handed to `JSON.parse`: the fenced body when there is one, else the whole reply, trimmed. */
  function JsonText(response: string): (t: string)
    ensures t == [] || (!Text.IsWhitespace(t[0]) && !Text.IsWhitespace(t[|t| - 1]))
    ensures FencedBody(response).Some? ==> t == FencedBody(response).value
    ensures FencedBody(response).None? ==> t == Text.Trim(response)
  {
    match FencedBody(response)
    case Some(body) => Text.Trim(body)
    case None => Text.Trim(response)
  }

  /** The expression matches exactly when the reply holds a fence and another one at least three characters later. */
  lemma FenceMatchesIffTwoFences(s: string)
    ensures FencedBody(s).Some? <==> (FindFence(s, 0).Some? && FindFence(s, FindFence(s, 0).value + 3).Some?)
  {
  }

  // ---------------------------------------------------------------------------
  // Structural validation: validateAnalysisResponse
  // ---------------------------------------------------------------------------

  const RequiredFields: seq<string> :=
    ["overallScore", "categoryScores", "strengths", "weaknesses", "suggestions", "keywordMatch", "summary"]
  const CategoryFields: seq<string> := ["skills", "experience", "education", "keywords", "formatting"]
  const ArrayFields: seq<string> := ["strengths", "weaknesses", "suggestions"]

  /** The message of the TypeError JavaScript throws on `in` with a primitive or on a property read of null. */
  const TypeErrorMessage := "TypeError"
  const OverallScoreMessage := "Overall score must be between 0 and 100"
  const KeywordMatchMessage := "Invalid keywordMatch structure"

  datatype Check = Pass | Fail(message: string)

  /** `field in v`: false on arrays for these names, a TypeError on null and primitives. */
  function HasField(v: Json, field: string): Result<bool>
  {
    match v
    case JObj(m) => Ok(field in m)
    case JArr(_) => Ok(false)
    case _ => Err(TypeErrorMessage)
  }

  /** The property read `v[field]`; None is `undefined`, Err the TypeError of reading from null. */
  function Property(v: Json, field: string): Result<Option<Json>>
  {
    match v
    case JNull => Err(TypeErrorMessage)
    case JObj(m) => Ok(if field in m then Some(m[field]) else None)
    case _ => Ok(None)
  }

  /** JavaScript truthiness of a property value (`undefined` is falsy). */
  predicate Truthy(v: Option<Json>)
  {
    match v
    case None => false
    case Some(JNull) => false
    case Some(JBool(b)) => b
    case Some(JNum(x)) => x != 0.0
    case Some(JStr(s)) => s != ""
    case Some(_) => true
  }

  /**
   * The number a relational comparison with a number converts `v` to (None is NaN):
   * null is 0, booleans are 0 and 1, an array goes through its string form, an object is NaN.
   */
  function LooseNumber(v: Json): Option<real>
  {
    match v
    case JNull => Some(0.0)
    case JBool(b) => Some(if b then 1.0 else 0.0)
    case JNum(x) => Some(x)
    case JStr(s) => Text.StringToNumber(s)
    case JObj(_) => None
    case JArr(items) =>
      if |items| == 0 then Some(0.0)
      else if |items| > 1 then None
      else match items[0]
        case JBool(_) => None
        case e => LooseNumber(e)
  }

  /** `score < 0 || score > 100` under JavaScript's conversions; NaN compares false both ways. */
  predicate LooselyOutOfRange(v: Json)
  {
    match LooseNumber(v)
    case None => false
    case Some(x) => x < 0.0 || x > 100.0
  }

  /** A number in [0, 100]: the intended range check. */
  predicate IsScore(v: Json)
  {
    v.JNum? && 0.0 <= v.n <= 100.0
  }

  /** The required-field loop: the first absent field, in list order, decides the message. */
  function CheckRequired(v: Json, fields: seq<string>): (c: Check)
    ensures c.Pass? <==> forall i :: 0 <= i < |fields| ==> HasField(v, fields[i]) == Ok(true)
    ensures c.Fail? ==> c.message == TypeErrorMessage || exists i :: 0 <= i < |fields| && c.message == "Missing required field: " + fields[i]
  {
    if fields == [] then Pass
    else
      match HasField(v, fields[0])
      case Err(m) => Fail(m)
      case Ok(present) =>
        if !present then Fail("Missing required field: " + fields[0])
        else
          var rest := CheckRequired(v, fields[1..]);
          assert forall i :: 1 <= i < |fields| ==> fields[i] == fields[1..][i - 1];
          rest
  }

  /** The category loop: each of the five scores must be a number in [0, 100], in order. */
  function CheckCategories(scores: Json, fields: seq<string>): (c: Check)
    ensures c.Pass? <==> forall i :: 0 <= i < |fields| ==> Property(scores, fields[i]).Ok? && Property(scores, fields[i]).value.Some? && IsScore(Property(scores, fields[i]).value.value)
  {
    if fields == [] then Pass
    else
      match Property(scores, fields[0])
      case Err(m) => Fail(m)
      case Ok(score) =>
        if score.None? || !IsScore(score.value) then
          Fail("Invalid " + fields[0] + " score: must be between 0 and 100")
        else
          var rest := CheckCategories(scores, fields[1..]);
          assert forall i :: 1 <= i < |fields| ==> fields[i] == fields[1..][i - 1];
          rest
  }

  /** The array loop: each named field must hold an array. */
  function CheckArrays(v: Json, fields: seq<string>): (c: Check)
    requires v.JObj?
    ensures c.Pass? <==> forall i :: 0 <= i < |fields| ==> fields[i] in v.fields && v.fields[fields[i]].JArr?
  {
    if fields == [] then Pass
    else if !(fields[0] in v.fields && v.fields[fields[0]].JArr?) then Fail(fields[0] + " must be an array")
    else
      var rest := CheckArrays(v, fields[1..]);
      assert forall i :: 1 <= i < |fields| ==> fields[i] == fields[1..][i - 1];
      rest
  }

  /** The keyword-match check: truthy `matched` and `missing`, a numeric `matchPercentage`. */
  function CheckKeywordMatch(km: Json): Check
  {
    match (Property(km, "matched"), Property(km, "missing"), Property(km, "matchPercentage"))
    case (Err(m), _, _) => Fail(m)
    case (Ok(matched), _, _) =>
      if !Truthy(matched) then Fail(KeywordMatchMessage)
      else if !Truthy(Property(km, "missing").value) then Fail(KeywordMatchMessage)
      else
        var pct := Property(km, "matchPercentage").value;
        if pct.Some? && pct.value.JNum? then Pass else Fail(KeywordMatchMessage)
  }

  /** The checks after the overall score, on an object already holding every required field. */
  function CheckRest(v: Json): Check
    requires v.JObj? && forall f :: f in RequiredFields ==> f in v.fields
  {
    var categories := CheckCategories(v.fields["categoryScores"], CategoryFields);
    if categories.Fail? then categories
    else
      var arrays := CheckArrays(v, ArrayFields);
      if arrays.Fail? then arrays
      else CheckKeywordMatch(v.fields["keywordMatch"])
  }

  lemma RequiredMeansObject(v: Json)
    requires CheckRequired(v, RequiredFields).Pass?
    ensures v.JObj? && forall f :: f in RequiredFields ==> f in v.fields
  {
    assert HasField(v, RequiredFields[0]) == Ok(true);
    forall f | f in RequiredFields ensures f in v.fields {
      var i :| 0 <= i < |RequiredFields| && RequiredFields[i] == f;
      assert HasField(v, RequiredFields[i]) == Ok(true);
    }
  }

  /**
   * `validateAnalysisResponse` as written: the overall score is compared with 0 and 100
   * after JavaScript's conversions, without a type test, so null passes (as 0).
   */
  function ValidateAsWritten(v: Json): (c: Check)
  {
    var required := CheckRequired(v, RequiredFields);
    if required.Fail? then required
    else
      RequiredMeansObject(v);
      if LooselyOutOfRange(v.fields["overallScore"]) then Fail(OverallScoreMessage)
      else CheckRest(v)
  }

  /** The intended validation: the overall score must be a number in [0, 100] like the category scores. */
  function Validate(v: Json): (c: Check)
  {
    var required := CheckRequired(v, RequiredFields);
    if required.Fail? then required
    else
      RequiredMeansObject(v);
      if !IsScore(v.fields["overallScore"]) then Fail(OverallScoreMessage)
      else CheckRest(v)
  }

  /** What an accepted report looks like, stated field by field. */
  predicate WellFormedExceptOverall(v: Json)
  {
    && v.JObj?
    && (forall f :: f in RequiredFields ==> f in v.fields)
    && v.fields["categoryScores"].JObj?
    && (forall c :: c in CategoryFields ==> c in v.fields["categoryScores"].fields && IsScore(v.fields["categoryScores"].fields[c]))
    && (forall f :: f in ArrayFields ==> v.fields[f].JArr?)
    && v.fields["keywordMatch"].JObj?
    && Truthy(Property(v.fields["keywordMatch"], "matched").value)
    && Truthy(Property(v.fields["keywordMatch"], "missing").value)
    && "matchPercentage" in v.fields["keywordMatch"].fields
    && v.fields["keywordMatch"].fields["matchPercentage"].JNum?
  }

  predicate WellFormedReport(v: Json)
  {
    WellFormedExceptOverall(v) && IsScore(v.fields["overallScore"])
  }

  /** The category loop passes exactly on an object holding the five scores. */
  lemma CategoriesPass(cs: Json)
    ensures CheckCategories(cs, CategoryFields).Pass? <==>
      cs.JObj? && forall c :: c in CategoryFields ==> c in cs.fields && IsScore(cs.fields[c])
  {
    if CheckCategories(cs, CategoryFields).Pass? {
      assert Property(cs, CategoryFields[0]).Ok?;
      assert Property(cs, CategoryFields[0]).value.Some?;
      forall c | c in CategoryFields ensures c in cs.fields && IsScore(cs.fields[c]) {
        var i :| 0 <= i < |CategoryFields| && CategoryFields[i] == c;
        assert Property(cs, CategoryFields[i]).value.Some?;
      }
    } else if cs.JObj? && forall c :: c in CategoryFields ==> c in cs.fields && IsScore(cs.fields[c]) {
      forall i | 0 <= i < |CategoryFields|
        ensures Property(cs, CategoryFields[i]).Ok? && Property(cs, CategoryFields[i]).value.Some? && IsScore(Property(cs, CategoryFields[i]).value.value)
      {
        assert CategoryFields[i] in CategoryFields;
      }
    }
  }

  /** The array loop passes exactly when the three list fields hold arrays. */
  lemma ArraysPass(v: Json)
    requires v.JObj? && forall f :: f in RequiredFields ==> f in v.fields
    ensures CheckArrays(v, ArrayFields).Pass? <==> forall f :: f in ArrayFields ==> v.fields[f].JArr?
  {
    if CheckArrays(v, ArrayFields).Pass? {
      forall f | f in ArrayFields ensures v.fields[f].JArr? {
        var i :| 0 <= i < |ArrayFields| && ArrayFields[i] == f;
      }
    } else if forall f :: f in ArrayFields ==> v.fields[f].JArr? {
      forall i | 0 <= i < |ArrayFields| ensures ArrayFields[i] in v.fields && v.fields[ArrayFields[i]].JArr? {
        assert ArrayFields[i] in ArrayFields && ArrayFields[i] in RequiredFields;
      }
    }
  }

  lemma CheckRestPasses(v: Json)
    requires v.JObj? && forall f :: f in RequiredFields ==> f in v.fields
    ensures CheckRest(v).Pass? <==> WellFormedExceptOverall(v)
  {
    CategoriesPass(v.fields["categoryScores"]);
    ArraysPass(v);
  }

  /** The intended validator accepts exactly the well-formed reports. */
  lemma ValidateAcceptsExactlyWellFormed(v: Json)
    ensures Validate(v).Pass? <==> WellFormedReport(v)
  {
    if CheckRequired(v, RequiredFields).Pass? {
      RequiredMeansObject(v);
      CheckRestPasses(v);
    } else if WellFormedReport(v) {
      forall i | 0 <= i < |RequiredFields| ensures HasField(v, RequiredFields[i]) == Ok(true) {
        assert RequiredFields[i] in RequiredFields;
      }
    }
  }

  /** The validator as written accepts the same reports except that the overall score only has to avoid comparing outside [0, 100]. */
  lemma ValidateAsWrittenAccepts(v: Json)
    ensures ValidateAsWritten(v).Pass? <==> WellFormedExceptOverall(v) && !LooselyOutOfRange(v.fields["overallScore"])
    ensures ValidateAsWritten(v).Pass? && v.fields["overallScore"].JNum? ==> IsScore(v.fields["overallScore"])
  {
    if CheckRequired(v, RequiredFields).Pass? {
      RequiredMeansObject(v);
      CheckRestPasses(v);
    } else if WellFormedExceptOverall(v) {
      forall i | 0 <= i < |RequiredFields| ensures HasField(v, RequiredFields[i]) == Ok(true) {
        assert RequiredFields[i] in RequiredFields;
      }
    }
  }

  /** The first absent required field, in the fixed order, names the rejection. */
  lemma {:induction false} FirstMissingFieldReported(m: map<string, Json>, fields: seq<string>, k: nat)
    requires k < |fields| && fields[k] !in m
    requires forall j :: 0 <= j < k ==> fields[j] in m
    ensures CheckRequired(JObj(m), fields) == Fail("Missing required field: " + fields[k])
    decreases k
  {
    if k > 0 {
      assert fields[0] in m;
      FirstMissingFieldReported(m, fields[1..], k - 1);
    }
  }

  lemma MissingFieldReported(m: map<string, Json>, k: nat)
    requires k < |RequiredFields| && RequiredFields[k] !in m
    requires forall j :: 0 <= j < k ==> RequiredFields[j] in m
    ensures Validate(JObj(m)) == Fail("Missing required field: " + RequiredFields[k])
    ensures ValidateAsWritten(JObj(m)) == Fail("Missing required field: " + RequiredFields[k])
  {
    FirstMissingFieldReported(m, RequiredFields, k);
  }

  /** Five category scores of 50. */
  function FiftyEverywhere(): map<string, Json>
  {
    map["skills" := JNum(50.0), "experience" := JNum(50.0), "education" := JNum(50.0),
        "keywords" := JNum(50.0), "formatting" := JNum(50.0)]
  }

  /** A keyword match with one matched and one missing keyword. */
  function OneOfTwoKeywords(): map<string, Json>
  {
    map["matched" := JArr([JStr("React")]), "missing" := JArr([JStr("Go")]), "matchPercentage" := JNum(50.0)]
  }

  /** A report that is well formed except that its overall score is null. */
  function NullScoreReport(): Json
  {
    JObj(map[
      "overallScore" := JNull,
      "categoryScores" := JObj(FiftyEverywhere()),
      "strengths" := JArr([]),
      "weaknesses" := JArr([]),
      "suggestions" := JArr([]),
      "keywordMatch" := JObj(OneOfTwoKeywords()),
      "summary" := JStr("")])
  }

  /** Every report that is well formed apart from a null overall score passes as written and fails as intended. */
  lemma NullOverallScoreAccepted(v: Json)
    requires WellFormedExceptOverall(v) && v.fields["overallScore"] == JNull
    ensures ValidateAsWritten(v).Pass?
    ensures Validate(v) == Fail(OverallScoreMessage)
  {
    ValidateAsWrittenAccepts(v);
    ValidateAcceptsExactlyWellFormed(v);
    forall i | 0 <= i < |RequiredFields| ensures HasField(v, RequiredFields[i]) == Ok(true) {
      assert RequiredFields[i] in RequiredFields;
    }
  }

  lemma FiftyEverywhereAreScores()
    ensures forall c :: c in CategoryFields ==> c in FiftyEverywhere() && IsScore(FiftyEverywhere()[c])
  {
  }

  lemma OneOfTwoKeywordsPasses()
    ensures var km := JObj(OneOfTwoKeywords());
      && Truthy(Property(km, "matched").value) && Truthy(Property(km, "missing").value)
      && "matchPercentage" in km.fields && km.fields["matchPercentage"].JNum?
  {
  }

  /** Such reports exist: the concrete one above. */
  lemma NullScoreReportIsWitness()
    ensures WellFormedExceptOverall(NullScoreReport()) && NullScoreReport().fields["overallScore"] == JNull
  {
    var v := NullScoreReport();
    assert forall f :: f in RequiredFields ==> f in v.fields;
    assert v.fields["categoryScores"] == JObj(FiftyEverywhere());
    FiftyEverywhereAreScores();
    assert forall f :: f in ArrayFields ==> v.fields[f].JArr?;
    assert v.fields["keywordMatch"] == JObj(OneOfTwoKeywords());
    OneOfTwoKeywordsPasses();
  }

  // ---------------------------------------------------------------------------
  // analyzeResume: parsing, validation and error wrapping
  // ---------------------------------------------------------------------------

  /** What the chat-completion call produced: a thrown error, or a reply whose content may be absent. */
  datatype Completion = ApiFailure(message: string) | Completed(content: Option<string>)

  const NoResponseError := "Resume analysis failed: No response from GROQ API"
  const InvalidFormatError := "Resume analysis failed: Invalid response format from AI analysis"

  /**
   * `analyzeResume` after the API call, validating with `validateAnalysisResponse` as
   * written. An empty or absent reply is "No response"; a reply whose text does not parse,
   * or parses to a report the validator rejects, is "Invalid response format"; a thrown
   * API error keeps its message; everything is prefixed with "Resume analysis failed: ".
   * An accepted report may carry a non-numeric overall score (see `ValidateAsWrittenAccepts`).
   */
  function AnalyzeResponse(completion: Completion, parse: string -> Option<Json>): (r: Result<Json>)
    ensures r.Ok? ==> completion.Completed? && completion.content.Some?
    ensures r.Ok? ==> parse(JsonText(completion.content.value)) == Some(r.value)
                      && WellFormedExceptOverall(r.value) && !LooselyOutOfRange(r.value.fields["overallScore"])
    ensures r.Err? ==> r.message == NoResponseError || r.message == InvalidFormatError
                       || (completion.ApiFailure? && r.message == "Resume analysis failed: " + completion.message)
    ensures completion.Completed? && (completion.content.None? || completion.content.value == "") ==> r == Err(NoResponseError)
    ensures completion.Completed? && completion.content.Some? && completion.content.value != "" ==>
              (r.Ok? <==> parse(JsonText(completion.content.value)).Some?
                          && ValidateAsWritten(parse(JsonText(completion.content.value)).value).Pass?)
  {
    match completion
    case ApiFailure(m) => Err("Resume analysis failed: " + m)
    case Completed(content) =>
      if content.None? || content.value == "" then Err(NoResponseError)
      else
        match parse(JsonText(content.value))
        case None => Err(InvalidFormatError)
        case Some(v) =>
          ValidateAsWrittenAccepts(v);
          if ValidateAsWritten(v).Pass? then Ok(v) else Err(InvalidFormatError)
  }

  /**
   * A reply whose report is well formed apart from a null overall score reaches the caller
   * as a successful analysis, where the intended function reports an invalid format.
   */
  lemma NullScoreReplyAnalyzed(content: string, parse: string -> Option<Json>, v: Json)
    requires content != "" && parse(JsonText(content)) == Some(v)
    requires WellFormedExceptOverall(v) && v.fields["overallScore"] == JNull
    ensures AnalyzeResponse(Completed(Some(content)), parse) == Ok(v)
    ensures AnalyzeResponseFixed(Completed(Some(content)), parse) == Err(InvalidFormatError)
  {
    NullOverallScoreAccepted(v);
  }

  /** The intended `analyzeResume`: the corrected validator, so an accepted report is well formed throughout. */
  function AnalyzeResponseFixed(completion: Completion, parse: string -> Option<Json>): (r: Result<Json>)
    ensures r.Ok? ==> completion.Completed? && completion.content.Some?
    ensures r.Ok? ==> parse(JsonText(completion.content.value)) == Some(r.value) && WellFormedReport(r.value)
    ensures r.Err? ==> r.message == NoResponseError || r.message == InvalidFormatError
                       || (completion.ApiFailure? && r.message == "Resume analysis failed: " + completion.message)
    ensures completion.Completed? && (completion.content.None? || completion.content.value == "") ==> r == Err(NoResponseError)
    ensures completion.Completed? && completion.content.Some? && completion.content.value != "" ==>
              (r.Ok? <==> parse(JsonText(completion.content.value)).Some? && WellFormedReport(parse(JsonText(completion.content.value)).value))
  {
    match completion
    case ApiFailure(m) => Err("Resume analysis failed: " + m)
    case Completed(content) =>
      if content.None? || content.value == "" then Err(NoResponseError)
      else
        match parse(JsonText(content.value))
        case None => Err(InvalidFormatError)
        case Some(v) =>
          ValidateAcceptsExactlyWellFormed(v);
          if Validate(v).Pass? then Ok(v) else Err(InvalidFormatError)
  }

  // ---------------------------------------------------------------------------
  // The lazily created analyzer
  // ---------------------------------------------------------------------------

  const MissingKeyError := "GROQ_API_KEY is not set in environment variables"

  /** A `ResumeAnalyzer` instance; it holds the API key its client was built with. */
  class Analyzer {
    const apiKey: string

    constructor (apiKey: string)
      requires apiKey != ""
      ensures this.apiKey == apiKey
    {
      this.apiKey := apiKey;
    }
  }

  /** The module-level `resumeAnalyzer` variable behind `getAnalyzer`. */
  class AnalyzerSlot {
    var current: Analyzer?
    /** How many analyzers have been constructed into this slot. */
    ghost var constructed: nat

    ghost predicate Valid()
      reads this
    {
      constructed == (if current == null then 0 else 1)
    }

    constructor ()
      ensures Valid() && current == null
    {
      current := null;
      constructed := 0;
    }

    /**
     * `getAnalyzer`: the first successful call constructs the analyzer, every later call
     * returns that same instance; without an API key (absent or empty) construction throws
     * and the slot stays empty.
     */
    method GetAnalyzer(apiKey: Option<string>) returns (r: Result<Analyzer>)
      requires Valid()
      modifies this
      ensures Valid() && constructed <= 1
      ensures old(current) != null ==> r == Ok(old(current)) && current == old(current)
      ensures old(current) == null && (apiKey.None? || apiKey.value == "") ==> r == Err(MissingKeyError) && current == null
      ensures old(current) == null && apiKey.Some? && apiKey.value != "" ==>
                r.Ok? && fresh(r.value) && r.value.apiKey == apiKey.value && current == r.value
    {
      if current == null {
        if apiKey.None? || apiKey.value == "" {
          return Err(MissingKeyError);
        }
        current := new Analyzer(apiKey.value);
        constructed := constructed + 1;
      }
      r := Ok(current);
    }
  }
}
