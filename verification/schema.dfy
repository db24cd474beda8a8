/** The zod schemas of the application as decoders and validators.
    `z.object` accepts a JSON object whose listed keys have values of the
    listed types, ignores any other key, and yields a record of exactly the
    listed keys; a missing key reads as `undefined` and, like `null`, fails a
    string or array check. Length checks (`.min`, `.max`) report one issue per
    violated bound, in the order the keys are declared. */
module Schema {
  import opened Wrappers
  import opened Json

  // ---------------------------------------------------------------------------
  // TargetingSchema: { name: string, urn: string, category: string }

  datatype Targeting = Targeting(name: string, urn: string, category: string)

  /** The value stored under `key`, if it is a string. */
  function StringField(fields: map<string, Json>, key: string): (r: Option<string>)
    ensures r.Some? <==> key in fields && fields[key].JString?
    ensures r.Some? ==> fields[key] == JString(r.value)
  {
    if key in fields && fields[key].JString? then Some(fields[key].str) else None
  }

  /** The strings of `items`, if every item is a string (`z.array(z.string())`). */
  function StringsOf(items: seq<Json>): (r: Option<seq<string>>)
    ensures r.Some? <==> forall i :: 0 <= i < |items| ==> items[i].JString?
    ensures r.Some? ==> |r.value| == |items| && forall i :: 0 <= i < |items| ==> items[i] == JString(r.value[i])
  {
    if items == [] then Some([])
    else if !items[0].JString? then None
    else
      match StringsOf(items[1..])
      case None => None
      case Some(rest) => Some([items[0].str] + rest)
  }

  function StringArrayField(fields: map<string, Json>, key: string): (r: Option<seq<string>>)
  {
    if key in fields && fields[key].JArray? then StringsOf(fields[key].items) else None
  }

  function EncodeStrings(ss: seq<string>): (r: seq<Json>)
    ensures |r| == |ss| && forall i :: 0 <= i < |ss| ==> r[i] == JString(ss[i])
  {
    seq(|ss|, i requires 0 <= i < |ss| => JString(ss[i]))
  }

  /** `TargetingSchema.safeParse`: the entry, or `None` for any mismatch. */
  function DecodeTargeting(v: Json): (r: Option<Targeting>)
    ensures r.Some? <==>
      && v.JObject?
      && "name" in v.fields && v.fields["name"].JString?
      && "urn" in v.fields && v.fields["urn"].JString?
      && "category" in v.fields && v.fields["category"].JString?
  {
    if !v.JObject? then None
    else
      var name :- StringField(v.fields, "name");
      var urn :- StringField(v.fields, "urn");
      var category :- StringField(v.fields, "category");
      Some(Targeting(name, urn, category))
  }

  function EncodeTargeting(t: Targeting): Json {
    JObject(map["name" := JString(t.name), "urn" := JString(t.urn), "category" := JString(t.category)])
  }

  /** Decoding what was encoded gives the entry back. */
  lemma TargetingRoundTrip(t: Targeting)
    ensures DecodeTargeting(EncodeTargeting(t)) == Some(t)
  {
  }

  /** A decoded entry re-encodes to the input restricted to the schema's keys. */
  lemma TargetingDecodeStrips(v: Json, t: Targeting)
    requires DecodeTargeting(v) == Some(t)
    ensures v.JObject?
    ensures EncodeTargeting(t).fields == map k | k in v.fields && k in {"name", "urn", "category"} :: v.fields[k]
  {
  }

  // ---------------------------------------------------------------------------
  // WebPageInsightsSchema

  datatype WebPageInsights = WebPageInsights(
    companyName: string,
    industry: string,
    productsServices: seq<string>,
    valuePropositions: seq<string>,
    targetAudience: string)

  const InsightsKeys: set<string> :=
    {"companyName", "industry", "productsServices", "valuePropositions", "targetAudience"}

  /** The shape the schema demands, stated field by field. */
  predicate ConformsToInsights(v: Json) {
    && v.JObject?
    && "companyName" in v.fields && v.fields["companyName"].JString?
    && "industry" in v.fields && v.fields["industry"].JString?
    && "productsServices" in v.fields && IsStringArray(v.fields["productsServices"])
    && "valuePropositions" in v.fields && IsStringArray(v.fields["valuePropositions"])
    && "targetAudience" in v.fields && v.fields["targetAudience"].JString?
  }

  predicate IsStringArray(v: Json) {
    v.JArray? && forall i :: 0 <= i < |v.items| ==> v.items[i].JString?
  }

  /** `WebPageInsightsSchema.safeParse`: the record, or `None` for any
      mismatch. */
  function DecodeWebPageInsights(v: Json): (r: Option<WebPageInsights>)
    ensures r.Some? <==> ConformsToInsights(v)
  {
    if !v.JObject? then None
    else
      var companyName :- StringField(v.fields, "companyName");
      var industry :- StringField(v.fields, "industry");
      var productsServices :- StringArrayField(v.fields, "productsServices");
      var valuePropositions :- StringArrayField(v.fields, "valuePropositions");
      var targetAudience :- StringField(v.fields, "targetAudience");
      Some(WebPageInsights(companyName, industry, productsServices, valuePropositions, targetAudience))
  }

  function EncodeWebPageInsights(w: WebPageInsights): Json {
    JObject(map[
      "companyName" := JString(w.companyName),
      "industry" := JString(w.industry),
      "productsServices" := JArray(EncodeStrings(w.productsServices)),
      "valuePropositions" := JArray(EncodeStrings(w.valuePropositions)),
      "targetAudience" := JString(w.targetAudience)])
  }

  lemma StringsRoundTrip(ss: seq<string>)
    ensures StringsOf(EncodeStrings(ss)) == Some(ss)
  {
    var items := EncodeStrings(ss);
    var r := StringsOf(items);
    assert r.Some?;
    assert forall i :: 0 <= i < |ss| ==> r.value[i] == ss[i] by {
      forall i | 0 <= i < |ss| ensures r.value[i] == ss[i] {
        assert items[i] == JString(r.value[i]);
      }
    }
    assert r.value == ss;
  }

  /** Decoding an encoded record gives it back. */
  lemma InsightsRoundTrip(w: WebPageInsights)
    ensures DecodeWebPageInsights(EncodeWebPageInsights(w)) == Some(w)
  {
    StringsRoundTrip(w.productsServices);
    StringsRoundTrip(w.valuePropositions);
  }

  lemma StringsDecodeExact(items: seq<Json>, ss: seq<string>)
    requires StringsOf(items) == Some(ss)
    ensures EncodeStrings(ss) == items
  {
  }

  /** A decoded record is exactly the input object with every key outside the
      schema removed: nothing is invented and nothing of the schema's is lost. */
  lemma InsightsDecodeStrips(v: Json, w: WebPageInsights)
    requires DecodeWebPageInsights(v) == Some(w)
    ensures v.JObject?
    ensures EncodeWebPageInsights(w).fields == map k | k in v.fields && k in InsightsKeys :: v.fields[k]
  {
    StringsDecodeExact(v.fields["productsServices"].items, w.productsServices);
    StringsDecodeExact(v.fields["valuePropositions"].items, w.valuePropositions);
  }

  /** A `null` in any field of the schema fails the whole record. */
  lemma NullFieldRejected(v: Json, key: string)
    requires v.JObject? && key in InsightsKeys && key in v.fields && v.fields[key] == JNull
    ensures DecodeWebPageInsights(v) == None
  {
  }

  /** So does a missing field, and in particular the empty object. */
  lemma MissingFieldRejected(v: Json, key: string)
    requires key in InsightsKeys && (v.JObject? ==> key !in v.fields)
    ensures DecodeWebPageInsights(v) == None
  {
  }

  // ---------------------------------------------------------------------------
  // Length and cardinality checks. Each violated bound is one issue, naming the
  // field; fields are checked in declaration order.

  datatype Issue =
    | TooSmall(field: string, minimum: nat)
    | TooBig(field: string, maximum: nat)
    | InvalidUrl(field: string)
    | InvalidEnumValue(field: string)

  /** `.max(max)` on a string or array of length `len`. */
  function AtMost(field: string, len: nat, max: nat): (r: seq<Issue>)
    ensures r == [] <==> len <= max
    ensures r != [] ==> r == [TooBig(field, max)]
  {
    if len <= max then [] else [TooBig(field, max)]
  }

  /** `.min(min).max(max)` on an array of length `len`. */
  function Between(field: string, len: nat, min: nat, max: nat): (r: seq<Issue>)
    requires min <= max
    ensures r == [] <==> min <= len <= max
    ensures |r| <= 1
    ensures len < min ==> r == [TooSmall(field, min)]
    ensures max < len ==> r == [TooBig(field, max)]
    ensures forall k :: 0 <= k < |r| ==> r[k].field == field
    ensures TooSmall(field, min) in r <==> len < min
    ensures TooBig(field, max) in r <==> max < len
  {
    (if len < min then [TooSmall(field, min)] else []) + AtMost(field, len, max)
  }

  // AdCopySchema: { headline: string.max(70), description: string.max(200) }

  const MaxHeadline: nat := 70
  const MaxDescription: nat := 200
  const MaxAdName: nat := 255

  datatype AdCopy = AdCopy(headline: string, description: string)

  function CheckAdCopy(c: AdCopy): (issues: seq<Issue>)
    ensures issues == [] <==> |c.headline| <= MaxHeadline && |c.description| <= MaxDescription
    ensures TooBig("headline", MaxHeadline) in issues <==> |c.headline| > MaxHeadline
    ensures TooBig("description", MaxDescription) in issues <==> |c.description| > MaxDescription
    ensures |issues| <= 2
  {
    AtMost("headline", |c.headline|, MaxHeadline) + AtMost("description", |c.description|, MaxDescription)
  }

  // AdSchema: the call-to-action is one of ten fixed labels.

  datatype Cta =
    | Apply | Download | ViewQuote | LearnMore | SignUp
    | Subscribe | Register | Join | Attend | RequestDemo

  /** The labels of `z.enum`, in declaration order. */
  const CtaOptions: seq<string> :=
    ["Apply", "Download", "View Quote", "Learn More", "Sign Up",
     "Subscribe", "Register", "Join", "Attend", "Request Demo"]

  function CtaText(c: Cta): string {
    match c
    case Apply => "Apply"
    case Download => "Download"
    case ViewQuote => "View Quote"
    case LearnMore => "Learn More"
    case SignUp => "Sign Up"
    case Subscribe => "Subscribe"
    case Register => "Register"
    case Join => "Join"
    case Attend => "Attend"
    case RequestDemo => "Request Demo"
  }

  /** The enum check: a label is accepted exactly when it is one of the ten. */
  function ParseCta(s: string): (r: Option<Cta>)
    ensures r.Some? <==> s in CtaOptions
    ensures r.Some? ==> CtaText(r.value) == s
  {
    if s == "Apply" then Some(Apply)
    else if s == "Download" then Some(Download)
    else if s == "View Quote" then Some(ViewQuote)
    else if s == "Learn More" then Some(LearnMore)
    else if s == "Sign Up" then Some(SignUp)
    else if s == "Subscribe" then Some(Subscribe)
    else if s == "Register" then Some(Register)
    else if s == "Join" then Some(Join)
    else if s == "Attend" then Some(Attend)
    else if s == "Request Demo" then Some(RequestDemo)
    else None
  }

  /** Every call-to-action prints as one of the labels and parses back. */
  lemma CtaRoundTrip(c: Cta)
    ensures CtaText(c) in CtaOptions
    ensures ParseCta(CtaText(c)) == Some(c)
  {
  }

  /** The ten labels are distinct, so the enumeration has exactly ten values. */
  lemma CtaOptionsDistinct()
    ensures |CtaOptions| == 10
    ensures forall i, j :: 0 <= i < j < |CtaOptions| ==> CtaOptions[i] != CtaOptions[j]
  {
  }

  datatype Ad = Ad(adName: string, headline: string, description: string, destinationUrl: string, ctaText: string)

  /** `AdSchema` on a record of strings; `isUrl` is zod's URL check, which is
      not part of this model. */
  function CheckAd(a: Ad, isUrl: string -> bool): (issues: seq<Issue>)
    ensures issues == [] <==>
      && |a.adName| <= MaxAdName && |a.headline| <= MaxHeadline && |a.description| <= MaxDescription
      && isUrl(a.destinationUrl) && a.ctaText in CtaOptions
    ensures InvalidEnumValue("ctaText") in issues <==> a.ctaText !in CtaOptions
    ensures InvalidUrl("destinationUrl") in issues <==> !isUrl(a.destinationUrl)
    ensures TooBig("adName", MaxAdName) in issues <==> |a.adName| > MaxAdName
  {
    AtMost("adName", |a.adName|, MaxAdName)
    + AtMost("headline", |a.headline|, MaxHeadline)
    + AtMost("description", |a.description|, MaxDescription)
    + (if isUrl(a.destinationUrl) then [] else [InvalidUrl("destinationUrl")])
    + (if ParseCta(a.ctaText).Some? then [] else [InvalidEnumValue("ctaText")])
  }

  function AdCopyOf(a: Ad): AdCopy {
    AdCopy(a.headline, a.description)
  }

  /** The two schemas agree on the fields they share: a valid ad carries valid
      ad copy. */
  lemma AdProjectsToAdCopy(a: Ad, isUrl: string -> bool)
    requires CheckAd(a, isUrl) == []
    ensures CheckAdCopy(AdCopyOf(a)) == []
  {
  }

  // TargetingRecommendationsSchema

  datatype TargetingRecommendations = TargetingRecommendations(
    revenueRanges: seq<Targeting>,
    industries: seq<Targeting>,
    jobTitles: seq<Targeting>)

  /** One when `len` lies outside `min..max`, zero otherwise. */
  function OutOfRange(len: nat, min: nat, max: nat): nat {
    if min <= len <= max then 0 else 1
  }

  /** Each list outside its range yields exactly one issue, naming the list
      and the bound it violates. */
  function CheckTargetingRecommendations(t: TargetingRecommendations): (issues: seq<Issue>)
    ensures issues == [] <==>
      1 <= |t.revenueRanges| <= 3 && 3 <= |t.industries| <= 5 && 5 <= |t.jobTitles| <= 10
    ensures |issues| == OutOfRange(|t.revenueRanges|, 1, 3)
      + OutOfRange(|t.industries|, 3, 5) + OutOfRange(|t.jobTitles|, 5, 10)
    ensures TooSmall("revenueRanges", 1) in issues <==> |t.revenueRanges| < 1
    ensures TooBig("revenueRanges", 3) in issues <==> |t.revenueRanges| > 3
    ensures TooSmall("industries", 3) in issues <==> |t.industries| < 3
    ensures TooBig("industries", 5) in issues <==> |t.industries| > 5
    ensures TooSmall("jobTitles", 5) in issues <==> |t.jobTitles| < 5
    ensures TooBig("jobTitles", 10) in issues <==> |t.jobTitles| > 10
  {
    RangeIssues("revenueRanges", |t.revenueRanges|, 1, 3, "industries", |t.industries|, 3, 5,
      "jobTitles", |t.jobTitles|, 5, 10);
    Between("revenueRanges", |t.revenueRanges|, 1, 3)
    + Between("industries", |t.industries|, 3, 5)
    + Between("jobTitles", |t.jobTitles|, 5, 10)
  }

  /** Three range checks on differently named fields, concatenated: each
      bound of each field is reported exactly when it is violated. */
  lemma RangeIssues(fa: string, la: nat, mina: nat, maxa: nat,
                    fb: string, lb: nat, minb: nat, maxb: nat,
                    fc: string, lc: nat, minc: nat, maxc: nat)
    requires mina <= maxa && minb <= maxb && minc <= maxc
    requires |fa| != |fb| && |fb| != |fc| && |fa| != |fc|
    ensures var issues := Between(fa, la, mina, maxa) + Between(fb, lb, minb, maxb) + Between(fc, lc, minc, maxc);
      && (TooSmall(fa, mina) in issues <==> la < mina) && (TooBig(fa, maxa) in issues <==> la > maxa)
      && (TooSmall(fb, minb) in issues <==> lb < minb) && (TooBig(fb, maxb) in issues <==> lb > maxb)
      && (TooSmall(fc, minc) in issues <==> lc < minc) && (TooBig(fc, maxc) in issues <==> lc > maxc)
  {
    var a, b, c := Between(fa, la, mina, maxa), Between(fb, lb, minb, maxb), Between(fc, lc, minc, maxc);
    NotAbout(b, fb, fa);
    NotAbout(c, fc, fa);
    NotAbout(a, fa, fb);
    NotAbout(c, fc, fb);
    NotAbout(a, fa, fc);
    NotAbout(b, fb, fc);
  }

  /** Every issue in `r` names the field `f`. */
  predicate AllAbout(r: seq<Issue>, f: string) {
    forall k :: 0 <= k < |r| ==> r[k].field == f
  }

  /** Issues about a field whose name has another length say nothing about `g`. */
  lemma NotAbout(r: seq<Issue>, f: string, g: string)
    requires AllAbout(r, f) && |f| != |g|
    ensures forall m :: TooSmall(g, m) !in r && TooBig(g, m) !in r
  {
  }

  // ---------------------------------------------------------------------------
  // The described-keys map behind `schemaToYamlDescription`: the keys of an
  // object schema, in declaration order, each with its `.describe` text if any.

  type Shape = seq<(string, Option<string>)>

  /** `if (description)`: an absent or empty description is skipped. */
  predicate Described(d: Option<string>) {
    d.Some? && d.value != ""
  }

  predicate KeysDistinct(shape: Shape) {
    forall i, j :: 0 <= i < j < |shape| ==> shape[i].0 != shape[j].0
  }

  /** The loop over `Object.entries(shape)`, assigning `output[key]` for each
      described key. */
  function DescribedKeys(shape: Shape): (r: map<string, string>)
    ensures forall k :: k in r ==> exists i :: 0 <= i < |shape| && shape[i].0 == k && Described(shape[i].1)
  {
    if shape == [] then map[]
    else
      var (key, d) := shape[|shape| - 1];
      var earlier := DescribedKeys(shape[..|shape| - 1]);
      if Described(d) then earlier[key := d.value] else earlier
  }

  /** Each described key maps to its own description; an undescribed key is
      absent. Keys of a shape are distinct, as the keys of a JS object are. */
  lemma {:induction false} DescribedKeysExact(shape: Shape)
    requires KeysDistinct(shape)
    ensures forall i :: 0 <= i < |shape| && Described(shape[i].1) ==>
      shape[i].0 in DescribedKeys(shape) && DescribedKeys(shape)[shape[i].0] == shape[i].1.value
    ensures forall i :: 0 <= i < |shape| && !Described(shape[i].1) ==> shape[i].0 !in DescribedKeys(shape)
  {
    if shape != [] {
      var init := shape[..|shape| - 1];
      assert KeysDistinct(init);
      DescribedKeysExact(init);
      forall i | 0 <= i < |shape| - 1
        ensures shape[i] == init[i] && shape[i].0 != shape[|shape| - 1].0
      {
      }
    }
  }

  const InsightsShape: Shape := [
    ("companyName", Some("Company Name: The name of the company. (e.g., “Acme Inc.”)")),
    ("industry", Some("Industry: The industry the company operates in (e.g., “Technology”)")),
    ("productsServices", Some("The products or services offered by the company, extracted from the webpage content (e.g., “Software Development”, “Web Design”)")),
    ("valuePropositions", Some("The company’s value propositions based on the content (e.g., “Increase sales”, “Improve customer satisfaction”)")),
    ("targetAudience", Some("The target audience for the products/services (e.g., “Small Businesses”, “Startups”)"))
  ]

  /** The keys of the map are exactly the keys with a description, whether
      or not keys repeat. */
  lemma {:induction false} DescribedKeySet(shape: Shape)
    ensures DescribedKeys(shape).Keys == set i | 0 <= i < |shape| && Described(shape[i].1) :: shape[i].0
  {
    if shape != [] {
      var n := |shape| - 1;
      var init := shape[..n];
      DescribedKeySet(init);
      var want := set i | 0 <= i < |shape| && Described(shape[i].1) :: shape[i].0;
      var had := set i | 0 <= i < |init| && Described(init[i].1) :: init[i].0;
      assert want == had + (if Described(shape[n].1) then {shape[n].0} else {}) by {
        forall k | k in want ensures k in had || (Described(shape[n].1) && k == shape[n].0) {
          var i :| 0 <= i < |shape| && Described(shape[i].1) && shape[i].0 == k;
          if i < n { assert init[i] == shape[i]; }
        }
        forall k | k in had ensures k in want {
          var i :| 0 <= i < |init| && Described(init[i].1) && init[i].0 == k;
          assert shape[i] == init[i];
        }
      }
    }
  }

  /** The five fields of the insights schema, each with its description. */
  lemma InsightsShapeFields()
    ensures |InsightsShape| == 5
    ensures InsightsShape[0].0 == "companyName" && InsightsShape[1].0 == "industry"
    ensures InsightsShape[2].0 == "productsServices" && InsightsShape[3].0 == "valuePropositions"
    ensures InsightsShape[4].0 == "targetAudience"
    ensures forall i :: 0 <= i < 5 ==> Described(InsightsShape[i].1)
  {
  }

  /** A five-field shape whose fields are all described yields all five
      keys. */
  lemma FiveDescribedKeys(shape: Shape)
    requires |shape| == 5
    requires forall i :: 0 <= i < 5 ==> Described(shape[i].1)
    ensures DescribedKeys(shape).Keys == {shape[0].0, shape[1].0, shape[2].0, shape[3].0, shape[4].0}
  {
    DescribedKeySet(shape);
    var keys := set i | 0 <= i < |shape| && Described(shape[i].1) :: shape[i].0;
    forall k | k in keys ensures k in {shape[0].0, shape[1].0, shape[2].0, shape[3].0, shape[4].0} {
      var i :| 0 <= i < 5 && shape[i].0 == k;
      assert i == 0 || i == 1 || i == 2 || i == 3 || i == 4;
    }
    assert shape[0].0 in keys && shape[1].0 in keys && shape[2].0 in keys;
    assert shape[3].0 in keys && shape[4].0 in keys;
  }

  /** Every field of the insights schema is described, so the prompt lists all
      five keys. */
  lemma InsightsAllDescribed()
    ensures DescribedKeys(InsightsShape).Keys == InsightsKeys
  {
    InsightsShapeFields();
    FiveDescribedKeys(InsightsShape);
  }
}
