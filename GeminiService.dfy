/** The decisions the AI service wrapper takes around its two provider calls
    (services/geminiService.ts). The calls themselves are not modelled: what the
    provider answered is an input. */
module GeminiService {
  import opened Wrappers
  import opened Seqs
  import opened Types

  // ---------------------------------------------------------------------------
  // String.prototype.trim
  // ---------------------------------------------------------------------------

  /** The characters JavaScript's `trim` strips: the ECMAScript WhiteSpace and
      LineTerminator code points. */
  predicate IsJsWhitespace(ch: char) {
    var n := ch as int;
    n == 0x09 || n == 0x0A || n == 0x0B || n == 0x0C || n == 0x0D || n == 0x20 ||
    n == 0xA0 || n == 0x1680 || (0x2000 <= n <= 0x200A) || n == 0x2028 || n == 0x2029 ||
    n == 0x202F || n == 0x205F || n == 0x3000 || n == 0xFEFF
  }

  predicate AllWhitespace(s: string) {
    forall k :: 0 <= k < |s| ==> IsJsWhitespace(s[k])
  }

  /** `s` with its leading whitespace removed. */
  function TrimStart(s: string): string {
    if s != [] && IsJsWhitespace(s[0]) then TrimStart(s[1..]) else s
  }

  /** `TrimStart` cuts a whitespace prefix and leaves a suffix that does not start
      with whitespace. */
  lemma {:induction false} TrimStartSpec(s: string)
    ensures |TrimStart(s)| <= |s| && TrimStart(s) == s[|s| - |TrimStart(s)|..]
    ensures AllWhitespace(s[..|s| - |TrimStart(s)|])
    ensures TrimStart(s) == [] || !IsJsWhitespace(TrimStart(s)[0])
  {
    if s != [] && IsJsWhitespace(s[0]) {
      TrimStartSpec(s[1..]);
      var r := TrimStart(s[1..]);
      assert s[1..][|s| - 1 - |r|..] == s[|s| - |r|..];
      assert s[..|s| - |r|] == [s[0]] + s[1..][..|s| - 1 - |r|];
    }
  }

  /** `s` with its trailing whitespace removed. */
  function TrimEnd(s: string): string {
    if s != [] && IsJsWhitespace(s[|s| - 1]) then TrimEnd(s[..|s| - 1]) else s
  }

  /** `TrimEnd` cuts a whitespace suffix and leaves a prefix that does not end with
      whitespace. */
  lemma {:induction false} TrimEndSpec(s: string)
    ensures |TrimEnd(s)| <= |s| && TrimEnd(s) == s[..|TrimEnd(s)|]
    ensures AllWhitespace(s[|TrimEnd(s)|..])
    ensures TrimEnd(s) == [] || !IsJsWhitespace(TrimEnd(s)[|TrimEnd(s)| - 1])
  {
    if s != [] && IsJsWhitespace(s[|s| - 1]) {
      TrimEndSpec(s[..|s| - 1]);
      var r := TrimEnd(s[..|s| - 1]);
      assert s[..|s| - 1][..|r|] == s[..|r|];
      assert s[|r|..] == s[..|s| - 1][|r|..] + [s[|s| - 1]];
    }
  }

  /** `s.trim()`. */
  function Trim(s: string): string {
    TrimEnd(TrimStart(s))
  }

  /** Trimming leaves a part of `s` that neither starts nor ends with whitespace, and
      leaves nothing exactly when `s` is all whitespace. */
  lemma TrimSpec(s: string)
    ensures Trim(s) == [] || (!IsJsWhitespace(Trim(s)[0]) && !IsJsWhitespace(Trim(s)[|Trim(s)| - 1]))
    ensures Trim(s) == [] <==> AllWhitespace(s)
    ensures |Trim(s)| <= |s|
    ensures forall ch :: ch in Trim(s) ==> ch in s
  {
    TrimStartSpec(s);
    var t := TrimStart(s);
    TrimEndSpec(t);
    var r := TrimEnd(t);
    var cut := |s| - |t|;
    if r != [] {
      assert r[0] == t[0] == s[cut];
      assert !AllWhitespace(s) by {
        assert !IsJsWhitespace(s[cut]);
      }
    } else {
      assert s == s[..cut];
    }
    forall ch | ch in r ensures ch in s {
      var i :| 0 <= i < |r| && r[i] == ch;
      assert r[i] == t[i] == s[cut + i];
    }
  }

  /** Trimming gives back exactly the text padded by whitespace on both sides. */
  lemma {:induction false} TrimPadded(pre: string, x: string, post: string)
    requires AllWhitespace(pre) && AllWhitespace(post)
    requires x == [] || (!IsJsWhitespace(x[0]) && !IsJsWhitespace(x[|x| - 1]))
    ensures Trim(pre + x + post) == x
  {
    if x == [] {
      assert AllWhitespace(pre + x + post);
      TrimSpec(pre + x + post);
    } else {
      TrimStartPadded(pre, x + post);
      assert pre + x + post == pre + (x + post);
      TrimEndPadded(x, post);
    }
  }

  lemma {:induction false} TrimStartPadded(pre: string, y: string)
    requires AllWhitespace(pre)
    requires y == [] || !IsJsWhitespace(y[0])
    ensures TrimStart(pre + y) == y
  {
    if pre == [] {
      assert pre + y == y;
    } else {
      assert (pre + y)[1..] == pre[1..] + y;
      TrimStartPadded(pre[1..], y);
    }
  }

  lemma {:induction false} TrimEndPadded(x: string, post: string)
    requires AllWhitespace(post)
    requires x == [] || !IsJsWhitespace(x[|x| - 1])
    ensures TrimEnd(x + post) == x
  {
    if post == [] {
      assert x + post == x;
    } else {
      assert (x + post)[..|x + post| - 1] == x + post[..|post| - 1];
      TrimEndPadded(x, post[..|post| - 1]);
    }
  }

  // ---------------------------------------------------------------------------
  // analyzePlantHealth
  // ---------------------------------------------------------------------------

  /** What the text-classification call produced: its reply text, or a failure
      (network error, missing key, any thrown error). */
  datatype HealthReply = ReplyText(text: string) | ReplyFailed

  /** The notes are empty or only whitespace. */
  predicate IsBlank(notes: string) {
    notes == [] || Trim(notes) == []
  }

  /** Whether `analyzePlantHealth` calls the provider at all for these notes. */
  predicate ConsultsProvider(notes: string) {
    !IsBlank(notes)
  }

  /** The provider is consulted exactly when the notes hold a character that is not
      whitespace. */
  lemma ConsultsProviderIff(notes: string)
    ensures ConsultsProvider(notes) <==> exists k :: 0 <= k < |notes| && !IsJsWhitespace(notes[k])
  {
    TrimSpec(notes);
  }

  /** `reply.trim().replace(/"/g, '')`: outer whitespace cut, then every double quote removed. */
  function NormalizeReply(reply: string): string {
    RemoveAll(Trim(reply), '"')
  }

  /** The normalised reply holds no double quote, only characters of the reply, and is
      no longer than it. */
  lemma NormalizeReplySpec(reply: string)
    ensures '"' !in NormalizeReply(reply)
    ensures forall ch :: ch in NormalizeReply(reply) ==> ch in reply
    ensures |NormalizeReply(reply)| <= |reply|
  {
    TrimSpec(reply);
  }

  /** The exact-match test against the three status literals. */
  function ParseHealth(text: string): Option<HealthStatus> {
    if text == "Healthy" then Some(Healthy)
    else if text == "Needs Attention" then Some(NeedsAttention)
    else if text == "Critical" then Some(Critical)
    else None
  }

  /** A text parses to a status exactly when it is that status's literal. */
  lemma ParseHealthIff(text: string, h: HealthStatus)
    ensures ParseHealth(text) == Some(h) <==> text == HealthLabel(h)
  {
  }

  /** `analyzePlantHealth(notes)` given what the provider would answer. Blank notes
      and failures give `Healthy`; otherwise the normalised reply decides if it is
      one of the three literals, and `Healthy` is the fallback. It never fails. */
  function AnalyzePlantHealth(notes: string, reply: HealthReply): HealthStatus {
    if IsBlank(notes) then Healthy
    else
      match reply
      case ReplyFailed => Healthy
      case ReplyText(text) =>
        match ParseHealth(NormalizeReply(text))
        case Some(status) => status
        case None => Healthy
  }

  /** The result is `Healthy` unless the provider was consulted and its normalised
      reply is exactly one of the literals, in which case it is that status. */
  lemma AnalyzePlantHealthSpec(notes: string, reply: HealthReply)
    ensures !ConsultsProvider(notes) ==> AnalyzePlantHealth(notes, reply) == Healthy
    ensures reply.ReplyFailed? ==> AnalyzePlantHealth(notes, reply) == Healthy
    ensures ConsultsProvider(notes) && reply.ReplyText? ==>
      var h := AnalyzePlantHealth(notes, reply);
      (HealthLabel(h) == NormalizeReply(reply.text)) ||
      (h == Healthy && forall k :: HealthLabel(k) != NormalizeReply(reply.text))
  {
    if ConsultsProvider(notes) && reply.ReplyText? {
      var text := NormalizeReply(reply.text);
      forall k ensures ParseHealth(text) == Some(k) <==> text == HealthLabel(k) {
        ParseHealthIff(text, k);
      }
    }
  }

  /** `"s"`: the text between double quotes. */
  function Quoted(s: string): (r: string)
    ensures |r| == |s| + 2 && r[0] == '"' && r[|r| - 1] == '"'
  {
    "\"" + s + "\""
  }

  /** Removing the quotes around a status literal gives the literal back. */
  lemma UnquoteLabel(h: HealthStatus)
    ensures RemoveAll(Quoted(HealthLabel(h)), '"') == HealthLabel(h)
  {
    var l := HealthLabel(h);
    assert '"' !in l;
    assert Quoted(l) == ['"'] + l + ['"'];
    RemoveAllSurround('"', l);
  }

  /** A reply that is a status literal, with quotes and outer whitespace around it
      allowed, is taken as it is. */
  lemma {:induction false} QuotedLiteralAccepted(notes: string, pre: string, h: HealthStatus, post: string)
    requires ConsultsProvider(notes)
    requires AllWhitespace(pre) && AllWhitespace(post)
    ensures AnalyzePlantHealth(notes, ReplyText(pre + Quoted(HealthLabel(h)) + post)) == h
  {
    var text := pre + Quoted(HealthLabel(h)) + post;
    TrimPadded(pre, Quoted(HealthLabel(h)), post);
    UnquoteLabel(h);
    assert NormalizeReply(text) == HealthLabel(h);
    ParseHealthIff(HealthLabel(h), h);
  }

  /** Blank notes give `Healthy` whatever the provider would have said. */
  lemma BlankNotesIgnoreReply(notes: string, r1: HealthReply, r2: HealthReply)
    requires AllWhitespace(notes)
    ensures AnalyzePlantHealth(notes, r1) == AnalyzePlantHealth(notes, r2) == Healthy
  {
    TrimSpec(notes);
  }

  // ---------------------------------------------------------------------------
  // analyzePlantImage
  // ---------------------------------------------------------------------------

  /** A parsed JSON value. Numbers are whole numbers here. */
  datatype Json =
    | JNull
    | JBool(b: bool)
    | JNumber(n: int)
    | JString(s: string)
    | JArray(items: seq<Json>)
    | JObject(fields: map<string, Json>)

  /** What the image-analysis call produced: the parsed reply, or a failure
      (network error, reply that is not JSON). */
  datatype ImageReply = ImageJson(value: Json) | ImageFailed

  /** The single error every failure of the image analysis surfaces as (the error
      "Failed to analyze image with AI."). */
  datatype AnalysisError = AnalysisFailed

  /** JavaScript truthiness of a JSON value. */
  predicate Truthy(j: Json) {
    match j
    case JNull => false
    case JBool(b) => b
    case JNumber(n) => n != 0
    case JString(s) => s != []
    case _ => true
  }

  /** `j.key`; only objects have the keys looked up here. */
  function Property(j: Json, key: string): (r: Option<Json>)
    ensures r.Some? <==> j.JObject? && key in j.fields
  {
    if j.JObject? && key in j.fields then Some(j.fields[key]) else None
  }

  predicate IsStringProperty(j: Json, key: string) {
    Property(j, key).Some? && Property(j, key).value.JString?
  }

  predicate IsBoolProperty(j: Json, key: string) {
    Property(j, key).Some? && Property(j, key).value.JBool?
  }

  /** The structural check: non-null, string `species`, string `notes`, boolean `isToxic`. */
  predicate WellShaped(j: Json) {
    Truthy(j) && IsStringProperty(j, "species") && IsStringProperty(j, "notes") && IsBoolProperty(j, "isToxic")
  }

  /** `analyzePlantImage` given what the provider would answer. */
  function AnalyzePlantImage(reply: ImageReply): (r: Result<AnalysisResult, AnalysisError>)
    ensures r.Ok? <==> reply.ImageJson? && WellShaped(reply.value)
    ensures r.Ok? ==>
      && reply.value.JObject?
      && reply.value.fields["species"] == JString(r.value.species)
      && reply.value.fields["notes"] == JString(r.value.notes)
      && reply.value.fields["isToxic"] == JBool(r.value.isToxic)
  {
    match reply
    case ImageFailed => Err(AnalysisFailed)
    case ImageJson(j) =>
      if WellShaped(j) then
        Ok(AnalysisResult(j.fields["species"].s, j.fields["notes"].s, j.fields["isToxic"].b))
      else Err(AnalysisFailed)
  }

  /** The JSON object the response schema asks the provider for; the shape check
      accepts it and reads `a` back from it. */
  function ToJson(a: AnalysisResult): (j: Json)
    ensures j.JObject? && j.fields.Keys == {"species", "notes", "isToxic"}
    ensures AnalyzePlantImage(ImageJson(j)) == Ok(a)
  {
    JObject(map["species" := JString(a.species), "notes" := JString(a.notes), "isToxic" := JBool(a.isToxic)])
  }

  /** A reply that follows the schema, with any extra fields, is accepted and read back
      unchanged. */
  lemma SchemaReplyAccepted(a: AnalysisResult, extra: map<string, Json>)
    ensures AnalyzePlantImage(ImageJson(JObject(extra + ToJson(a).fields))) == Ok(a)
  {
    var j := JObject(extra + ToJson(a).fields);
    assert j.fields["species"] == JString(a.species);
    assert j.fields["notes"] == JString(a.notes);
    assert j.fields["isToxic"] == JBool(a.isToxic);
  }

  /** Anything but an object is rejected. */
  lemma NonObjectRejected(j: Json)
    requires !j.JObject?
    ensures AnalyzePlantImage(ImageJson(j)) == Err(AnalysisFailed)
  {
  }
}
