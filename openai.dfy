/** The chat client of utils/openai.go: the dotted-path merge of custom body
    fields into the request body, the request URL, and the decision that
    turns the chat endpoint's answer into content or an error. The request
    itself is an oracle; the JSON body is the value it would encode. */
module OpenAI {
  import opened Wrappers
  import opened Strings

  /** A JSON value as the body map holds it: strings, objects and arrays. */
  datatype Value = Leaf(s: string) | Obj(fields: map<string, Value>) | Arr(items: seq<Value>)

  /** `KeyValue` of the settings: a custom body field or header. */
  datatype KeyValue = KeyValue(key: string, value: string)

  /** The map found under `k`, or a fresh empty one when `k` is missing or
      holds something other than a map. */
  function ChildMap(m: map<string, Value>, k: string): map<string, Value>
  {
    if k in m && m[k].Obj? then m[k].fields else map[]
  }

  /** `m` with `v` stored at the path `ks`: every intermediate map is
      descended into, and a missing or non-map intermediate is replaced by a
      fresh map. */
  function Insert(m: map<string, Value>, ks: seq<string>, v: Value): map<string, Value>
    requires |ks| >= 1
    decreases |ks|
  {
    if |ks| == 1 then m[ks[0] := v]
    else m[ks[0] := Obj(Insert(ChildMap(m, ks[0]), ks[1..], v))]
  }

  /** Following the path `ks` from `m`: the value at its end, if every step
      finds a map. */
  function Lookup(m: map<string, Value>, ks: seq<string>): Option<Value>
    requires |ks| >= 1
    decreases |ks|
  {
    if ks[0] !in m then None
    else if |ks| == 1 then Some(m[ks[0]])
    else if m[ks[0]].Obj? then Lookup(m[ks[0]].fields, ks[1..])
    else None
  }

  /** Following the path just written reaches the value written. */
  lemma {:induction false} InsertReaches(m: map<string, Value>, ks: seq<string>, v: Value)
    requires |ks| >= 1
    ensures Lookup(Insert(m, ks, v), ks) == Some(v)
    decreases |ks|
  {
    if |ks| > 1 {
      InsertReaches(ChildMap(m, ks[0]), ks[1..], v);
    }
  }

  /** Keys other than the first segment keep their values. */
  lemma InsertKeepsOtherKeys(m: map<string, Value>, ks: seq<string>, v: Value)
    requires |ks| >= 1
    ensures forall k :: k != ks[0] ==>
      (k in Insert(m, ks, v) <==> k in m) && (k in m ==> Insert(m, ks, v)[k] == m[k])
    ensures ks[0] in Insert(m, ks, v)
  {
  }

  /** An intermediate that is a map is descended into: every key of it other
      than the next segment keeps its value. One that is missing or not a map
      becomes a fresh map holding the next segment only. */
  lemma InsertIntermediate(m: map<string, Value>, ks: seq<string>, v: Value)
    requires |ks| >= 2
    ensures Insert(m, ks, v)[ks[0]].Obj?
    ensures ks[0] in m && m[ks[0]].Obj? ==>
      forall k :: k in m[ks[0]].fields && k != ks[1] ==>
        k in Insert(m, ks, v)[ks[0]].fields && Insert(m, ks, v)[ks[0]].fields[k] == m[ks[0]].fields[k]
    ensures !(ks[0] in m && m[ks[0]].Obj?) ==> Insert(m, ks, v)[ks[0]].fields.Keys == {ks[1]}
  {
    InsertKeepsOtherKeys(ChildMap(m, ks[0]), ks[1..], v);
  }

  /** Writing the same path twice leaves the second value only. */
  lemma {:induction false} InsertOverrides(m: map<string, Value>, ks: seq<string>, v1: Value, v2: Value)
    requires |ks| >= 1
    ensures Insert(Insert(m, ks, v1), ks, v2) == Insert(m, ks, v2)
    decreases |ks|
  {
    if |ks| > 1 {
      var once := Insert(m, ks, v1);
      assert ChildMap(once, ks[0]) == Insert(ChildMap(m, ks[0]), ks[1..], v1);
      InsertOverrides(ChildMap(m, ks[0]), ks[1..], v1, v2);
    }
  }

  /** One step of the rebuild: a path written from level `j` is the map of
      that level with the rest of the path written below it. */
  lemma InsertStep(m: map<string, Value>, ks: seq<string>, j: nat, below: map<string, Value>, v: Value)
    requires j + 1 < |ks|
    requires below == Insert(ChildMap(m, ks[j]), ks[j + 1..], v)
    ensures Insert(m, ks[j..], v) == m[ks[j] := Obj(below)]
  {
    assert ks[j..][0] == ks[j];
    assert ks[j..][1..] == ks[j + 1..];
  }

  /** `mergeNestedField`: the key is split at dots and the path walked down
      from `data`, creating maps where needed, and the value stored at its
      end. The walk is done in two passes, down collecting the map of each
      level and up rebuilding them. */
  method MergeNestedField(data: map<string, Value>, key: string, value: Value) returns (r: map<string, Value>)
    ensures r == Insert(data, Split(key, '.'), value)
  {
    var keys := Split(key, '.');
    var n := |keys|;
    var levels: seq<map<string, Value>> := [data];
    var i := 0;
    while i < n - 1
      invariant 0 <= i <= n - 1
      invariant |levels| == i + 1 && levels[0] == data
      invariant forall j :: 0 <= j < i ==> levels[j + 1] == ChildMap(levels[j], keys[j])
    {
      levels := levels + [ChildMap(levels[i], keys[i])];
      i := i + 1;
    }
    r := levels[n - 1][keys[n - 1] := value];
    assert r == Insert(levels[n - 1], keys[n - 1..], value);
    var j := n - 1;
    while j > 0
      invariant 0 <= j <= n - 1
      invariant r == Insert(levels[j], keys[j..], value)
    {
      InsertStep(levels[j - 1], keys, j - 1, r, value);
      r := levels[j - 1][keys[j - 1] := Obj(r)];
      j := j - 1;
    }
    assert keys[0..] == keys;
  }

  /** The request body before custom fields: the model and one user message
      carrying the prompt. */
  function BaseBody(model: string, prompt: string): map<string, Value>
  {
    map["model" := Leaf(model),
        "messages" := Arr([Obj(map["role" := Leaf("user"), "content" := Leaf(prompt)])])]
  }

  /** The body after the custom fields `items`, applied in order. */
  function ApplyBody(m: map<string, Value>, items: seq<KeyValue>): map<string, Value>
  {
    if items == [] then m
    else
      var last := items[|items| - 1];
      Insert(ApplyBody(m, items[..|items| - 1]), Split(last.key, '.'), Leaf(last.value))
  }

  /** The loop over the custom body fields of `CallWithPrompt`. */
  method BuildBody(model: string, prompt: string, items: seq<KeyValue>) returns (body: map<string, Value>)
    ensures body == ApplyBody(BaseBody(model, prompt), items)
  {
    body := BaseBody(model, prompt);
    for i := 0 to |items|
      invariant body == ApplyBody(BaseBody(model, prompt), items[..i])
    {
      assert items[..i + 1][..i] == items[..i];
      body := MergeNestedField(body, items[i].key, Leaf(items[i].value));
    }
    assert items[..|items|] == items;
  }

  /** The last custom field wins at its path: the body holds its value there,
      and an earlier field with the same path is overridden, the model and
      the messages included. */
  lemma LaterFieldWins(m: map<string, Value>, items: seq<KeyValue>, key: string, v1: string, v2: string)
    ensures Lookup(ApplyBody(m, items + [KeyValue(key, v2)]), Split(key, '.')) == Some(Leaf(v2))
    ensures ApplyBody(m, items + [KeyValue(key, v1), KeyValue(key, v2)]) == ApplyBody(m, items + [KeyValue(key, v2)])
  {
    var one := items + [KeyValue(key, v2)];
    assert one[..|one| - 1] == items;
    InsertReaches(ApplyBody(m, items), Split(key, '.'), Leaf(v2));
    var two := items + [KeyValue(key, v1), KeyValue(key, v2)];
    assert two[..|two| - 1] == items + [KeyValue(key, v1)];
    assert (items + [KeyValue(key, v1)])[..|items|] == items;
    InsertOverrides(ApplyBody(m, items), Split(key, '.'), Leaf(v1), Leaf(v2));
  }

  /** Without custom fields the body is the base body; a field "model"
      replaces the model name. */
  lemma ModelOverridable(model: string, prompt: string, other: string)
    ensures ApplyBody(BaseBody(model, prompt), []) == BaseBody(model, prompt)
    ensures ApplyBody(BaseBody(model, prompt), [KeyValue("model", other)])["model"] == Leaf(other)
    ensures ApplyBody(BaseBody(model, prompt), [KeyValue("model", other)])["messages"] == BaseBody(model, prompt)["messages"]
  {
    SplitOfPlainPiece("model", '.');
    var items := [KeyValue("model", other)];
    assert items[..0] == [];
  }

  /** The path of the chat endpoint below the configured base URL. */
  const CompletionsPath: string := "chat/completions"

  /** The request URL: the endpoint, a '/' unless it already ends with one,
      then "chat/completions". */
  function ChatURL(endpoint: string): (url: string)
  {
    var base := if HasSuffix(endpoint, "/") then endpoint else endpoint + "/";
    base + CompletionsPath
  }

  /** The URL is the endpoint without its trailing '/', then '/', then
      "chat/completions". */
  lemma ChatURLShape(endpoint: string)
    ensures ChatURL(endpoint) == TrimSuffix(endpoint, "/") + "/" + CompletionsPath
  {
    if !HasSuffix(endpoint, "/") {
      assert TrimSuffix(endpoint, "/") == endpoint;
    }
  }

  /** A trailing '/' on the endpoint makes no difference to the URL. */
  lemma ChatURLTrailingSlash(endpoint: string)
    ensures !HasSuffix(endpoint, "/") ==> ChatURL(endpoint + "/") == ChatURL(endpoint)
  {
    var e := endpoint + "/";
    assert e[|e| - 1..] == "/";
  }

  /** The decoded chat response: each choice's message content, and
      `error.message` ("" when absent). */
  datatype ChatResponse = ChatResponse(choices: seq<string>, errorMessage: string)

  /** The HTTP answer: status code and body. */
  datatype HttpResponse = HttpResponse(status: int, body: string)

  /** The decision of `CallWithPrompt` on the endpoint's answer. */
  function DecideResponse(resp: Result<HttpResponse>, decode: string -> Result<ChatResponse>): (r: Result<string>)
  {
    match resp
    case Err(e) => Err(RequestFailed(e))
    case Ok(HttpResponse(status, body)) =>
      if status != 200 then Err(StatusNotOk(status, body))
      else match decode(body)
        case Err(e) => Err(ResponseInvalid(e))
        case Ok(chat) =>
          if chat.errorMessage != "" then Err(ApiReportedError(chat.errorMessage))
          else if |chat.choices| == 0 then Err(NoChoices)
          else Ok(chat.choices[0])
  }

  /** Content comes back exactly from a 200 answer that decodes, reports no
      error message and has a choice: the first choice's content. Each other
      case is its own error, checked in that order. */
  lemma DecideResponseCases(resp: Result<HttpResponse>, decode: string -> Result<ChatResponse>)
    ensures DecideResponse(resp, decode).Ok? <==>
      && resp.Ok? && resp.value.status == 200 && decode(resp.value.body).Ok?
      && decode(resp.value.body).value.errorMessage == "" && |decode(resp.value.body).value.choices| > 0
    ensures DecideResponse(resp, decode).Ok? ==>
      DecideResponse(resp, decode).value == decode(resp.value.body).value.choices[0]
    ensures resp.Ok? && resp.value.status != 200 ==>
      DecideResponse(resp, decode) == Err(StatusNotOk(resp.value.status, resp.value.body))
    ensures resp.Ok? && resp.value.status == 200 && decode(resp.value.body).Ok? ==>
      var chat := decode(resp.value.body).value;
      && (chat.errorMessage != "" ==> DecideResponse(resp, decode) == Err(ApiReportedError(chat.errorMessage)))
      && (chat.errorMessage == "" && chat.choices == [] ==> DecideResponse(resp, decode) == Err(NoChoices))
  {
  }

  /** `CallWithPrompt`: build the URL and the body, post them, decide on the
      answer. `post` stands for building and sending the request. */
  method CallWithPrompt(endpoint: string, model: string, items: seq<KeyValue>, prompt: string,
                        post: (string, map<string, Value>) -> Result<HttpResponse>,
                        decode: string -> Result<ChatResponse>)
    returns (r: Result<string>)
    ensures r == DecideResponse(post(ChatURL(endpoint), ApplyBody(BaseBody(model, prompt), items)), decode)
  {
    var url := endpoint;
    if !HasSuffix(url, "/") {
      url := url + "/";
    }
    url := url + "chat/completions";
    var body := BuildBody(model, prompt, items);
    var resp := post(url, body);
    if resp.Err? {
      return Err(RequestFailed(resp.error));
    }
    if resp.value.status != 200 {
      return Err(StatusNotOk(resp.value.status, resp.value.body));
    }
    var chat := decode(resp.value.body);
    if chat.Err? {
      return Err(ResponseInvalid(chat.error));
    }
    if chat.value.errorMessage != "" {
      return Err(ApiReportedError(chat.value.errorMessage));
    }
    if |chat.value.choices| == 0 {
      return Err(NoChoices);
    }
    return Ok(chat.value.choices[0]);
  }
}
