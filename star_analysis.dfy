/** The normalisation of the chat model's answer in the star controller
    (`callAIAnalysis` and `saveAnalysisResult` of controllers/star.go). The
    chat call's outcome is an input; the two JSON decodings are oracles: the
    direct decoding into the result record, which may fill part of the
    record before it fails, and the decoding of the extracted block into a
    loosely typed map, reduced here to what the code reads from it. */
module StarAnalysis {
  import opened Wrappers
  import opened Strings
  import opened Repository

  /** `AIAnalysisResult`. */
  datatype AIResult = AIResult(category: string, tags: seq<string>, description: string)

  /** The direct decoding of the answer: the record as far as it was filled,
      and whether decoding succeeded. */
  datatype Decoded = Decoded(partial: AIResult, ok: bool)

  /** The `tags` entry of the loosely decoded map: absent, a string, an array
      (its elements as `%v` renders them), or some other JSON value. */
  datatype RawTags = NoTags | TagString(s: string) | TagArray(items: seq<string>) | TagOther

  /** What the code reads from the loosely decoded map: `category` and
      `description` when they are strings, and `tags`. */
  datatype RawResult = RawResult(category: Option<string>, description: Option<string>, tags: RawTags)

  type DirectDecode = string -> Decoded
  type RawDecode = string -> Result<RawResult>

  const MaxTags: nat := 3

  /** The block from the first '{' to the last '}' of the answer, with every
      newline and backslash dropped; none when there is no such block. */
  function ExtractJson(text: string): Option<string>
  {
    var start := IndexOf(text, '{');
    var end := LastIndexOf(text, '}');
    if start >= 0 && end > start then Some(Remove(Remove(text[start..end + 1], '\n'), '\\'))
    else None
  }

  /** There is a block exactly when some '{' comes before some '}'. */
  lemma ExtractJsonFound(text: string)
    ensures ExtractJson(text).Some? <==> exists i, j :: 0 <= i < j < |text| && text[i] == '{' && text[j] == '}'
  {
    var start := IndexOf(text, '{');
    var end := LastIndexOf(text, '}');
    if exists i, j :: 0 <= i < j < |text| && text[i] == '{' && text[j] == '}' {
      var i, j :| 0 <= i < j < |text| && text[i] == '{' && text[j] == '}';
      assert start <= i && j <= end;
    }
    if start >= 0 && end > start {
      assert text[start] == '{' && text[end] == '}';
    }
  }

  /** An extracted block starts with '{', ends with '}' and holds no newline
      and no backslash. */
  lemma ExtractJsonShape(text: string)
    ensures ExtractJson(text).Some? ==>
      var b := ExtractJson(text).value;
      && |b| >= 2 && b[0] == '{' && b[|b| - 1] == '}'
      && '\n' !in b && '\\' !in b
  {
    var start := IndexOf(text, '{');
    var end := LastIndexOf(text, '}');
    if start >= 0 && end > start {
      var block := text[start..end + 1];
      assert block[0] == '{' && block[|block| - 1] == '}';
      BlockShape(block);
    }
  }

  /** Dropping newlines and backslashes from a '{' ... '}' block keeps its
      braces at both ends. */
  lemma BlockShape(block: string)
    requires |block| >= 2 && block[0] == '{' && block[|block| - 1] == '}'
    ensures var b := Remove(Remove(block, '\n'), '\\');
      |b| >= 2 && b[0] == '{' && b[|b| - 1] == '}'
  {
    var once := Remove(block, '\n');
    assert once[0] == '{' && once[|once| - 1] == '}';
    var b := Remove(once, '\\');
    assert b[0] == '{' && b[|b| - 1] == '}';
  }

  /** Every tag with surrounding white space trimmed. */
  function TrimAll(tags: seq<string>): (r: seq<string>)
    ensures |r| == |tags|
  {
    seq(|tags|, i requires 0 <= i < |tags| => TrimSpace(tags[i]))
  }

  /** The record of the direct decoding, completed from the loosely decoded
      map: a string `category` or `description` replaces the field; a string
      `tags` is split at commas and each piece trimmed; an array gives its
      elements; any other `tags` value, or none, keeps the tags. */
  function FromRaw(partial: AIResult, raw: RawResult): AIResult
  {
    var tags := match raw.tags
      case TagString(s) => TrimAll(Split(s, ','))
      case TagArray(items) => items
      case _ => partial.tags;
    AIResult(raw.category.GetOr(partial.category), tags, raw.description.GetOr(partial.description))
  }

  /** The checks and the clean-up after decoding: a category and at least one
      tag are required; at most three tags are kept, each trimmed. */
  function Validate(result: AIResult): Result<AIResult>
  {
    if result.category == "" then Err(EmptyCategory)
    else if |result.tags| == 0 then Err(EmptyTags)
    else
      var kept := if |result.tags| > MaxTags then result.tags[..MaxTags] else result.tags;
      Ok(result.(tags := TrimAll(kept)))
  }

  /** The record before validation, or the error of the decoding stage. */
  function Decode(text: string, direct: DirectDecode, raw: RawDecode): Result<AIResult>
  {
    var d := direct(text);
    if d.ok then Ok(d.partial)
    else match ExtractJson(text)
      case None => Err(NoJsonFound)
      case Some(block) =>
        match raw(block)
        case Err(_) => Err(JsonBlockInvalid)
        case Ok(m) => Ok(FromRaw(d.partial, m))
  }

  /** What `callAIAnalysis` returns for the chat call's outcome. */
  function Analysis(content: Result<string>, direct: DirectDecode, raw: RawDecode): Result<AIResult>
  {
    match content
    case Err(e) => Err(AICallFailed(e))
    case Ok(text) =>
      match Decode(text, direct, raw)
      case Err(e) => Err(e)
      case Ok(result) => Validate(result)
  }

  /** `callAIAnalysis`, after the chat call. */
  method CallAIAnalysis(content: Result<string>, direct: DirectDecode, raw: RawDecode) returns (r: Result<AIResult>)
    ensures r == Analysis(content, direct, raw)
  {
    if content.Err? {
      return Err(AICallFailed(content.error));
    }
    var decoded := DecodeAnswer(content.value, direct, raw);
    if decoded.Err? {
      return Err(decoded.error);
    }
    var result := decoded.value;
    if result.category == "" {
      return Err(EmptyCategory);
    }
    if |result.tags| == 0 {
      return Err(EmptyTags);
    }
    var tags := result.tags;
    if |tags| > MaxTags {
      tags := tags[..MaxTags];
    }
    tags := TrimEach(tags);
    return Ok(result.(tags := tags));
  }

  /** The decoding stage of `callAIAnalysis`: the direct decoding, or else the
      extracted block decoded loosely and laid over the partial record. */
  method DecodeAnswer(text: string, direct: DirectDecode, raw: RawDecode) returns (r: Result<AIResult>)
    ensures r == Decode(text, direct, raw)
  {
    var decoded := direct(text);
    if decoded.ok {
      return Ok(decoded.partial);
    }
    var jsonStr := ExtractJson(text);
    if jsonStr.None? {
      return Err(NoJsonFound);
    }
    var rawResult := raw(jsonStr.value);
    if rawResult.Err? {
      return Err(JsonBlockInvalid);
    }
    var result := CompleteFromRaw(decoded.partial, rawResult.value);
    return Ok(result);
  }

  /** The fields of the loosely decoded map laid over the partial record. */
  method CompleteFromRaw(partial: AIResult, m: RawResult) returns (result: AIResult)
    ensures result == FromRaw(partial, m)
  {
    result := partial;
    if m.category.Some? {
      result := result.(category := m.category.value);
    }
    if m.description.Some? {
      result := result.(description := m.description.value);
    }
    match m.tags {
      case TagString(v) =>
        var tags := Split(v, ',');
        tags := TrimEach(tags);
        result := result.(tags := tags);
      case TagArray(items) =>
        result := result.(tags := items);
      case NoTags =>
      case TagOther =>
    }
  }

  /** The loop that trims every tag in place. */
  method TrimEach(tags: seq<string>) returns (out: seq<string>)
    ensures out == TrimAll(tags)
  {
    out := tags;
    for i := 0 to |out|
      invariant |out| == |tags|
      invariant forall k :: 0 <= k < i ==> out[k] == TrimSpace(tags[k])
      invariant forall k :: i <= k < |out| ==> out[k] == tags[k]
    {
      out := out[i := TrimSpace(out[i])];
    }
  }

  /** A record that passes validation keeps its category and description,
      and one to three tags: its first ones, trimmed, each then without
      surrounding white space. */
  lemma ValidateAccepted(d: AIResult)
    requires Validate(d).Ok?
    ensures var a := Validate(d).value;
      && a.category == d.category != ""
      && a.description == d.description
      && 1 <= |a.tags| <= MaxTags
      && |a.tags| == (if |d.tags| > MaxTags then MaxTags else |d.tags|)
      && (forall i :: 0 <= i < |a.tags| ==> a.tags[i] == TrimSpace(d.tags[i]))
      && (forall i :: 0 <= i < |a.tags| ==> TrimSpace(a.tags[i]) == a.tags[i])
  {
    var a := Validate(d).value;
    forall i | 0 <= i < |a.tags| ensures TrimSpace(a.tags[i]) == a.tags[i] {
      TrimSpaceIdempotent(d.tags[i]);
    }
  }

  /** An accepted result has a category, one to three tags, each without
      surrounding white space, and they are the first tags of the decoded
      record, trimmed. */
  lemma AnalysisAccepted(content: Result<string>, direct: DirectDecode, raw: RawDecode)
    requires Analysis(content, direct, raw).Ok?
    ensures var a := Analysis(content, direct, raw).value;
      var d := Decode(content.value, direct, raw).value;
      && a.category == d.category != ""
      && a.description == d.description
      && 1 <= |a.tags| <= MaxTags
      && |a.tags| == (if |d.tags| > MaxTags then MaxTags else |d.tags|)
      && (forall i :: 0 <= i < |a.tags| ==> a.tags[i] == TrimSpace(d.tags[i]))
      && (forall i :: 0 <= i < |a.tags| ==> TrimSpace(a.tags[i]) == a.tags[i])
  {
    var d := Decode(content.value, direct, raw).value;
    assert Analysis(content, direct, raw) == Validate(d);
    ValidateAccepted(d);
  }

  /** Which stage fails: a failed chat call, then an answer that neither
      decodes nor holds a '{' ... '}' block, then a block that does not
      decode, then an empty category, then no tags. */
  lemma AnalysisErrors(content: Result<string>, direct: DirectDecode, raw: RawDecode)
    ensures content.Err? ==> Analysis(content, direct, raw) == Err(AICallFailed(content.error))
    ensures content.Ok? && !direct(content.value).ok && ExtractJson(content.value).None? ==>
      Analysis(content, direct, raw) == Err(NoJsonFound)
    ensures content.Ok? && !direct(content.value).ok && ExtractJson(content.value).Some?
            && raw(ExtractJson(content.value).value).Err? ==>
      Analysis(content, direct, raw) == Err(JsonBlockInvalid)
    ensures content.Ok? && Decode(content.value, direct, raw).Ok? ==>
      var d := Decode(content.value, direct, raw).value;
      && (d.category == "" <==> Analysis(content, direct, raw) == Err(EmptyCategory))
      && (d.category != "" && d.tags == [] <==> Analysis(content, direct, raw) == Err(EmptyTags))
      && (d.category != "" && d.tags != [] <==> Analysis(content, direct, raw).Ok?)
  {
  }

  /** A character that does not occur in a string does not occur in it
      trimmed. */
  lemma TrimSpaceKeepsOut(s: string, c: char)
    requires c !in s
    ensures c !in TrimSpace(s)
  {
    var i := TrimSpaceInfix(s);
  }

  /** Tags that came as one string are its first comma-separated pieces,
      trimmed, and none of them holds a comma. */
  lemma TagStringTags(partial: AIResult, m: RawResult)
    requires m.tags.TagString?
    requires Validate(FromRaw(partial, m)).Ok?
    ensures var tags := Validate(FromRaw(partial, m)).value.tags;
      var pieces := Split(m.tags.s, ',');
      && |tags| == (if |pieces| > MaxTags then MaxTags else |pieces|)
      && (forall i :: 0 <= i < |tags| ==> tags[i] == TrimSpace(pieces[i]))
      && (forall i :: 0 <= i < |tags| ==> ',' !in tags[i])
  {
    var pieces := Split(m.tags.s, ',');
    var tags := Validate(FromRaw(partial, m)).value.tags;
    forall i | 0 <= i < |tags| ensures tags[i] == TrimSpace(pieces[i]) && ',' !in tags[i] {
      TrimSpaceIdempotent(pieces[i]);
      TrimSpaceKeepsOut(pieces[i], ',');
    }
  }

  /** A blank `tags` string is one empty piece, so it passes the check for
      missing tags and the result holds the single tag "". */
  lemma BlankTagStringKeepsOneEmptyTag(partial: AIResult, category: string)
    requires category != ""
    ensures Validate(FromRaw(partial, RawResult(Some(category), None, TagString("")))).Ok?
    ensures Validate(FromRaw(partial, RawResult(Some(category), None, TagString("")))).value.tags == [""]
  {
    assert Split("", ',') == [""];
    assert TrimSpace("") == "";
  }

  /** The record `saveAnalysisResult` files: the tags joined with commas. */
  function AnalysisRecord(id: int, result: AIResult): RepoTag
  {
    RepoTag(id, Join(result.tags, ','), result.category, result.description)
  }

  /** Tags without commas come back from the saved record by splitting it at
      commas, as a tag string would be read. */
  lemma AnalysisRecordRoundTrip(id: int, result: AIResult)
    requires |result.tags| >= 1
    requires forall i :: 0 <= i < |result.tags| ==> ',' !in result.tags[i]
    ensures Split(AnalysisRecord(id, result).tag, ',') == result.tags
    ensures AnalysisRecord(id, result).id == id
  {
    SplitJoin(result.tags, ',');
  }

  /** `saveAnalysisResult`: files the result as the record of `id`, replacing
      any earlier one; every other record stays. */
  method SaveAnalysisResult(store: FileRepository, id: int, result: AIResult)
    requires store.Valid()
    modifies store
    ensures store.tags == old(store.tags)[id := AnalysisRecord(id, result)]
    ensures store.repos == old(store.repos) && store.syncTime == old(store.syncTime)
    ensures store.Valid()
  {
    var repoTag := RepoTag(id, Join(result.tags, ','), result.category, result.description);
    store.SaveRepoTag(repoTag);
  }
}
