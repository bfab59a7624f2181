/**
 * `invoke_agentcore_agent`, the helper the research agent's two tools use to
 * call a deployed AgentCore agent: send the prompt, join the streamed reply
 * chunks, parse them as JSON and unwrap the `result` -> `content` ->
 * `[{"text": ...}]` shape, falling back to `str(...)` at each level.  Every
 * exception becomes the reply `"Error searching <agent type>: <message>"`.
 *
 * The runtime call, UTF-8 decoding of a chunk, `json.loads` and Python's
 * `str()` of a non-string value are parameters of the model.
 */
module AgentResponse {
  import opened Wrappers

  /** A value `json.loads` produces. */
  datatype Json =
    | JNull
    | JBool(b: bool)
    | JInt(i: int)
      /** A float, kept as the literal text it was parsed from. */
    | JFloat(literal: string)
    | JStr(s: string)
    | JArr(items: seq<Json>)
    | JObj(fields: map<string, Json>)

  /** The name of the Python type a JSON value becomes. */
  function TypeName(j: Json): string
  {
    match j
    case JNull => "NoneType"
    case JBool(_) => "bool"
    case JInt(_) => "int"
    case JFloat(_) => "float"
    case JStr(_) => "str"
    case JArr(_) => "list"
    case JObj(_) => "dict"
  }

  type Bytes = seq<bv8>

  /** The arguments of `invoke_agent_runtime`; the payload is `{"prompt": query}`. */
  datatype Request = Request(agentRuntimeArn: string, qualifier: string, prompt: string,
                             contentType: string, accept: string)

  /** What `invoke_agent_runtime` did: raised, or returned a response with or without a `response` stream. */
  datatype Invocation =
    | InvokeFailed(message: string)
    | Invoked(stream: Option<seq<Bytes>>)

  const DefaultAgentType: string := "agent"
  const ErrorHead: string := "Error searching "

  function RequestFor(agentArn: string, query: string): Request
  {
    Request(agentArn, "DEFAULT", query, "application/json", "application/json")
  }

  /** The reply for an exception with message `message`. */
  function ErrorReply(agentType: string, message: string): string
  {
    ErrorHead + agentType + ": " + message
  }

  // ---------------------------------------------------------------------
  // Joining the stream

  /** `response.get("response", [])` */
  function ChunksOf(stream: Option<seq<Bytes>>): seq<Bytes>
  {
    match stream
    case Some(chunks) => chunks
    case None => []
  }

  /**
   * `''.join(chunk.decode('utf-8') for chunk in chunks)`: the decoded chunks
   * in order, or the error of the first chunk that does not decode.
   */
  function DecodeAll(chunks: seq<Bytes>, decode: Bytes -> Result<string, string>): Result<string, string>
  {
    if chunks == [] then Ok("")
    else match decode(chunks[0])
      case Err(e) => Err(e)
      case Ok(text) =>
        match DecodeAll(chunks[1..], decode)
        case Err(e) => Err(e)
        case Ok(rest) => Ok(text + rest)
  }

  /** Decoding two consecutive runs of chunks: the first error wins, otherwise the texts are joined. */
  lemma {:induction false} DecodeAllAppend(c1: seq<Bytes>, c2: seq<Bytes>, decode: Bytes -> Result<string, string>)
    ensures DecodeAll(c1 + c2, decode)
            == match DecodeAll(c1, decode)
               case Err(e) => Err(e)
               case Ok(t1) =>
                 match DecodeAll(c2, decode)
                 case Err(e) => Err(e)
                 case Ok(t2) => Ok(t1 + t2)
    decreases |c1|
  {
    if c1 == [] {
      assert c1 + c2 == c2;
      match DecodeAll(c2, decode)
      case Err(e) =>
      case Ok(t2) => assert "" + t2 == t2;
    } else {
      assert (c1 + c2)[1..] == c1[1..] + c2;
      DecodeAllAppend(c1[1..], c2, decode);
      match DecodeAll(c2, decode)
      case Err(e) =>
      case Ok(t2) =>
        match DecodeAll(c1[1..], decode)
        case Err(e) =>
        case Ok(t1) =>
          match decode(c1[0])
          case Err(e) =>
          case Ok(t0) => assert t0 + (t1 + t2) == (t0 + t1) + t2;
    }
  }

  /** One chunk decodes to its own text. */
  lemma DecodeOne(chunk: Bytes, decode: Bytes -> Result<string, string>)
    ensures DecodeAll([chunk], decode) == decode(chunk)
  {
    assert [chunk][1..] == [];
    match decode(chunk)
    case Err(e) =>
    case Ok(t) => assert t + "" == t;
  }

  /** The stream decodes exactly when every chunk does. */
  lemma {:induction false} DecodeAllOkIff(chunks: seq<Bytes>, decode: Bytes -> Result<string, string>)
    ensures DecodeAll(chunks, decode).Ok? <==> forall i :: 0 <= i < |chunks| ==> decode(chunks[i]).Ok?
  {
    if chunks != [] {
      DecodeAllOkIff(chunks[1..], decode);
      assert forall i :: 0 < i < |chunks| ==> chunks[1..][i - 1] == chunks[i];
    }
  }

  /** A failure reports the message of the first chunk that does not decode. */
  lemma {:induction false} DecodeAllFirstError(chunks: seq<Bytes>, decode: Bytes -> Result<string, string>)
    requires DecodeAll(chunks, decode).Err?
    ensures exists i :: 0 <= i < |chunks| &&
              decode(chunks[i]) == Err(DecodeAll(chunks, decode).error) &&
              forall j :: 0 <= j < i ==> decode(chunks[j]).Ok?
  {
    var e := DecodeAll(chunks, decode).error;
    if decode(chunks[0]).Err? {
      assert decode(chunks[0]) == Err(e);
    } else {
      var tail := chunks[1..];
      DecodeAllFirstError(tail, decode);
      var i :| 0 <= i < |tail| && decode(tail[i]) == Err(e) && forall j :: 0 <= j < i ==> decode(tail[j]).Ok?;
      assert chunks[i + 1] == tail[i];
      forall j | 0 <= j < i + 1 ensures decode(chunks[j]).Ok? {
        if j > 0 {
          assert chunks[j] == tail[j - 1];
        }
      }
    }
  }

  // ---------------------------------------------------------------------
  // The content array

  /** An item the loop takes its text from: an object with a `text` key. */
  predicate IsTextItem(item: Json)
  {
    item.JObj? && "text" in item.fields
  }

  /** What one item appends to `text_parts`. */
  function TextPart(item: Json): seq<Json>
  {
    if IsTextItem(item) then [item.fields["text"]] else []
  }

  /** The values appended to `text_parts`, in order. */
  function TextParts(items: seq<Json>): seq<Json>
  {
    if items == [] then [] else TextPart(items[0]) + TextParts(items[1..])
  }

  /** The parts of two consecutive runs of items are those of the first, then those of the second. */
  lemma {:induction false} TextPartsAppend(a: seq<Json>, b: seq<Json>)
    ensures TextParts(a + b) == TextParts(a) + TextParts(b)
    decreases |a|
  {
    if a == [] {
      assert a + b == b;
    } else {
      assert (a + b)[1..] == a[1..] + b;
      TextPartsAppend(a[1..], b);
    }
  }

  /** One item contributes its text when it is an object with `text`, and nothing otherwise. */
  lemma TextPartsOne(item: Json)
    ensures TextParts([item]) == if IsTextItem(item) then [item.fields["text"]] else []
  {
    assert [item][1..] == [];
    assert TextParts([item]) == TextPart(item) + TextParts([]);
  }

  /** An item that is not an object with `text` is skipped, wherever it is. */
  lemma TextPartsSkip(a: seq<Json>, item: Json, b: seq<Json>)
    requires !IsTextItem(item)
    ensures TextParts(a + [item] + b) == TextParts(a) + TextParts(b)
  {
    TextPartsAppend(a + [item], b);
    TextPartsAppend(a, [item]);
    TextPartsOne(item);
  }

  /** The parts are exactly the texts of the qualifying items. */
  lemma {:induction false} TextPartsMembers(items: seq<Json>, x: Json)
    ensures x in TextParts(items) <==>
            exists i :: 0 <= i < |items| && IsTextItem(items[i]) && items[i].fields["text"] == x
  {
    if items != [] {
      TextPartsMembers(items[1..], x);
      if x in TextParts(items[1..]) {
        var i :| 0 <= i < |items[1..]| && IsTextItem(items[1..][i]) && items[1..][i].fields["text"] == x;
        assert items[i + 1] == items[1..][i];
      }
      if exists i :: 0 <= i < |items| && IsTextItem(items[i]) && items[i].fields["text"] == x {
        var i :| 0 <= i < |items| && IsTextItem(items[i]) && items[i].fields["text"] == x;
        if i > 0 {
          assert items[1..][i - 1] == items[i];
        }
      }
    }
  }

  /** With no qualifying item there are no parts. */
  lemma {:induction false} NoTextParts(items: seq<Json>)
    requires forall i :: 0 <= i < |items| ==> !IsTextItem(items[i])
    ensures TextParts(items) == []
  {
    if items != [] {
      assert forall i :: 0 <= i < |items| - 1 ==> items[1..][i] == items[i + 1];
      NoTextParts(items[1..]);
    }
  }

  /** The loop that collects the `text` values of the content array. */
  method CollectTextParts(items: seq<Json>) returns (parts: seq<Json>)
    ensures parts == TextParts(items)
  {
    parts := [];
    for i := 0 to |items|
      invariant parts == TextParts(items[..i])
    {
      assert items[..i + 1] == items[..i] + [items[i]];
      TextPartsAppend(items[..i], [items[i]]);
      TextPartsOne(items[i]);
      if IsTextItem(items[i]) {
        parts := parts + [items[i].fields["text"]];
      }
    }
    assert items[..|items|] == items;
  }

  // ---------------------------------------------------------------------
  // `''.join(text_parts)`

  /** The decimal digits of `n`, as `%zd` writes them. */
  function Decimal(n: nat): (d: string)
    ensures |d| > 0
    ensures n >= 10 ==> d[0] != '0'
  {
    if n < 10 then [DigitChar(n)] else Decimal(n / 10) + [DigitChar(n % 10)]
  }

  function DigitChar(k: nat): char
    requires k < 10
  {
    ('0' as int + k) as char
  }

  /** The number a string of decimal digits denotes. */
  function DecimalValue(d: string): int
  {
    if d == [] then 0 else 10 * DecimalValue(d[..|d| - 1]) + (d[|d| - 1] as int - '0' as int)
  }

  /** `Decimal` is read back as the number it was written from. */
  lemma {:induction false} DecimalRoundTrip(n: nat)
    ensures DecimalValue(Decimal(n)) == n
    ensures forall k :: 0 <= k < |Decimal(n)| ==> '0' <= Decimal(n)[k] <= '9'
  {
    if n >= 10 {
      DecimalRoundTrip(n / 10);
      var d := Decimal(n);
      assert d[..|d| - 1] == Decimal(n / 10);
    }
  }

  /** The index of the first part that is not a string, or the number of parts. */
  function FirstNonString(parts: seq<Json>): (k: nat)
    ensures k <= |parts|
    ensures forall j :: 0 <= j < k ==> parts[j].JStr?
    ensures k < |parts| ==> !parts[k].JStr?
  {
    if parts == [] || !parts[0].JStr? then 0 else 1 + FirstNonString(parts[1..])
  }

  /** The concatenation of string parts. */
  function ConcatStrs(parts: seq<Json>): string
    requires forall j :: 0 <= j < |parts| ==> parts[j].JStr?
  {
    if parts == [] then "" else parts[0].s + ConcatStrs(parts[1..])
  }

  lemma {:induction false} ConcatStrsAppend(a: seq<Json>, b: seq<Json>)
    requires forall j :: 0 <= j < |a| ==> a[j].JStr?
    requires forall j :: 0 <= j < |b| ==> b[j].JStr?
    ensures ConcatStrs(a + b) == ConcatStrs(a) + ConcatStrs(b)
    decreases |a|
  {
    if a == [] {
      assert a + b == b;
    } else {
      assert (a + b)[1..] == a[1..] + b;
      ConcatStrsAppend(a[1..], b);
      assert a[0].s + (ConcatStrs(a[1..]) + ConcatStrs(b)) == (a[0].s + ConcatStrs(a[1..])) + ConcatStrs(b);
    }
  }

  /** The message of the `TypeError` `str.join` raises at a part that is not a string. */
  function JoinTypeError(index: nat, part: Json): string
  {
    "sequence item " + Decimal(index) + ": expected str instance, " + TypeName(part) + " found"
  }

  /** `''.join(parts)`: the concatenation, or the `TypeError` at the first part that is not a string. */
  function JoinText(parts: seq<Json>): Result<string, string>
  {
    var k := FirstNonString(parts);
    if k == |parts| then Ok(ConcatStrs(parts)) else Err(JoinTypeError(k, parts[k]))
  }

  /** The join succeeds exactly when every part is a string, and then it is their concatenation. */
  lemma JoinTextOkIff(parts: seq<Json>)
    ensures JoinText(parts).Ok? <==> forall j :: 0 <= j < |parts| ==> parts[j].JStr?
    ensures JoinText(parts).Err? ==>
              exists k :: 0 <= k < |parts| && !parts[k].JStr? &&
                (forall j :: 0 <= j < k ==> parts[j].JStr?) &&
                JoinText(parts).error == JoinTypeError(k, parts[k])
  {
  }

  // ---------------------------------------------------------------------
  // The cascade

  /** `str(value)`: a string is itself, anything else is `str` applied to it. */
  function StrOf(str: Json -> string, value: Json): string
  {
    if value.JStr? then value.s else str(value)
  }

  /** What the body of the `try` returns for the parsed value `result`, or the message it raises. */
  function Unwrap(result: Json, str: Json -> string): Result<string, string>
  {
    if result.JObj? && "result" in result.fields then
      var data := result.fields["result"];
      if data.JObj? && "content" in data.fields then
        var content := data.fields["content"];
        if content.JArr? then JoinText(TextParts(content.items))
        else Ok(StrOf(str, content))
      else Ok(StrOf(str, data))
    else Ok(StrOf(str, result))
  }

  /** The reply for a completed invocation; failures of any stage become the error reply. */
  function ReplySpec(inv: Invocation, decode: Bytes -> Result<string, string>,
                     parse: string -> Result<Json, string>, str: Json -> string,
                     agentType: string): string
  {
    var outcome :=
      match inv
      case InvokeFailed(m) => Err(m)
      case Invoked(stream) =>
        match DecodeAll(ChunksOf(stream), decode)
        case Err(m) => Err(m)
        case Ok(content) =>
          match parse(content)
          case Err(m) => Err(m)
          case Ok(result) => Unwrap(result, str);
    match outcome
    case Ok(text) => text
    case Err(m) => ErrorReply(agentType, m)
  }

  /** `invoke_agentcore_agent(agent_arn, query, agent_type)` */
  method InvokeAgentcoreAgent(agentArn: string, query: string,
                              invoke: Request -> Invocation,
                              decode: Bytes -> Result<string, string>,
                              parse: string -> Result<Json, string>,
                              str: Json -> string,
                              agentType: string := DefaultAgentType)
    returns (reply: string)
    ensures reply == ReplySpec(invoke(RequestFor(agentArn, query)), decode, parse, str, agentType)
  {
    var response := invoke(RequestFor(agentArn, query));
    if response.InvokeFailed? {
      return ErrorReply(agentType, response.message);
    }
    var content := DecodeAll(ChunksOf(response.stream), decode);
    if content.Err? {
      return ErrorReply(agentType, content.error);
    }
    var parsed := parse(content.value);
    if parsed.Err? {
      return ErrorReply(agentType, parsed.error);
    }
    var result := parsed.value;
    if result.JObj? && "result" in result.fields {
      var data := result.fields["result"];
      if data.JObj? && "content" in data.fields {
        var c := data.fields["content"];
        if c.JArr? {
          var parts := CollectTextParts(c.items);
          var joined := JoinText(parts);
          reply := if joined.Ok? then joined.value else ErrorReply(agentType, joined.error);
        } else {
          reply := StrOf(str, c);
        }
      } else {
        reply := StrOf(str, data);
      }
    } else {
      reply := StrOf(str, result);
    }
  }

  // ---------------------------------------------------------------------
  // Properties of the cascade

  /** A content array whose text values are all strings gives their concatenation, in item order. */
  lemma ContentArrayReply(items: seq<Json>, str: Json -> string)
    requires forall x :: x in TextParts(items) ==> x.JStr?
    ensures Unwrap(JObj(map["result" := JObj(map["content" := JArr(items)])]), str)
            == Ok(ConcatStrs(TextParts(items)))
  {
  }

  /** The same holds for a `result` and top-level object with any other keys. */
  lemma ContentArrayReplyAnyKeys(result: Json, items: seq<Json>, str: Json -> string)
    requires result.JObj? && "result" in result.fields
    requires result.fields["result"].JObj? && "content" in result.fields["result"].fields
    requires result.fields["result"].fields["content"] == JArr(items)
    requires forall x :: x in TextParts(items) ==> x.JStr?
    ensures Unwrap(result, str) == Ok(ConcatStrs(TextParts(items)))
  {
  }

  /** A content array with no object carrying `text` gives the empty reply, whatever other keys the objects hold. */
  lemma EmptyTextReply(result: Json, items: seq<Json>, str: Json -> string)
    requires result.JObj? && "result" in result.fields
    requires result.fields["result"].JObj? && "content" in result.fields["result"].fields
    requires result.fields["result"].fields["content"] == JArr(items)
    requires forall i :: 0 <= i < |items| ==> !IsTextItem(items[i])
    ensures Unwrap(result, str) == Ok("")
  {
    NoTextParts(items);
  }

  /** A `text` value that is not a string makes the join raise at its position among the parts. */
  lemma NonStringTextRaises(result: Json, items: seq<Json>, str: Json -> string, k: nat)
    requires result.JObj? && "result" in result.fields
    requires result.fields["result"].JObj? && "content" in result.fields["result"].fields
    requires result.fields["result"].fields["content"] == JArr(items)
    requires k < |TextParts(items)| && !TextParts(items)[k].JStr?
    requires forall j :: 0 <= j < k ==> TextParts(items)[j].JStr?
    ensures Unwrap(result, str) == Err(JoinTypeError(k, TextParts(items)[k]))
  {
  }

  /** A `content` that is not an array is rendered with `str`; a string comes back as itself. */
  lemma NonArrayContentReply(result: Json, content: Json, str: Json -> string)
    requires result.JObj? && "result" in result.fields
    requires result.fields["result"].JObj? && "content" in result.fields["result"].fields
    requires result.fields["result"].fields["content"] == content
    requires !content.JArr?
    ensures Unwrap(result, str) == Ok(StrOf(str, content))
    ensures content.JStr? ==> Unwrap(result, str) == Ok(content.s)
  {
  }

  /** A `result` that is not an object with `content` is rendered with `str`. */
  lemma ResultWithoutContentReply(result: Json, data: Json, str: Json -> string)
    requires result.JObj? && "result" in result.fields && result.fields["result"] == data
    requires !(data.JObj? && "content" in data.fields)
    ensures Unwrap(result, str) == Ok(StrOf(str, data))
  {
  }

  /** A top-level value that is not an object with `result` is rendered with `str`. */
  lemma TopLevelReply(result: Json, str: Json -> string)
    requires !(result.JObj? && "result" in result.fields)
    ensures Unwrap(result, str) == Ok(StrOf(str, result))
  {
  }

  /** The message of the join error for a first part that is an integer. */
  lemma ExampleJoinTypeError(m: string)
    requires m == "sequence item 0: expected str instance, int found"
    ensures JoinText([JInt(5), JStr("a")]) == Err(m)
  {
    var parts := [JInt(5), JStr("a")];
    assert FirstNonString(parts) == 0;
    assert DigitChar(0) == '0';
    assert Decimal(0) == "0";
    assert TypeName(parts[0]) == "int";
    assert "sequence item " + "0" + ": expected str instance, " == "sequence item 0: expected str instance, ";
    assert "sequence item 0: expected str instance, " + "int" + " found" == m;
  }

  /** Only the content-array case can raise. */
  lemma UnwrapRaisesOnlyInJoin(result: Json, str: Json -> string)
    requires Unwrap(result, str).Err?
    ensures result.JObj? && "result" in result.fields
    ensures result.fields["result"].JObj? && "content" in result.fields["result"].fields
    ensures result.fields["result"].fields["content"].JArr?
    ensures exists x :: x in TextParts(result.fields["result"].fields["content"].items) && !x.JStr?
  {
    var parts := TextParts(result.fields["result"].fields["content"].items);
    var k := FirstNonString(parts);
    assert parts[k] in parts;
  }

  /** A failing call, chunk, parse or join gives exactly the error reply with its message. */
  lemma ErrorReplies(inv: Invocation, decode: Bytes -> Result<string, string>,
                     parse: string -> Result<Json, string>, str: Json -> string, agentType: string)
    ensures inv.InvokeFailed? ==>
              ReplySpec(inv, decode, parse, str, agentType) == ErrorReply(agentType, inv.message)
    ensures inv.Invoked? && DecodeAll(ChunksOf(inv.stream), decode).Err? ==>
              ReplySpec(inv, decode, parse, str, agentType)
              == ErrorReply(agentType, DecodeAll(ChunksOf(inv.stream), decode).error)
    ensures inv.Invoked? && DecodeAll(ChunksOf(inv.stream), decode).Ok? &&
            parse(DecodeAll(ChunksOf(inv.stream), decode).value).Err? ==>
              ReplySpec(inv, decode, parse, str, agentType)
              == ErrorReply(agentType, parse(DecodeAll(ChunksOf(inv.stream), decode).value).error)
  {
  }

  /** A response that parses gives the unwrapped text, or the error reply for the join's message. */
  lemma ParsedReply(inv: Invocation, decode: Bytes -> Result<string, string>,
                    parse: string -> Result<Json, string>, str: Json -> string, agentType: string)
    requires inv.Invoked? && DecodeAll(ChunksOf(inv.stream), decode).Ok?
    requires parse(DecodeAll(ChunksOf(inv.stream), decode).value).Ok?
    ensures var u := Unwrap(parse(DecodeAll(ChunksOf(inv.stream), decode).value).value, str);
            ReplySpec(inv, decode, parse, str, agentType)
            == if u.Ok? then u.value else ErrorReply(agentType, u.error)
  {
  }

  /** A response without a `response` stream is parsed from the empty text. */
  lemma MissingStreamParsesEmpty(decode: Bytes -> Result<string, string>,
                                 parse: string -> Result<Json, string>, str: Json -> string,
                                 agentType: string)
    ensures ReplySpec(Invoked(None), decode, parse, str, agentType)
            == match parse("")
               case Err(m) => ErrorReply(agentType, m)
               case Ok(result) =>
                 match Unwrap(result, str)
                 case Ok(text) => text
                 case Err(m) => ErrorReply(agentType, m)
  {
  }
}
