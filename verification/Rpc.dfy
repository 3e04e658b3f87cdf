/** JSON values as serde_json holds them, without their text. */
module Json {
  import opened Wrappers
  import opened Bytes

  /** Integers are exact; any other number is the 64 bits of a double. */
  datatype Number = Integer(i: int) | Float(bits: bv64)

  datatype Json =
    | Null
    | Bool(b: bool)
    | Num(n: Number)
    | Str(s: Text)
    | Arr(items: seq<Json>)
    | Obj(fields: map<Text, Json>)
  {

    function Get(key: Text): Option<Json> {
      if Obj? && key in fields then Some(fields[key]) else None
    }

    function AsStr(): Option<Text> {
      if Str? then Some(s) else None
    }

    function AsU64(): Option<nat> {
      if Num? && n.Integer? && 0 <= n.i < USIZE_LIMIT then Some(n.i) else None
    }
  }

  function GetStr(j: Json, key: Text): Option<Text> {
    var v := j.Get(key);
    if v.Some? then v.value.AsStr() else None
  }

  function OrNull(j: Option<Json>): Json {
    if j.Some? then j.value else Null
  }

  // Field names and method names, as bytes
  const JSONRPC: Text := [106, 115, 111, 110, 114, 112, 99]                        // "jsonrpc"
  const VERSION_2: Text := [50, 46, 48]                                           // "2.0"
  const METHOD: Text := [109, 101, 116, 104, 111, 100]                            // "method"
  const PARAMS: Text := [112, 97, 114, 97, 109, 115]                              // "params"
  const ID: Text := [105, 100]                                                    // "id"
  const RESULT: Text := [114, 101, 115, 117, 108, 116]                            // "result"
  const ERROR: Text := [101, 114, 114, 111, 114]                                  // "error"
  const CODE: Text := [99, 111, 100, 101]                                         // "code"
  const NAME: Text := [110, 97, 109, 101]                                         // "name"
  const ARGUMENTS: Text := [97, 114, 103, 117, 109, 101, 110, 116, 115]           // "arguments"
  const CURSOR: Text := [99, 117, 114, 115, 111, 114]                             // "cursor"
  const IS_ERROR: Text := [105, 115, 69, 114, 114, 111, 114]                      // "isError"
  const PROTOCOL_VERSION: Text :=                                                 // "protocolVersion"
    [112, 114, 111, 116, 111, 99, 111, 108, 86, 101, 114, 115, 105, 111, 110]
}

/** Message framing on both sides of toolcage: src/rpc.rs. The JSON parser is a parameter. */
module Rpc {
  import opened Wrappers
  import opened Bytes
  import opened Json
  import opened TextOps

  /** UTF-8 decoding and JSON parsing in one: any partial function will do. */
  type Parser = Text -> Option<Json>
  type Printer = Json -> Text

  const NEWLINE: u8 := 10

  // ---------------------------------------------------------------------------------------
  // Lines from the client
  // ---------------------------------------------------------------------------------------

  datatype Incoming =
    | Request(id: Json, name: Text, params: Json)
    | Notification(name: Text, params: Json)
    | Malformed
    | ParseError

  /** `parse_line`. */
  function ParseLine(parse: Parser, line: Text): Incoming {
    var v := parse(line);
    if v == None then ParseError
    else if !v.value.Obj? then Malformed
    else if GetStr(v.value, JSONRPC) != Some(VERSION_2) then Malformed
    else
      var name := GetStr(v.value, METHOD);
      if name == None then Malformed
      else
        var params, id := OrNull(v.value.Get(PARAMS)), v.value.Get(ID);
        if id.Some? then Request(id.value, name.value, params) else Notification(name.value, params)
  }

  /** A JSON-RPC 2.0 message with this method and these parameters. */
  predicate IsMessage(v: Json, name: Text, params: Json) {
    && v.Obj?
    && JSONRPC in v.fields && v.fields[JSONRPC] == Str([50, 46, 48])
    && METHOD in v.fields && v.fields[METHOD] == Str(name)
    && params == if PARAMS in v.fields then v.fields[PARAMS] else Null
  }

  /** What every line is: a request is a message with an `id`, of whatever kind and null included,
      a notification is one without, and everything else is rejected for the first thing wrong. */
  lemma ParseLineIs(parse: Parser, line: Text, id: Json, name: Text, params: Json)
    ensures var v, m := parse(line), ParseLine(parse, line);
      && (m == Request(id, name, params) <==>
            v.Some? && IsMessage(v.value, name, params) && ID in v.value.fields && v.value.fields[ID] == id)
      && (m == Notification(name, params) <==> v.Some? && IsMessage(v.value, name, params) && ID !in v.value.fields)
      && (m == ParseError <==> v == None)
      && (m == Malformed <==> v.Some? && forall n, p :: !IsMessage(v.value, n, p))
  {
    var v := parse(line);
    if v.Some? && v.value.Obj? && METHOD in v.value.fields && v.value.fields[METHOD].Str? {
      var n, p := v.value.fields[METHOD].s, if PARAMS in v.value.fields then v.value.fields[PARAMS] else Null;
      assert IsMessage(v.value, n, p) <==> JSONRPC in v.value.fields && v.value.fields[JSONRPC] == Str([50, 46, 48]);
    }
  }

  // ---------------------------------------------------------------------------------------
  // Trimming
  // ---------------------------------------------------------------------------------------

  predicate IsSpace(b: u8) {
    b in {9, 10, 12, 13, 32}
  }

  predicate Blank(b: Text) {
    forall i :: 0 <= i < |b| ==> IsSpace(b[i])
  }

  predicate Tight(r: Text) {
    r != [] ==> !IsSpace(r[0]) && !IsSpace(r[|r| - 1])
  }

  function Trim(b: Text): Text {
    if b == [] then []
    else if IsSpace(b[0]) then Trim(b[1..])
    else if IsSpace(b[|b| - 1]) then Trim(b[..|b| - 1])
    else b
  }

  /** Only white space is removed, and none is left at either end. */
  lemma {:induction false} TrimParts(b: Text) returns (pre: Text, post: Text)
    ensures b == pre + Trim(b) + post && Blank(pre) && Blank(post) && Tight(Trim(b))
  {
    hide IsSpace;
    pre, post := [], [];
    if b == [] {
    } else if IsSpace(b[0]) {
      var rest, t := b[1..], Trim(b);
      pre, post := TrimParts(rest);
      assert b == [b[0]] + (pre + t + post) == ([b[0]] + pre) + t + post;
      pre := [b[0]] + pre;
    } else if IsSpace(b[|b| - 1]) {
      var rest, last, t := b[..|b| - 1], b[|b| - 1], Trim(b);
      pre, post := TrimParts(rest);
      assert b == (pre + t + post) + [last] == pre + t + (post + [last]);
      post := post + [last];
    }
  }

  /** And there is no other way to do it. */
  lemma {:induction false} TrimIsUnique(pre: Text, r: Text, post: Text)
    requires Blank(pre) && Blank(post) && Tight(r)
    ensures Trim(pre + r + post) == r
    decreases |pre| + |post|
  {
    var b := pre + r + post;
    if pre != [] {
      assert b[0] == pre[0] && b[1..] == pre[1..] + r + post;
      TrimIsUnique(pre[1..], r, post);
    } else if post != [] && r == [] {
      assert b[0] == post[0] && b[1..] == [] + r + post[1..];
      TrimIsUnique([], r, post[1..]);
    } else if post != [] {
      assert b[0] == r[0] && b[|b| - 1] == post[|post| - 1] && b[..|b| - 1] == [] + r + post[..|post| - 1];
      TrimIsUnique([], r, post[..|post| - 1]);
    } else {
      assert b == r;
    }
  }

  /** `trim_ascii`. */
  method TrimAscii(b: Text) returns (r: Text)
    ensures r == Trim(b)
  {
    r := b;
    while r != [] && IsSpace(r[0])
      invariant Trim(r) == Trim(b)
      decreases |r|
    {
      r := r[1..];
    }
    while r != [] && IsSpace(r[|r| - 1])
      invariant Trim(r) == Trim(b) && (r != [] ==> !IsSpace(r[0]))
      decreases |r|
    {
      r := r[..|r| - 1];
    }
  }

  lemma {:induction false} TrimBlank(b: Text)
    ensures Trim(b) == [] <==> Blank(b)
  {
    if b == [] {
    } else if IsSpace(b[0]) {
      TrimBlank(b[1..]);
      assert b == [b[0]] + b[1..];
    } else if IsSpace(b[|b| - 1]) {
      TrimBlank(b[..|b| - 1]);
      assert b == b[..|b| - 1] + [b[|b| - 1]];
    }
  }

  // ---------------------------------------------------------------------------------------
  // Finding the guest's answer
  // ---------------------------------------------------------------------------------------

  datatype Scan = Scan(found: Option<Json>, garbage: nat, rpc: nat)

  /** What a non-blank line is: a JSON object or garbage. */
  function ObjectOf(parse: Parser, rawLine: Text): Option<Json> {
    var parsed := parse(Trim(rawLine));
    if parsed.Some? && parsed.value.Obj? then parsed else None
  }

  /** A line that answers request `want`. */
  predicate Answers(parse: Parser, want: nat, rawLine: Text) {
    !Blank(rawLine) && ObjectOf(parse, rawLine).Some?
    && var o := ObjectOf(parse, rawLine).value;
       o.Get(ID).Some? && o.Get(ID).value.AsU64() == Some(want) && (o.Get(RESULT).Some? || o.Get(ERROR).Some?)
  }

  function ScanLine(parse: Parser, want: nat, s: Scan, rawLine: Text): Scan {
    if Blank(rawLine) then s
    else if ObjectOf(parse, rawLine) == None then s.(garbage := s.garbage + 1)
    else
      var found := if s.found == None && Answers(parse, want, rawLine) then ObjectOf(parse, rawLine) else s.found;
      Scan(found, s.garbage, s.rpc + 1)
  }

  function ScanLines(parse: Parser, want: nat, lines: seq<Text>): Scan {
    if lines == [] then Scan(None, 0, 0)
    else ScanLine(parse, want, ScanLines(parse, want, lines[..|lines| - 1]), lines[|lines| - 1])
  }

  function Extract(parse: Parser, want: nat, stdout: Text): Scan {
    ScanLines(parse, want, Split(stdout, NEWLINE))
  }

  /** `extract_response`. */
  method ExtractResponse(parse: Parser, stdout: Text, want: nat) returns (found: Option<Json>, garbage: nat, rpc: nat)
    ensures Scan(found, garbage, rpc) == Extract(parse, want, stdout)
  {
    found, garbage, rpc := None, 0, 0;
    var lines := Split(stdout, NEWLINE);
    for i := 0 to |lines|
      invariant Scan(found, garbage, rpc) == ScanLines(parse, want, lines[..i])
    {
      assert lines[..i + 1][..i] == lines[..i];
      var line := TrimAscii(lines[i]);
      TrimBlank(lines[i]);
      if line == [] {
        continue;
      }
      var parsed := parse(line);
      if parsed.Some? && parsed.value.Obj? {
        rpc := rpc + 1;
        var o := parsed.value;
        var id := o.Get(ID);
        if found == None && id.Some? && id.value.AsU64() == Some(want) && (o.Get(RESULT).Some? || o.Get(ERROR).Some?) {
          found := Some(o);
        }
      } else {
        garbage := garbage + 1;
      }
    }
    assert lines[..|lines|] == lines;
  }

  /** Two scans one after the other: counts add, the earlier answer wins. */
  function Combine(s: Scan, t: Scan): Scan {
    Scan(if s.found.Some? then s.found else t.found, s.garbage + t.garbage, s.rpc + t.rpc)
  }

  lemma CombineLine(parse: Parser, want: nat, s: Scan, t: Scan, line: Text)
    ensures ScanLine(parse, want, Combine(s, t), line) == Combine(s, ScanLine(parse, want, t, line))
  {
  }

  lemma {:induction false} ScanConcat(parse: Parser, want: nat, a: seq<Text>, b: seq<Text>)
    ensures ScanLines(parse, want, a + b) == Combine(ScanLines(parse, want, a), ScanLines(parse, want, b))
  {
    hide ScanLine;
    if b == [] {
      assert a + b == a;
    } else {
      var init, last := b[..|b| - 1], b[|b| - 1];
      assert (a + b)[..|a + b| - 1] == a + init && (a + b)[|a + b| - 1] == last;
      ScanConcat(parse, want, a, init);
      CombineLine(parse, want, ScanLines(parse, want, a), ScanLines(parse, want, init), last);
    }
  }

  /** Extraction is a homomorphism on output joined by a newline; so nothing the guest prints
      later changes an answer already found. */
  lemma ExtractJoin(parse: Parser, want: nat, a: Text, b: Text)
    ensures Extract(parse, want, a + [NEWLINE] + b) == Combine(Extract(parse, want, a), Extract(parse, want, b))
    ensures Extract(parse, want, a).found.Some? ==>
      Extract(parse, want, a + [NEWLINE] + b).found == Extract(parse, want, a).found
  {
    SplitAcross(a, b, NEWLINE);
    ScanConcat(parse, want, Split(a, NEWLINE), Split(b, NEWLINE));
  }

  function NonBlank(lines: seq<Text>): nat {
    if lines == [] then 0 else NonBlank(lines[..|lines| - 1]) + if Blank(lines[|lines| - 1]) then 0 else 1
  }

  predicate FirstAnswer(parse: Parser, want: nat, lines: seq<Text>, i: int) {
    0 <= i < |lines| && Answers(parse, want, lines[i]) && forall j :: 0 <= j < i ==> !Answers(parse, want, lines[j])
  }

  /** Every non-blank line is counted once, and the answer is the first line that answers. */
  lemma {:induction false} ScanMeaning(parse: Parser, want: nat, lines: seq<Text>)
    ensures var s := ScanLines(parse, want, lines);
      && s.garbage + s.rpc == NonBlank(lines)
      && (s.found == None <==> forall i :: 0 <= i < |lines| ==> !Answers(parse, want, lines[i]))
      && (s.found.Some? ==> exists i :: FirstAnswer(parse, want, lines, i) && s.found == ObjectOf(parse, lines[i]))
  {
    if lines != [] {
      var init := lines[..|lines| - 1];
      ScanMeaning(parse, want, init);
      assert forall i :: 0 <= i < |init| ==> init[i] == lines[i];
      if ScanLines(parse, want, init).found.Some? {
        var i :| FirstAnswer(parse, want, init, i) && ScanLines(parse, want, init).found == ObjectOf(parse, init[i]);
        assert FirstAnswer(parse, want, lines, i);
      } else if Answers(parse, want, lines[|lines| - 1]) {
        assert FirstAnswer(parse, want, lines, |lines| - 1);
      }
    }
  }

  // ---------------------------------------------------------------------------------------
  // The same of the bytes and the JSON values themselves
  // ---------------------------------------------------------------------------------------

  /** ASCII white space: tab, line feed, form feed, carriage return and space. */
  predicate White(b: Text) {
    forall x :: x in b ==> x in {9, 10, 12, 13, 32}
  }

  /** r is what remains of a line without the white space around it. */
  predicate Core(line: Text, pre: Text, r: Text, post: Text) {
    line == pre + r + post && White(pre) && White(post) && r != [] && !White([r[0]]) && !White([r[|r| - 1]])
  }

  /** A line that is v, written in JSON, with white space around it. */
  ghost predicate Holds(parse: Parser, line: Text, v: Json) {
    exists pre, r, post :: Core(line, pre, r, post) && parse(r) == Some(v)
  }

  lemma WhiteIsBlank(b: Text)
    ensures White(b) <==> Blank(b)
    ensures b != [] ==> (White([b[0]]) <==> IsSpace(b[0])) && (White([b[|b| - 1]]) <==> IsSpace(b[|b| - 1]))
  {
    if Blank(b) {
      forall x | x in b ensures x in {9, 10, 12, 13, 32} {
        var i :| 0 <= i < |b| && b[i] == x;
      }
    }
    assert forall i :: 0 <= i < |b| ==> b[i] in b;
    if b != [] {
      assert b[0] in [b[0]] && b[|b| - 1] in [b[|b| - 1]];
    }
  }

  lemma HoldsIff(parse: Parser, line: Text, v: Json)
    ensures Holds(parse, line, v) <==> !White(line) && parse(Trim(line)) == Some(v)
  {
    hide IsSpace, White;
    WhiteIsBlank(line);
    TrimBlank(line);
    if Holds(parse, line, v) {
      var pre, r, post :| Core(line, pre, r, post) && parse(r) == Some(v);
      CoreIsTrim(line, pre, r, post);
    }
    if !White(line) && parse(Trim(line)) == Some(v) {
      var pre, post := TrimParts(line);
      WhiteIsBlank(pre);
      WhiteIsBlank(post);
      WhiteIsBlank(Trim(line));
      assert Core(line, pre, Trim(line), post);
    }
  }

  lemma CoreIsTrim(line: Text, pre: Text, r: Text, post: Text)
    requires Core(line, pre, r, post)
    ensures Trim(line) == r && !White(line)
  {
    assert r[0] in line;
    hide IsSpace, White;
    WhiteIsBlank(pre);
    WhiteIsBlank(post);
    WhiteIsBlank(r);
    TrimIsUnique(pre, r, post);
  }

  /** A response to request `want`. */
  predicate IsAnswer(v: Json, want: usize) {
    v.Obj? && ID in v.fields && v.fields[ID] == Num(Integer(want)) && (RESULT in v.fields || ERROR in v.fields)
  }

  ghost predicate HoldsAnswer(parse: Parser, line: Text, want: usize) {
    exists v :: Holds(parse, line, v) && IsAnswer(v, want)
  }

  ghost predicate HoldsObject(parse: Parser, line: Text) {
    exists v :: Holds(parse, line, v) && v.Obj?
  }

  lemma AnswersIff(parse: Parser, want: usize, line: Text)
    ensures Answers(parse, want, line) <==> HoldsAnswer(parse, line, want)
    ensures Answers(parse, want, line) ==>
      Holds(parse, line, ObjectOf(parse, line).value) && IsAnswer(ObjectOf(parse, line).value, want)
    ensures HoldsObject(parse, line) <==> !White(line) && ObjectOf(parse, line).Some?
  {
    hide Holds, Trim, White, Blank;
    forall v ensures Holds(parse, line, v) <==> !White(line) && parse(Trim(line)) == Some(v) {
      HoldsIff(parse, line, v);
    }
    WhiteIsBlank(line);
  }

  /** How many of the lines hold an object, and how many hold something else. */
  ghost function ObjectLines(parse: Parser, lines: seq<Text>): nat {
    if lines == [] then 0
    else ObjectLines(parse, lines[..|lines| - 1]) + if HoldsObject(parse, lines[|lines| - 1]) then 1 else 0
  }

  ghost function OtherLines(parse: Parser, lines: seq<Text>): nat {
    if lines == [] then 0
    else
      OtherLines(parse, lines[..|lines| - 1])
      + if !White(lines[|lines| - 1]) && !HoldsObject(parse, lines[|lines| - 1]) then 1 else 0
  }

  lemma {:induction false} LineCounts(parse: Parser, want: usize, lines: seq<Text>)
    ensures ScanLines(parse, want, lines).rpc == ObjectLines(parse, lines)
    ensures ScanLines(parse, want, lines).garbage == OtherLines(parse, lines)
  {
    hide HoldsObject, ObjectOf, White, Blank;
    if lines != [] {
      LineCounts(parse, want, lines[..|lines| - 1]);
      AnswersIff(parse, want, lines[|lines| - 1]);
      WhiteIsBlank(lines[|lines| - 1]);
    }
  }

  ghost predicate FirstHolds(parse: Parser, want: usize, lines: seq<Text>, i: int, v: Json) {
    && 0 <= i < |lines| && Holds(parse, lines[i], v)
    && forall j :: 0 <= j < i ==> !HoldsAnswer(parse, lines[j], want)
  }

  /** What is extracted from the output of a guest: the first line that is a JSON object with
      exactly this id and a result or an error, and nothing exactly when there is no such line. */
  lemma ExtractIsFirst(parse: Parser, want: usize, stdout: Text)
    ensures var lines, s := Split(stdout, 10), Extract(parse, want, stdout);
      && (s.found == None <==> forall i :: 0 <= i < |lines| ==> !HoldsAnswer(parse, lines[i], want))
      && (s.found.Some? ==> IsAnswer(s.found.value, want) && exists i :: FirstHolds(parse, want, lines, i, s.found.value))
      && s.rpc == ObjectLines(parse, lines) && s.garbage == OtherLines(parse, lines)
  {
    hide Holds, HoldsAnswer, ObjectOf, Answers, ScanLines, Split, IsAnswer;
    var lines := Split(stdout, 10);
    ScanMeaning(parse, want, lines);
    LineCounts(parse, want, lines);
    forall i | 0 <= i < |lines| ensures Answers(parse, want, lines[i]) <==> HoldsAnswer(parse, lines[i], want) {
      AnswersIff(parse, want, lines[i]);
    }
    var s := ScanLines(parse, want, lines);
    if s.found.Some? {
      var i :| FirstAnswer(parse, want, lines, i) && s.found == ObjectOf(parse, lines[i]);
      AnswersIff(parse, want, lines[i]);
      assert FirstHolds(parse, want, lines, i, s.found.value);
    }
  }

  // ---------------------------------------------------------------------------------------
  // Guest transcripts
  // ---------------------------------------------------------------------------------------

  function Transcript(lines: seq<Text>): Text {
    if lines == [] then [] else lines[0] + [NEWLINE] + Transcript(lines[1..])
  }

  /** `to_transcript`. */
  method ToTranscript(lines: seq<Text>) returns (out: Text)
    ensures out == Transcript(lines)
  {
    out := [];
    for i := 0 to |lines|
      invariant out + Transcript(lines[i..]) == Transcript(lines)
    {
      out := out + lines[i];
      out := out + [NEWLINE];
    }
  }

  /** A reader that splits at newlines gets back exactly the messages, and then end of input. */
  lemma {:induction false} TranscriptLines(lines: seq<Text>)
    requires forall l :: l in lines ==> NEWLINE !in l
    ensures Split(Transcript(lines), NEWLINE) == lines + [[]]
  {
    if lines != [] {
      SplitAcross(lines[0], Transcript(lines[1..]), NEWLINE);
      SplitWhole(lines[0], NEWLINE);
      TranscriptLines(lines[1..]);
      assert lines == [lines[0]] + lines[1..];
    }
  }

  const METHOD_INITIALIZE: Text := [105, 110, 105, 116, 105, 97, 108, 105, 122, 101]            // "initialize"
  const METHOD_PING: Text := [112, 105, 110, 103]                                               // "ping"
  const METHOD_LIST: Text := [116, 111, 111, 108, 115, 47, 108, 105, 115, 116]                  // "tools/list"
  const METHOD_CALL: Text := [116, 111, 111, 108, 115, 47, 99, 97, 108, 108]                    // "tools/call"
  const METHOD_INITIALIZED: Text :=                                        // "notifications/initialized"
    [110, 111, 116, 105, 102, 105, 99, 97, 116, 105, 111, 110, 115, 47,
     105, 110, 105, 116, 105, 97, 108, 105, 122, 101, 100]

  lemma MethodNamesDiffer()
    ensures METHOD_LIST !in {METHOD_INITIALIZE, METHOD_PING}
    ensures METHOD_CALL !in {METHOD_INITIALIZE, METHOD_PING, METHOD_LIST}
  {
    assert METHOD_INITIALIZE[0] == 105 && METHOD_LIST[0] == 116 && METHOD_CALL[0] == 116;
    assert |METHOD_PING| == 4;
    assert METHOD_LIST[6] == 108 && METHOD_CALL[6] == 99;
  }

  const GUEST_INIT_ID := 1
  const GUEST_CALL_ID := 2

  function RequestMessage(id: nat, name: Text, params: Json): Json {
    Obj(map[JSONRPC := Str(VERSION_2), ID := Num(Integer(id)), METHOD := Str(name), PARAMS := params])
  }

  function NotificationMessage(name: Text): Json {
    Obj(map[JSONRPC := Str(VERSION_2), METHOD := Str(name)])
  }

  function CallParams(tool: Text, arguments: Json): Json {
    Obj(map[NAME := Str(tool), ARGUMENTS := if arguments.Null? then Obj(map[]) else arguments])
  }

  /** The three messages a guest is sent for a call; `initParams` is the fixed handshake object. */
  function CallMessages(initParams: Json, tool: Text, arguments: Json): seq<Json> {
    [RequestMessage(GUEST_INIT_ID, METHOD_INITIALIZE, initParams),
     NotificationMessage(METHOD_INITIALIZED),
     RequestMessage(GUEST_CALL_ID, METHOD_CALL, CallParams(tool, arguments))]
  }

  /** `guest_transcript_call`. */
  function CallTranscript(write: Printer, initParams: Json, tool: Text, arguments: Json): Text {
    var m := CallMessages(initParams, tool, arguments);
    Transcript([write(m[0]), write(m[1]), write(m[2])])
  }

  /** The codec puts this value on one line and reads it back. */
  predicate Survives(parse: Parser, write: Printer, j: Json) {
    NEWLINE !in write(j) && parse(write(j)) == Some(j)
  }

  /** With a codec that these three messages survive, the guest reads the handshake, the
      notification and one call carrying the client's tool name and arguments, and then nothing. */
  lemma GuestReadsOneCall(parse: Parser, write: Printer, initParams: Json, tool: Text, arguments: Json)
    requires forall j :: j in CallMessages(initParams, tool, arguments) ==> Survives(parse, write, j)
    ensures var lines := Split(CallTranscript(write, initParams, tool, arguments), NEWLINE);
      && |lines| == 4 && lines[3] == []
      && ParseLine(parse, lines[0]) == Request(Num(Integer(1)), METHOD_INITIALIZE, initParams)
      && ParseLine(parse, lines[1]) == Notification(METHOD_INITIALIZED, Null)
      && ParseLine(parse, lines[2]) == Request(Num(Integer(2)), METHOD_CALL,
           Obj(map[NAME := Str(tool), ARGUMENTS := if arguments.Null? then Obj(map[]) else arguments]))
  {
    hide ParseLine, Split, Transcript;
    var m := CallMessages(initParams, tool, arguments);
    assert m[0] in m && m[1] in m && m[2] in m;
    TranscriptLines([write(m[0]), write(m[1]), write(m[2])]);
    RequestParses(parse, write, GUEST_INIT_ID, METHOD_INITIALIZE, initParams);
    NotificationParses(parse, write, METHOD_INITIALIZED);
    RequestParses(parse, write, GUEST_CALL_ID, METHOD_CALL, CallParams(tool, arguments));
  }

  lemma FieldNamesDiffer()
    ensures JSONRPC != ID && JSONRPC != METHOD && JSONRPC != PARAMS && ID != METHOD && ID != PARAMS && METHOD != PARAMS
  {
    assert |JSONRPC| == 7 && |ID| == 2 && |METHOD| == 6 && |PARAMS| == 6;
    assert METHOD[0] == 109 && PARAMS[0] == 112;
  }

  lemma RequestParses(parse: Parser, write: Printer, id: nat, name: Text, params: Json)
    requires Survives(parse, write, RequestMessage(id, name, params))
    ensures ParseLine(parse, write(RequestMessage(id, name, params))) == Request(Num(Integer(id)), name, params)
  {
    FieldNamesDiffer();
  }

  lemma NotificationParses(parse: Parser, write: Printer, name: Text)
    requires Survives(parse, write, NotificationMessage(name))
    ensures ParseLine(parse, write(NotificationMessage(name))) == Notification(name, Null)
  {
    FieldNamesDiffer();
  }
}
