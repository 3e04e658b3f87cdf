/** What a client gets for every line it can send, and what the trail says about it, over every run.
    Lines are judged by the JSON value they hold, and answers by what the guest reported. */
module SessionReplies {
  import opened Wrappers
  import opened Bytes
  import opened Json
  import opened Rpc
  import opened ToolPolicy
  import opened Paginate
  import opened Runner
  import opened Audit
  import opened Hmac
  import opened Session
  import opened SessionProperties
  import opened Outcome
  import opened TextOps

  // ---------------------------------------------------------------------------------------
  // One more line
  // ---------------------------------------------------------------------------------------

  /** The session after these lines and one more. */
  function Next(H: HashFn, c: Config, lines: seq<Text>, line: Text): State {
    Run(H, c, INITIAL, lines + [line])
  }

  function Before(H: HashFn, c: Config, lines: seq<Text>): State {
    Run(H, c, INITIAL, lines)
  }

  /** A line that holds a request. */
  ghost predicate Requests(c: Config, line: Text, id: Json, name: Text, params: Json) {
    && !c.blank(line) && c.parse(line).Some?
    && var v := c.parse(line).value;
       IsMessage(v, name, params) && ID in v.fields && v.fields[ID] == id
  }

  /** A line that holds a notification. */
  ghost predicate Notifies(c: Config, line: Text, name: Text) {
    && !c.blank(line) && c.parse(line).Some?
    && var v := c.parse(line).value;
       (exists params :: IsMessage(v, name, params)) && ID !in v.fields
  }

  lemma NextIs(H: HashFn, c: Config, lines: seq<Text>, line: Text)
    ensures Next(H, c, lines, line) == Step(H, c, Before(H, c, lines), line)
  {
    assert (lines + [line])[..|lines|] == lines;
  }

  lemma RequestIs(H: HashFn, c: Config, lines: seq<Text>, line: Text, id: Json, name: Text, params: Json)
    requires Requests(c, line, id, name, params)
    ensures var st := Before(H, c, lines);
      var r := RequestStep(H, c, st, id, name, params);
      Next(H, c, lines, line) == r.0.(out := st.out + [r.1])
  {
    hide Run, RequestStep, ParseLine, IsMessage;
    NextIs(H, c, lines, line);
    ParseLineIs(c.parse, line, id, name, params);
    RequestFrame(H, c, Before(H, c, lines), id, name, params);
  }

  // ---------------------------------------------------------------------------------------
  // Everything but calls
  // ---------------------------------------------------------------------------------------

  /** Lines that are answered without a request: nothing at all for blank lines and
      notifications, -32700 for what is no JSON and -32600 for what is no message. */
  lemma OtherLines(H: HashFn, c: Config, lines: seq<Text>, line: Text, name: Text)
    ensures var st, after := Before(H, c, lines), Next(H, c, lines, line);
      && (c.blank(line) ==> after == st)
      && (Notifies(c, line, name) ==> after == st.(initialized := st.initialized || name == METHOD_INITIALIZED))
      && (!c.blank(line) && c.parse(line) == None ==>
            after == st.(out := st.out + [ErrorReply(Null, -32700, NoData)]))
      && (!c.blank(line) && c.parse(line).Some? && (forall n, p :: !IsMessage(c.parse(line).value, n, p)) ==>
            after == st.(out := st.out + [ErrorReply(Null, -32600, NoData)]))
  {
    hide Run, RequestStep, ParseLine, IsMessage;
    NextIs(H, c, lines, line);
    ParseLineIs(c.parse, line, Null, [], Null);
    if Notifies(c, line, name) {
      var params :| IsMessage(c.parse(line).value, name, params);
      ParseLineIs(c.parse, line, Null, name, params);
    }
  }

  /** The revision toolcage answers `initialize` with: the one asked for if it is one of the three
      known, else the newest. */
  predicate Agreed(requested: Option<Text>, protocol: Text) {
    var june: Text := [50, 48, 50, 53, 45, 48, 54, 45, 49, 56];
    var march: Text := [50, 48, 50, 53, 45, 48, 51, 45, 50, 54];
    var november: Text := [50, 48, 50, 52, 45, 49, 49, 45, 48, 53];
    if requested in {Some(june), Some(march), Some(november)} then requested == Some(protocol) else protocol == june
  }

  /** A string field of an object. */
  predicate TextField(params: Json, key: Text, value: Option<Text>) {
    value ==
      if params.Obj? && key in params.fields && params.fields[key].Str? then Some(params.fields[key].s) else None
  }

  /** `initialize`, `ping` and unknown methods, in any state. */
  lemma PlainRequests(
    H: HashFn, c: Config, lines: seq<Text>, line: Text, id: Json, name: Text, params: Json, requested: Option<Text>)
    requires Requests(c, line, id, name, params) && TextField(params, PROTOCOL_VERSION, requested)
    ensures var st, after := Before(H, c, lines), Next(H, c, lines, line);
      && (name == METHOD_INITIALIZE ==> exists protocol ::
            (Agreed(requested, protocol)
             && after == st.(log := st.log + [ClientInitialize(protocol, requested)],
                             out := st.out + [ResultReply(id, InitializeResult(protocol))])))
      && (name == METHOD_PING ==> after == st.(out := st.out + [ResultReply(id, PingResult)]))
      && (name !in {METHOD_INITIALIZE, METHOD_PING, METHOD_LIST, METHOD_CALL} ==>
            after == st.(out := st.out + [ErrorReply(id, -32601, NoData)]))
      && (name in {METHOD_LIST, METHOD_CALL} && !InitializedBy(c, lines) ==>
            after == st.(out := st.out + [ErrorReply(id, -32002, NoData)]))
  {
    hide Run, IsMessage, ListReply, CallStep;
    RequestIs(H, c, lines, line, id, name, params);
    InitializedIff(H, c, lines);
    MethodNamesDiffer();
    InitializeIsPing();
    if name == METHOD_INITIALIZE {
      NegotiateAgrees(requested);
    }
  }

  lemma InitializeIsPing()
    ensures METHOD_INITIALIZE != METHOD_PING
  {
    assert |METHOD_INITIALIZE| == 10 && |METHOD_PING| == 4;
  }

  lemma NegotiateAgrees(requested: Option<Text>)
    ensures Agreed(requested, Negotiate(requested))
  {
  }

  /** The page the paginator serves, as it goes out and as it is noted. */
  predicate PageServed(c: Config, id: Json, pg: Page, e: Event, r: Reply) {
    && pg.start <= pg.end <= |VisibleTools(c)|
    && e == ToolsList(ListOk(|VisibleTools(c)|, pg.start, pg.end - pg.start, pg.nextCursor.Some?, c.pageSize > 0))
    && r.ResultReply? && r.id == id && r.result.ToolPage?
    && r.result.nextCursor == pg.nextCursor && |r.result.tools| == pg.end - pg.start
    && forall i :: 0 <= i < |r.result.tools| ==> r.result.tools[i] == VisibleTools(c)[pg.start + i].raw
  }

  /** The answer to a list request: the page for its cursor, which must be a string unless it is
      absent or null. */
  predicate ListAnswered(H: HashFn, c: Config, id: Json, params: Json, e: Event, r: Reply) {
    var given := params.Obj? && CURSOR in params.fields && params.fields[CURSOR] != Null;
    if given && !params.fields[CURSOR].Str? then e == ToolsList(CursorNotAString) && r == ErrorReply(id, -32602, NoData)
    else
      match Pager(H, c).PageFor(H, if given then Some(params.fields[CURSOR].s) else None)
      case Err(reason) => e == ToolsList(InvalidCursor(reason)) && r == ErrorReply(id, -32602, CursorReason(reason))
      case Ok(pg) => PageServed(c, id, pg, e, r)
  }

  lemma ListReplyIs(H: HashFn, c: Config, id: Json, params: Json)
    ensures ListAnswered(H, c, id, params, ListReply(H, c, id, params).0, ListReply(H, c, id, params).1)
  {
    hide Paginator.PageFor, Filter, SnapshotOf;
    PageInside(H, Pager(H, c), AsOption(CursorOf(params)));
  }

  /** `tools/list` in an initialized session. */
  lemma ListRequests(H: HashFn, c: Config, lines: seq<Text>, line: Text, id: Json, params: Json)
    requires Requests(c, line, id, METHOD_LIST, params) && InitializedBy(c, lines)
    ensures var st, after := Before(H, c, lines), Next(H, c, lines, line);
      exists e, r :: ListAnswered(H, c, id, params, e, r) && after == st.(log := st.log + [e], out := st.out + [r])
  {
    hide Run, IsMessage, CallStep, ListReply, ListAnswered;
    RequestIs(H, c, lines, line, id, METHOD_LIST, params);
    InitializedIff(H, c, lines);
    MethodNamesDiffer();
    ListReplyIs(H, c, id, params);
  }

  /** The names two clients see differ, in number, in kind or in order. */
  predicate NamesDiffer(c: Config, d: Config) {
    |VisibleTools(c)| != |VisibleTools(d)|
    || exists i :: 0 <= i < |VisibleTools(c)| && VisibleTools(c)[i].name != VisibleTools(d)[i].name
  }

  /** A session that shows other tools, or the same in another order, opens no cursor of this one,
      unless the hash collides on the two lists. */
  lemma CursorsDoNotTravel(H: HashFn, c: Config, d: Config, offset: nat)
    requires NamesDiffer(c, d) && |c.key| == |d.key| == 32
    requires Sized(Names(VisibleTools(c))) && Sized(Names(VisibleTools(d)))
    requires Pager(H, d).Open(H, Mint(H, c.key, Pager(H, c).snapshotId, offset)).Ok?
    ensures var x, y := Frame(Names(VisibleTools(c))), Frame(Names(VisibleTools(d)));
      x != y && H(x)[..8] == H(y)[..8]
  {
    hide Filter, Mint, Paginator.Open, Frame, Hmac.Hmac, Inner, Outer, SnapshotOf;
    var m, n := Names(VisibleTools(c)), Names(VisibleTools(d));
    if |m| == |n| {
      var i :| 0 <= i < |m| && VisibleTools(c)[i].name != VisibleTools(d)[i].name;
      assert m[i] != n[i];
    }
    CursorBinds(H, c.key, d.key, m, n, d.pageSize, offset,
                Pager(H, d).Open(H, Mint(H, c.key, Pager(H, c).snapshotId, offset)).value);
  }

  // ---------------------------------------------------------------------------------------
  // Calls
  // ---------------------------------------------------------------------------------------

  /** What the client is told of a guest's outcome: a result or an error as it stands, -32000 for
      an answer that is neither, and the failure's class under the code of its kind. */
  predicate Relayed(id: Json, o: CallOutcome, r: Reply) {
    match o
    case Completed(a) =>
      if a.Obj? && RESULT in a.fields then r == ResultReply(id, GuestResult(a.fields[RESULT]))
      else if a.Obj? && ERROR in a.fields then r == GuestErrorReply(id, a.fields[ERROR])
      else r == ErrorReply(id, -32000, NoData)
    case Failed(f, detail) =>
      r == ErrorReply(id, if f in {Timeout, CpuBudget, OutputOverflow} then -32005 else -32000, FailReason(f, detail))
  }

  /** What the trail says of it. */
  predicate Noted(H: HashFn, c: Config, o: CallOutcome, a: AuditOutcome) {
    match o
    case Completed(v) =>
      if v.Obj? && RESULT in v.fields then
        var x := v.fields[RESULT];
        a == OkOutcome(x.Obj? && IS_ERROR in x.fields && x.fields[IS_ERROR] == Bool(true), |c.write(x)|, H(c.write(x)))
      else if v.Obj? && ERROR in v.fields then
        var x := v.fields[ERROR];
        a == GuestRpcError(if x.Obj? && CODE in x.fields then x.fields[CODE] else Null)
      else a == InvalidGuestResponse
    case Failed(f, _) => a == FailedOutcome(f)
  }

  lemma RelayIs(H: HashFn, c: Config, id: Json, o: CallOutcome)
    ensures Relayed(id, o, Relay(H, c, id, o).1) && Noted(H, c, o, Relay(H, c, id, o).0)
  {
  }

  /** The arguments of a call: null if it has none. */
  predicate ArgumentsAre(params: Json, arguments: Json) {
    arguments == if params.Obj? && ARGUMENTS in params.fields then params.fields[ARGUMENTS] else Null
  }

  /** A call without a tool name is turned down without a trace. */
  lemma NamelessCalls(H: HashFn, c: Config, lines: seq<Text>, line: Text, id: Json, params: Json)
    requires Requests(c, line, id, METHOD_CALL, params) && InitializedBy(c, lines) && TextField(params, NAME, None)
    ensures var st := Before(H, c, lines);
      Next(H, c, lines, line) == st.(out := st.out + [ErrorReply(id, -32602, NoData)])
  {
    hide Run, IsMessage;
    RequestIs(H, c, lines, line, id, METHOD_CALL, params);
    InitializedIff(H, c, lines);
    MethodNamesDiffer();
  }

  /** A call of a tool that was not probed, or that the policy denies, is counted and noted with
      the length and hash of its arguments, and refused. */
  lemma RefusedCalls(
    H: HashFn, c: Config, lines: seq<Text>, line: Text, id: Json, params: Json, tool: Text, arguments: Json)
    requires Requests(c, line, id, METHOD_CALL, params) && InitializedBy(c, lines)
    requires TextField(params, NAME, Some(tool)) && ArgumentsAre(params, arguments)
    ensures var st, after := Before(H, c, lines), Next(H, c, lines, line);
      var known, d := exists t :: t in c.tools && t.name == tool, c.policy.Decide(tool);
      var decision := if !known then DeniedUnknownTool else if d == Deny(true) then DeniedByPolicy else DeniedUnlisted;
      !known || d.Deny? ==>
        after == st.(calls := st.calls + 1,
                     log := st.log + [Call(tool, decision, |c.write(arguments)|, H(c.write(arguments)), None)],
                     out := st.out + [ErrorReply(id, if known then -32003 else -32602, NoData)])
  {
    hide Run, IsMessage, Policy.Decide, Relay, MountModes;
    RequestIs(H, c, lines, line, id, METHOD_CALL, params);
    InitializedIff(H, c, lines);
    MethodNamesDiffer();
    KnownIs(c, tool);
    hide Known;
  }

  lemma KnownIs(c: Config, tool: Text)
    ensures Known(c, tool) <==> exists t :: t in c.tools && t.name == tool
  {
    if exists t :: t in c.tools && t.name == tool {
      var t :| t in c.tools && t.name == tool;
      var i :| 0 <= i < |c.tools| && c.tools[i] == t;
    }
    if Known(c, tool) {
      var i :| 0 <= i < |c.tools| && c.tools[i].name == tool;
      assert c.tools[i] in c.tools;
    }
  }

  /** The modes of a grant's mounts, in order. */
  predicate ModesOf(g: Grant, modes: seq<(Text, MountMode)>) {
    |modes| == |g.mounts| && forall i :: 0 <= i < |modes| ==> modes[i] == (g.mounts[i].guestPath, g.mounts[i].mode)
  }

  /** A call of a probed tool the policy allows runs the guest once, under the grant decided for
      the tool; the client gets what the guest answered, and the trail what it may say of it. */
  lemma ExecutedCalls(
    H: HashFn, c: Config, lines: seq<Text>, line: Text, id: Json, params: Json, tool: Text, arguments: Json)
    requires Requests(c, line, id, METHOD_CALL, params) && InitializedBy(c, lines)
    requires TextField(params, NAME, Some(tool)) && ArgumentsAre(params, arguments)
    requires (exists t :: t in c.tools && t.name == tool) && c.policy.Decide(tool).Allow?
    ensures var st, after := Before(H, c, lines), Next(H, c, lines, line);
      var inv := Invocation(tool, arguments, c.policy.Decide(tool).grant);
      var r := c.behaviour(st.invocations, inv);
      exists modes, noted, reply ::
        && ModesOf(inv.grant, modes) && Noted(H, c, r.outcome, noted) && Relayed(id, r.outcome, reply)
        && after == st.(calls := st.calls + 1, invocations := st.invocations + [inv],
                        log := st.log + [Call(tool, Allowed, |c.write(arguments)|, H(c.write(arguments)),
                                              Some(CallDetail(r.stats, inv.grant.limits.timeoutMs, modes, noted)))],
                        out := st.out + [reply])
  {
    hide Run, IsMessage, Policy.Decide, Relay, MountModes, Noted, Relayed, ModesOf;
    RequestIs(H, c, lines, line, id, METHOD_CALL, params);
    InitializedIff(H, c, lines);
    MethodNamesDiffer();
    KnownIs(c, tool);
    hide Known;
    var g := c.policy.Decide(tool).grant;
    var o := c.behaviour(Before(H, c, lines).invocations, Invocation(tool, arguments, g)).outcome;
    RelayIs(H, c, id, o);
    ModesAre(g);
  }

  lemma ModesAre(g: Grant)
    ensures ModesOf(g, MountModes(g))
  {
  }

  // ---------------------------------------------------------------------------------------
  // From the guest's output to the client
  // ---------------------------------------------------------------------------------------

  /** A failure of this class, under the code of its kind. */
  predicate Refused(id: Json, f: FailClass, r: Reply) {
    && r.ErrorReply? && r.id == id && r.code == (if f in {Timeout, CpuBudget, OutputOverflow} then -32005 else -32000)
    && r.data.FailReason? && r.data.failure == f
  }

  /** The reply to an executed call, from what the guest printed: the result or the error of the
      first line that answers request 2, as it stands and under the client's id; and a failure when
      the output is over budget or no line answers. */
  lemma OutputReachesClient(
    H: HashFn, c: Config, lines: seq<Text>, line: Text, id: Json, params: Json, tool: Text, arguments: Json, run: RunOutput)
    requires Requests(c, line, id, METHOD_CALL, params) && InitializedBy(c, lines)
    requires TextField(params, NAME, Some(tool)) && ArgumentsAre(params, arguments)
    requires (exists t :: t in c.tools && t.name == tool) && c.policy.Decide(tool).Allow?
    requires var g := c.policy.Decide(tool).grant;
      Reports(c.parse, run, g.limits.outputMaxKb,
              c.behaviour(Before(H, c, lines).invocations, Invocation(tool, arguments, g)))
    ensures var st, after := Before(H, c, lines), Next(H, c, lines, line);
      var printed := Split(run.stdout, 10);
      && |after.out| == |st.out| + 1 && after.out[..|st.out|] == st.out
      && var reply := after.out[|st.out|];
         if OverBudget(run, c.policy.Decide(tool).grant.limits.outputMaxKb) then Refused(id, OutputOverflow, reply)
         else if exists i :: 0 <= i < |printed| && HoldsAnswer(c.parse, printed[i], 2) then
           exists i, v :: FirstHolds(c.parse, 2, printed, i, v) && IsAnswer(v, 2) && AnsweredWith(id, v, reply)
         else
           match run.exit
           case Trapped(failure, _) => Refused(id, failure, reply)
           case HostError(_) => Refused(id, Internal, reply)
           case Exit(code) => Refused(id, if code == 0 then NoResponse else GuestExit, reply)
           case Clean => Refused(id, NoResponse, reply)
  {
    hide Run, IsMessage, Policy.Decide, ModesOf, Noted, HoldsAnswer, FirstHolds, Split, Extract, Requests, InitializedBy;
    ExecutedCalls(H, c, lines, line, id, params, tool, arguments);
    ExtractIsFirst(c.parse, 2, run.stdout);
  }

  predicate AnsweredWith(id: Json, v: Json, r: Reply)
    requires IsAnswer(v, 2)
  {
    r == if RESULT in v.fields then ResultReply(id, GuestResult(v.fields[RESULT]))
         else GuestErrorReply(id, v.fields[ERROR])
  }
}
