/** What a guest run reports back, and the guest behind it: src/runner.rs. */
module Runner {
  import opened Wrappers
  import opened Bytes
  import opened Json
  import opened ToolPolicy

  const CODE_GUEST_FAILED := -32000
  const CODE_NOT_INITIALIZED := -32002
  const CODE_POLICY_DENIED := -32003
  const CODE_BUDGET_EXCEEDED := -32005
  const CODE_INVALID_REQUEST := -32600
  const CODE_METHOD_NOT_FOUND := -32601
  const CODE_INVALID_PARAMS := -32602
  const CODE_PARSE_ERROR := -32700

  datatype FailClass = Timeout | CpuBudget | OutputOverflow | GuestTrap | GuestExit | NoResponse | Internal

  function FailCode(c: FailClass): int {
    if c in {Timeout, CpuBudget, OutputOverflow} then CODE_BUDGET_EXCEEDED else CODE_GUEST_FAILED
  }

  datatype CallOutcome = Completed(response: Json) | Failed(failure: FailClass, detail: Text)

  datatype CallStats = CallStats(
    durationMs: nat, fuelUsed: Option<nat>, stdoutBytes: nat, stderrBytes: nat, garbageLines: nat, exitCode: Option<int>)

  datatype CallResult = CallResult(outcome: CallOutcome, stats: CallStats)

  datatype ToolDef = ToolDef(name: Text, raw: Json)

  type ToolList = t: seq<ToolDef> | |t| < USIZE_LIMIT

  /** One guest execution: what the runner is asked to run, and with what. */
  datatype Invocation = Invocation(tool: Text, arguments: Json, grant: Grant)

  /** Any guest at all: its answer may depend on everything it was asked before. */
  type Behaviour = (seq<Invocation>, Invocation) -> CallResult

  /** A runner that remembers what it was asked. */
  class GuestRunner {
    const tools: ToolList
    const behaviour: Behaviour
    var invocations: seq<Invocation>

    constructor (tools: ToolList, behaviour: Behaviour)
      ensures this.tools == tools && this.behaviour == behaviour && invocations == []
    {
      this.tools := tools;
      this.behaviour := behaviour;
      invocations := [];
    }

    method Call(tool: Text, arguments: Json, grant: Grant) returns (r: CallResult)
      modifies this
      ensures r == behaviour(old(invocations), Invocation(tool, arguments, grant))
      ensures invocations == old(invocations) + [Invocation(tool, arguments, grant)]
    {
      r := behaviour(invocations, Invocation(tool, arguments, grant));
      invocations := invocations + [Invocation(tool, arguments, grant)];
    }
  }
}

/** The audit trail as the list of events written, with a sink that never fails: src/audit.rs. */
module Audit {
  import opened Wrappers
  import opened Bytes
  import opened Json
  import opened ToolPolicy
  import opened Paginate
  import opened Runner

  datatype ListOutcome =
    | ListOk(totalVisible: nat, pageStart: nat, pageLen: int, hasNext: bool, paginated: bool)
    | CursorNotAString
    | InvalidCursor(reason: CursorError)

  datatype CallDecision = DeniedUnknownTool | DeniedByPolicy | DeniedUnlisted | Allowed

  datatype AuditOutcome =
    | OkOutcome(isError: bool, resultBytes: nat, resultHash: Digest)
    | GuestRpcError(code: Json)
    | InvalidGuestResponse
    | FailedOutcome(failure: FailClass)

  /** The extra fields of an allowed call. */
  datatype CallDetail = CallDetail(stats: CallStats, timeoutMs: nat, mounts: seq<(Text, MountMode)>, outcome: AuditOutcome)

  datatype Event =
    | ClientInitialize(protocol: Text, requested: Option<Text>)
    | ToolsList(list: ListOutcome)
    | Call(tool: Text, decision: CallDecision, argsBytes: nat, argsHash: Digest, detail: Option<CallDetail>)
    | SessionEnd(calls: nat)

  class Auditor {
    var events: seq<Event>

    constructor ()
      ensures events == []
    {
      events := [];
    }

    method Log(e: Event)
      modifies this
      ensures events == old(events) + [e]
    {
      events := events + [e];
    }
  }
}

/** The client-facing server loop: src/server.rs. */
module Session {
  import opened Wrappers
  import opened Bytes
  import opened Json
  import opened Rpc
  import opened ToolPolicy
  import opened Paginate
  import opened Runner
  import opened Audit
  import opened Hmac
  import Fips180
  import Sha256

  // ---------------------------------------------------------------------------------------
  // Replies
  // ---------------------------------------------------------------------------------------

  datatype Payload =
    | InitializeResult(protocol: Text)
    | PingResult
    | ToolPage(tools: seq<Json>, nextCursor: Option<Text>)
    | GuestResult(result: Json)

  datatype ErrorData = NoData | CursorReason(reason: CursorError) | FailReason(failure: FailClass, detail: Text)

  datatype Reply =
    | ResultReply(id: Json, result: Payload)
    | ErrorReply(id: Json, code: int, data: ErrorData)
    | GuestErrorReply(id: Json, error: Json)

  /** Protocol revisions, newest first: "2025-06-18", "2025-03-26", "2024-11-05". */
  const SUPPORTED_PROTOCOLS: seq<Text> := [
    [50, 48, 50, 53, 45, 48, 54, 45, 49, 56],
    [50, 48, 50, 53, 45, 48, 51, 45, 50, 54],
    [50, 48, 50, 52, 45, 49, 49, 45, 48, 53]]

  function Negotiate(requested: Option<Text>): Text {
    if requested.Some? && requested.value in SUPPORTED_PROTOCOLS then requested.value else SUPPORTED_PROTOCOLS[0]
  }

  // ---------------------------------------------------------------------------------------
  // The session as a transition system
  // ---------------------------------------------------------------------------------------

  /** Everything a session is given and never changes: the JSON codec, which lines `trim` leaves
      empty, the probed tools, the guest, the policy, the page size and the cursor key. */
  datatype Config = Config(
    parse: Parser, write: Printer, blank: Text -> bool,
    tools: ToolList, behaviour: Behaviour, policy: Policy, pageSize: usize, key: Bytes)

  datatype State = State(initialized: bool, calls: nat, log: seq<Event>, invocations: seq<Invocation>, out: seq<Reply>)

  const INITIAL := State(false, 0, [], [], [])

  function Filter(tools: seq<ToolDef>, policy: Policy): (vs: seq<ToolDef>)
    ensures |vs| <= |tools|
  {
    if tools == [] then []
    else (if policy.Visible(tools[0].name) then [tools[0]] else []) + Filter(tools[1..], policy)
  }

  function VisibleTools(c: Config): ToolList {
    Filter(c.tools, c.policy)
  }

  function Names(tools: seq<ToolDef>): (ns: seq<Text>)
    ensures |ns| == |tools|
  {
    seq(|tools|, i requires 0 <= i < |tools| => tools[i].name)
  }

  function Raws(tools: seq<ToolDef>): (rs: seq<Json>)
    ensures |rs| == |tools|
  {
    seq(|tools|, i requires 0 <= i < |tools| => tools[i].raw)
  }

  predicate Known(c: Config, name: Text) {
    exists i :: 0 <= i < |c.tools| && c.tools[i].name == name
  }

  function Pager(H: HashFn, c: Config): Paginator {
    ForNames(H, c.key, Names(VisibleTools(c)), c.pageSize)
  }

  /** The three shapes of the cursor parameter. */
  datatype CursorParam = NoCursor | TextCursor(text: Text) | BadCursor

  function CursorOf(params: Json): CursorParam {
    var v := params.Get(CURSOR);
    if v == None || v == Some(Null) then NoCursor
    else if v.value.Str? then TextCursor(v.value.s)
    else BadCursor
  }

  function AsOption(p: CursorParam): Option<Text> {
    if p.TextCursor? then Some(p.text) else None
  }

  function ListReply(H: HashFn, c: Config, id: Json, params: Json): (Event, Reply) {
    var cursor := CursorOf(params);
    if cursor.BadCursor? then (ToolsList(CursorNotAString), ErrorReply(id, CODE_INVALID_PARAMS, NoData))
    else
      var p := Pager(H, c);
      var page := p.PageFor(H, AsOption(cursor));
      if page.Err? then (ToolsList(InvalidCursor(page.error)), ErrorReply(id, CODE_INVALID_PARAMS, CursorReason(page.error)))
      else
        PageInside(H, p, AsOption(cursor));
        var pg := page.value;
        (ToolsList(ListOk(p.total, pg.start, pg.end - pg.start, pg.nextCursor.Some?, c.pageSize > 0)),
         ResultReply(id, ToolPage(Raws(VisibleTools(c))[pg.start..pg.end], pg.nextCursor)))
  }

  /** Every page served is a slice of the list that starts at a multiple of the page size, holds at
      most a page of it, and offers a cursor exactly when something comes after it. */
  lemma PageInside(H: HashFn, p: Paginator, cursor: Option<Text>)
    ensures p.PageFor(H, cursor).Ok? ==>
      var pg := p.PageFor(H, cursor).value;
      && pg.start <= pg.end <= p.total && (pg.nextCursor.Some? <==> pg.end < p.total)
      && IsMultipleOf(pg.start, p.pageSize) && (p.pageSize > 0 ==> pg.end - pg.start <= p.pageSize)
  {
    hide Paginator.Open, Mint;
    if p.pageSize > 0 && cursor.Some? && p.Open(H, cursor.value).Ok? {
      OpenIffMinted(H, p, cursor.value, p.Open(H, cursor.value).value);
    }
  }

  function IsErrorFlag(result: Json): bool {
    var v := result.Get(IS_ERROR);
    v.Some? && v.value.Bool? && v.value.b
  }

  /** The client's reply and the audited outcome for what the guest reported. */
  function Relay(H: HashFn, c: Config, id: Json, o: CallOutcome): (AuditOutcome, Reply) {
    if o.Failed? then (FailedOutcome(o.failure), ErrorReply(id, FailCode(o.failure), FailReason(o.failure, o.detail)))
    else
      var result, error := o.response.Get(RESULT), o.response.Get(ERROR);
      if result.Some? then
        var bytes := c.write(result.value);
        (OkOutcome(IsErrorFlag(result.value), |bytes|, H(bytes)), ResultReply(id, GuestResult(result.value)))
      else if error.Some? then (GuestRpcError(OrNull(error.value.Get(CODE))), GuestErrorReply(id, error.value))
      else (InvalidGuestResponse, ErrorReply(id, CODE_GUEST_FAILED, NoData))
  }

  function MountModes(g: Grant): seq<(Text, MountMode)> {
    seq(|g.mounts|, i requires 0 <= i < |g.mounts| => (g.mounts[i].guestPath, g.mounts[i].mode))
  }

  function CallStep(H: HashFn, c: Config, st: State, id: Json, params: Json): (State, Reply) {
    var name := GetStr(params, NAME);
    if name == None then (st, ErrorReply(id, CODE_INVALID_PARAMS, NoData))
    else
      var arguments := OrNull(params.Get(ARGUMENTS));
      var bytes := c.write(arguments);
      var counted := st.(calls := st.calls + 1);
      var decision := c.policy.Decide(name.value);
      if !Known(c, name.value) then
        (counted.(log := st.log + [Call(name.value, DeniedUnknownTool, |bytes|, H(bytes), None)]),
         ErrorReply(id, CODE_INVALID_PARAMS, NoData))
      else if decision.Deny? then
        (counted.(log := st.log + [Call(name.value, if decision.listed then DeniedByPolicy else DeniedUnlisted,
                                        |bytes|, H(bytes), None)]),
         ErrorReply(id, CODE_POLICY_DENIED, NoData))
      else
        var inv := Invocation(name.value, arguments, decision.grant);
        var r := c.behaviour(st.invocations, inv);
        var relay := Relay(H, c, id, r.outcome);
        var detail := CallDetail(r.stats, decision.grant.limits.timeoutMs, MountModes(decision.grant), relay.0);
        (counted.(log := st.log + [Call(name.value, Allowed, |bytes|, H(bytes), Some(detail))],
                  invocations := st.invocations + [inv]),
         relay.1)
  }

  function RequestStep(H: HashFn, c: Config, st: State, id: Json, name: Text, params: Json): (State, Reply) {
    if name == METHOD_INITIALIZE then
      var requested := GetStr(params, PROTOCOL_VERSION);
      (st.(log := st.log + [ClientInitialize(Negotiate(requested), requested)]),
       ResultReply(id, InitializeResult(Negotiate(requested))))
    else if name == METHOD_PING then (st, ResultReply(id, PingResult))
    else if name == METHOD_LIST then
      if !st.initialized then (st, ErrorReply(id, CODE_NOT_INITIALIZED, NoData))
      else
        var r := ListReply(H, c, id, params);
        (st.(log := st.log + [r.0]), r.1)
    else if name == METHOD_CALL then
      if !st.initialized then (st, ErrorReply(id, CODE_NOT_INITIALIZED, NoData)) else CallStep(H, c, st, id, params)
    else (st, ErrorReply(id, CODE_METHOD_NOT_FOUND, NoData))
  }

  function Step(H: HashFn, c: Config, st: State, line: Text): State {
    if c.blank(line) then st
    else
      match ParseLine(c.parse, line)
      case ParseError => st.(out := st.out + [ErrorReply(Null, CODE_PARSE_ERROR, NoData)])
      case Malformed => st.(out := st.out + [ErrorReply(Null, CODE_INVALID_REQUEST, NoData)])
      case Notification(name, _) => if name == METHOD_INITIALIZED then st.(initialized := true) else st
      case Request(id, name, params) =>
        var r := RequestStep(H, c, st, id, name, params);
        r.0.(out := st.out + [r.1])
  }

  function Run(H: HashFn, c: Config, st: State, lines: seq<Text>): State {
    if lines == [] then st else Step(H, c, Run(H, c, st, lines[..|lines| - 1]), lines[|lines| - 1])
  }

  // ---------------------------------------------------------------------------------------
  // The implementation
  // ---------------------------------------------------------------------------------------

  class Output {
    var replies: seq<Reply>

    constructor ()
      ensures replies == []
    {
      replies := [];
    }

    method WriteLine(r: Reply)
      modifies this
      ensures replies == old(replies) + [r]
    {
      replies := replies + [r];
    }
  }

  class ClientSession {
    const runner: GuestRunner
    const policy: Policy
    const audit: Auditor
    const pageSize: usize
    const cursorKey: Bytes
    const parse: Parser
    const write: Printer
    const blank: Text -> bool
    var initialized: bool
    var calls: nat

    /** `Session::new_paginated`. */
    constructor (runner: GuestRunner, policy: Policy, audit: Auditor, pageSize: usize, cursorKey: Bytes,
                 parse: Parser, write: Printer, blank: Text -> bool)
      ensures this.runner == runner && this.audit == audit && !initialized && calls == 0
      ensures Settings() == Config(parse, write, blank, runner.tools, runner.behaviour, policy, pageSize, cursorKey)
    {
      this.runner, this.policy, this.audit, this.pageSize, this.cursorKey := runner, policy, audit, pageSize, cursorKey;
      this.parse, this.write, this.blank := parse, write, blank;
      initialized, calls := false, 0;
    }

    function Settings(): Config {
      Config(parse, write, blank, runner.tools, runner.behaviour, policy, pageSize, cursorKey)
    }

    ghost function Now(out: seq<Reply>): State
      reads this, audit, runner
    {
      State(initialized, calls, audit.events, runner.invocations, out)
    }

    /** `visible_tool_defs`. */
    function VisibleToolDefs(): ToolList {
      VisibleTools(Settings())
    }

    /** `handle_line`. */
    method HandleLine(line: Text, out: Output)
      modifies this, audit, runner, out
      ensures Now(out.replies) == Step(Fips180.Hash, Settings(), old(Now(out.replies)), line)
    {
      hide Fips180.Hash, RequestStep, ParseLine;
      if blank(line) {
        return;
      }
      match ParseLine(parse, line)
      case ParseError =>
        out.WriteLine(ErrorReply(Null, CODE_PARSE_ERROR, NoData));
      case Malformed =>
        out.WriteLine(ErrorReply(Null, CODE_INVALID_REQUEST, NoData));
      case Notification(name, _) =>
        if name == METHOD_INITIALIZED {
          initialized := true;
        }
      case Request(id, name, params) =>
        ghost var before := Now(out.replies);
        var reply := HandleRequest(id, name, params, before.out);
        out.WriteLine(reply);
    }

    /** `handle_request`. */
    method HandleRequest(id: Json, name: Text, params: Json, ghost o: seq<Reply>) returns (reply: Reply)
      modifies this, audit, runner
      ensures Now(o) == RequestStep(Fips180.Hash, Settings(), old(Now(o)), id, name, params).0
      ensures reply == RequestStep(Fips180.Hash, Settings(), old(Now(o)), id, name, params).1
    {
      hide Fips180.Hash, CallStep, ListReply, Negotiate;
      if name == METHOD_INITIALIZE {
        var requested := GetStr(params, PROTOCOL_VERSION);
        var protocol := Negotiate(requested);
        audit.Log(ClientInitialize(protocol, requested));
        return ResultReply(id, InitializeResult(protocol));
      } else if name == METHOD_PING {
        return ResultReply(id, PingResult);
      } else if name == METHOD_LIST {
        if !initialized {
          return ErrorReply(id, CODE_NOT_INITIALIZED, NoData);
        }
        reply := HandleList(id, params);
      } else if name == METHOD_CALL {
        if !initialized {
          return ErrorReply(id, CODE_NOT_INITIALIZED, NoData);
        }
        reply := HandleCall(id, params, o);
      } else {
        return ErrorReply(id, CODE_METHOD_NOT_FOUND, NoData);
      }
    }

    /** `handle_list`. */
    method HandleList(id: Json, params: Json) returns (reply: Reply)
      modifies audit
      ensures reply == ListReply(Fips180.Hash, Settings(), id, params).1
      ensures audit.events == old(audit.events) + [ListReply(Fips180.Hash, Settings(), id, params).0]
    {
      hide Fips180.Hash, Paginator.PageFor, SnapshotOf;
      var cursor := CursorOf(params);
      if cursor.BadCursor? {
        audit.Log(ToolsList(CursorNotAString));
        return ErrorReply(id, CODE_INVALID_PARAMS, NoData);
      }
      var visible := VisibleToolDefs();
      var paginator := NewPaginator(cursorKey, Names(visible), pageSize);
      var page := paginator.GetPage(AsOption(cursor));
      if page.Err? {
        audit.Log(ToolsList(InvalidCursor(page.error)));
        return ErrorReply(id, CODE_INVALID_PARAMS, CursorReason(page.error));
      }
      var pg := page.value;
      PageInside(Fips180.Hash, paginator, AsOption(cursor));
      var tools := Raws(visible)[pg.start..pg.end];
      audit.Log(ToolsList(ListOk(paginator.total, pg.start, pg.end - pg.start, pg.nextCursor.Some?, pageSize > 0)));
      return ResultReply(id, ToolPage(tools, pg.nextCursor));
    }

    /** `handle_call`. */
    method HandleCall(id: Json, params: Json, ghost o: seq<Reply>) returns (reply: Reply)
      modifies this, audit, runner
      ensures Now(o) == CallStep(Fips180.Hash, Settings(), old(Now(o)), id, params).0
      ensures reply == CallStep(Fips180.Hash, Settings(), old(Now(o)), id, params).1
    {
      hide Fips180.Hash, Policy.Decide, MountModes, Relay, GetStr, OrNull;
      var name := GetStr(params, NAME);
      if name == None {
        return ErrorReply(id, CODE_INVALID_PARAMS, NoData);
      }
      var arguments := OrNull(params.Get(ARGUMENTS));
      var argsBytes := write(arguments);
      var argsHash := Sha256.Sha256(argsBytes);
      calls := calls + 1;
      var known := exists i :: 0 <= i < |runner.tools| && runner.tools[i].name == name.value;
      assert known == Known(Settings(), name.value);
      if !known {
        audit.Log(Call(name.value, DeniedUnknownTool, |argsBytes|, argsHash, None));
        return ErrorReply(id, CODE_INVALID_PARAMS, NoData);
      }
      var decision := policy.Decide(name.value);
      if decision.Deny? {
        audit.Log(Call(name.value, if decision.listed then DeniedByPolicy else DeniedUnlisted, |argsBytes|, argsHash, None));
        return ErrorReply(id, CODE_POLICY_DENIED, NoData);
      }
      var grant := decision.grant;
      var result := runner.Call(name.value, arguments, grant);
      var outcome: AuditOutcome;
      outcome, reply := RelayOutcome(id, result.outcome);
      audit.Log(Call(name.value, Allowed, |argsBytes|, argsHash,
                     Some(CallDetail(result.stats, grant.limits.timeoutMs, MountModes(grant), outcome))));
    }

    method RelayOutcome(id: Json, outcome: CallOutcome) returns (audited: AuditOutcome, reply: Reply)
      ensures (audited, reply) == Relay(Fips180.Hash, Settings(), id, outcome)
    {
      hide Fips180.Hash;
      match outcome
      case Completed(response) =>
        var result := response.Get(RESULT);
        var error := response.Get(ERROR);
        if result.Some? {
          var bytes := write(result.value);
          var resultHash := Sha256.Sha256(bytes);
          return OkOutcome(IsErrorFlag(result.value), |bytes|, resultHash), ResultReply(id, GuestResult(result.value));
        } else if error.Some? {
          return GuestRpcError(OrNull(error.value.Get(CODE))), GuestErrorReply(id, error.value);
        } else {
          return InvalidGuestResponse, ErrorReply(id, CODE_GUEST_FAILED, NoData);
        }
      case Failed(failure, detail) =>
        return FailedOutcome(failure), ErrorReply(id, FailCode(failure), FailReason(failure, detail));
    }

    /** `finish`. */
    method Finish()
      modifies audit
      ensures audit.events == old(audit.events) + [SessionEnd(calls)]
    {
      audit.Log(SessionEnd(calls));
    }
  }
}
