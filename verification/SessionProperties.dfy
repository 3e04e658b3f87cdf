/** What holds over every run of a session: any input lines, any guest, any policy, any hash. */
module SessionProperties {
  import opened Wrappers
  import opened Bytes
  import opened Json
  import opened Rpc
  import opened ToolPolicy
  import opened Paginate
  import opened Runner
  import opened Audit
  import opened Hmac
  import opened Session
  import opened PolicyProperties
  import opened TextOps
  import Fips180

  // ---------------------------------------------------------------------------------------
  // The audit trail records what happened
  // ---------------------------------------------------------------------------------------

  /** The number of `call` events. */
  function CallEvents(log: seq<Event>): nat {
    if log == [] then 0 else CallEvents(log[..|log| - 1]) + if log[|log| - 1].Call? then 1 else 0
  }

  /** What the trail tells about one guest execution. */
  datatype CallRecord = CallRecord(
    tool: Text, argsBytes: nat, argsHash: Digest, timeoutMs: nat, mounts: seq<(Text, MountMode)>)

  function RecordsOfEvent(e: Event): seq<CallRecord> {
    if e.Call? && e.decision == Allowed && e.detail.Some?
    then [CallRecord(e.tool, e.argsBytes, e.argsHash, e.detail.value.timeoutMs, e.detail.value.mounts)] else []
  }

  function AllowedRecords(log: seq<Event>): seq<CallRecord> {
    if log == [] then [] else AllowedRecords(log[..|log| - 1]) + RecordsOfEvent(log[|log| - 1])
  }

  function RecordOf(H: HashFn, c: Config, inv: Invocation): CallRecord {
    var bytes := c.write(inv.arguments);
    CallRecord(inv.tool, |bytes|, H(bytes), inv.grant.limits.timeoutMs, MountModes(inv.grant))
  }

  function Records(H: HashFn, c: Config, invs: seq<Invocation>): seq<CallRecord> {
    if invs == [] then [] else Records(H, c, invs[..|invs| - 1]) + [RecordOf(H, c, invs[|invs| - 1])]
  }

  /** An execution the policy allows: a probed tool with exactly the grant decided for it. */
  predicate Permitted(c: Config, inv: Invocation) {
    Known(c, inv.tool) && c.policy.Decide(inv.tool) == Allow(inv.grant)
  }

  /** What an event says agrees with the policy, the probed tools and the visible list. */
  predicate Truthful(c: Config, e: Event) {
    match e
    case Call(tool, decision, _, _, detail) =>
      && (decision == DeniedUnknownTool <==> !Known(c, tool))
      && (decision == DeniedByPolicy <==> Known(c, tool) && c.policy.Decide(tool) == Deny(true))
      && (decision == DeniedUnlisted <==> Known(c, tool) && c.policy.Decide(tool) == Deny(false))
      && (decision == Allowed <==> Known(c, tool) && c.policy.Visible(tool))
      && (detail.Some? <==> decision == Allowed)
    case ToolsList(ListOk(total, start, len, hasNext, paginated)) =>
      && total == |VisibleTools(c)| && 0 <= len && start + len <= total && (hasNext <==> start + len < total)
      && (paginated <==> c.pageSize > 0) && IsMultipleOf(start, c.pageSize) && (paginated ==> len <= c.pageSize)
    case ClientInitialize(protocol, requested) =>
      && protocol in SUPPORTED_PROTOCOLS
      && (requested.Some? && requested.value in SUPPORTED_PROTOCOLS ==> protocol == requested.value)
    case _ => true
  }

  ghost predicate Invariant(H: HashFn, c: Config, st: State) {
    && st.calls == CallEvents(st.log)
    && AllowedRecords(st.log) == Records(H, c, st.invocations)
    && (forall i :: 0 <= i < |st.invocations| ==> Permitted(c, st.invocations[i]))
    && (st.invocations != [] ==> st.initialized)
    && (forall i :: 0 <= i < |st.log| ==> Truthful(c, st.log[i]))
  }

  lemma LogOne(log: seq<Event>, e: Event)
    ensures CallEvents(log + [e]) == CallEvents(log) + if e.Call? then 1 else 0
    ensures AllowedRecords(log + [e]) == AllowedRecords(log) + RecordsOfEvent(e)
  {
    assert (log + [e])[..|log|] == log;
  }

  lemma RunOne(H: HashFn, c: Config, invs: seq<Invocation>, inv: Invocation)
    ensures Records(H, c, invs + [inv]) == Records(H, c, invs) + [RecordOf(H, c, inv)]
  {
    assert (invs + [inv])[..|invs|] == invs;
  }

  lemma CallKeepsInvariant(H: HashFn, c: Config, st: State, id: Json, params: Json)
    requires Invariant(H, c, st) && st.initialized
    ensures Invariant(H, c, CallStep(H, c, st, id, params).0)
  {
    hide Policy.Decide, MountModes, Relay, Known, OrNull, GetStr, CallEvents, AllowedRecords, Records;
    var after := CallStep(H, c, st, id, params).0;
    if GetStr(params, NAME).Some? {
      var e := after.log[|st.log|];
      assert after.log == st.log + [e] && e.Call?;
      assert Truthful(c, e);
      LogOne(st.log, e);
      if after.invocations == st.invocations {
        assert RecordsOfEvent(e) == [];
        assert AllowedRecords(after.log) == AllowedRecords(st.log);
      } else {
        var inv := after.invocations[|st.invocations|];
        assert after.invocations == st.invocations + [inv] && Permitted(c, inv);
        assert RecordsOfEvent(e) == [RecordOf(H, c, inv)];
        RunOne(H, c, st.invocations, inv);
      }
    }
  }

  lemma RequestKeepsInvariant(H: HashFn, c: Config, st: State, id: Json, name: Text, params: Json)
    requires Invariant(H, c, st)
    ensures Invariant(H, c, RequestStep(H, c, st, id, name, params).0)
  {
    hide CallStep, ListReply, Negotiate, Permitted, Truthful;
    if name == METHOD_INITIALIZE {
      var requested := GetStr(params, PROTOCOL_VERSION);
      InitializeIsTruthful(c, requested);
      LogOne(st.log, ClientInitialize(Negotiate(requested), requested));
    } else if name == METHOD_PING {
    } else if name == METHOD_LIST {
      if st.initialized {
        ListIsTruthful(H, c, id, params);
        LogOne(st.log, ListReply(H, c, id, params).0);
      }
    } else if name == METHOD_CALL && st.initialized {
      CallKeepsInvariant(H, c, st, id, params);
    }
  }

  lemma InitializeIsTruthful(c: Config, requested: Option<Text>)
    ensures Truthful(c, ClientInitialize(Negotiate(requested), requested))
  {
    assert SUPPORTED_PROTOCOLS[0] in SUPPORTED_PROTOCOLS;
  }

  lemma ListIsTruthful(H: HashFn, c: Config, id: Json, params: Json)
    ensures ListReply(H, c, id, params).0.ToolsList? && Truthful(c, ListReply(H, c, id, params).0)
  {
    hide Paginator.PageFor, SnapshotOf, Filter;
    PageInside(H, Pager(H, c), AsOption(CursorOf(params)));
  }

  lemma StepKeepsInvariant(H: HashFn, c: Config, st: State, line: Text)
    requires Invariant(H, c, st)
    ensures Invariant(H, c, Step(H, c, st, line))
  {
    hide RequestStep, ParseLine, Permitted, Truthful;
    if !c.blank(line) {
      match ParseLine(c.parse, line)
      case Request(id, name, params) => RequestKeepsInvariant(H, c, st, id, name, params);
      case _ =>
    }
  }

  /** In every reachable state the call counter is the number of `call` events, the allowed ones
      among them record the guest executions one for one and in order, every execution was of a probed
      tool under exactly the grant the policy decides, after initialization, and every event is
      true of the policy and the visible list. */
  lemma {:induction false} RunKeepsInvariant(H: HashFn, c: Config, lines: seq<Text>)
    ensures Invariant(H, c, Run(H, c, INITIAL, lines))
  {
    hide Step, Permitted, Truthful;
    if lines != [] {
      RunKeepsInvariant(H, c, lines[..|lines| - 1]);
      StepKeepsInvariant(H, c, Run(H, c, INITIAL, lines[..|lines| - 1]), lines[|lines| - 1]);
    }
  }

  lemma {:induction false} RecordCount(H: HashFn, c: Config, invs: seq<Invocation>)
    ensures |Records(H, c, invs)| == |invs|
  {
    if invs != [] {
      RecordCount(H, c, invs[..|invs| - 1]);
    }
  }

  /** As many guest executions as audited `call` events with decision `allow`. */
  lemma ExecutionsAreAudited(H: HashFn, c: Config, lines: seq<Text>)
    ensures var st := Run(H, c, INITIAL, lines); |st.invocations| == |AllowedRecords(st.log)|
  {
    hide Run, Permitted, Truthful;
    RunKeepsInvariant(H, c, lines);
    RecordCount(H, c, Run(H, c, INITIAL, lines).invocations);
  }

  // ---------------------------------------------------------------------------------------
  // One line in, at most one line out
  // ---------------------------------------------------------------------------------------

  /** The reply to one line, if there is one. */
  function Answer(H: HashFn, c: Config, st: State, line: Text): Option<Reply> {
    if c.blank(line) then None
    else
      match ParseLine(c.parse, line)
      case ParseError => Some(ErrorReply(Null, CODE_PARSE_ERROR, NoData))
      case Malformed => Some(ErrorReply(Null, CODE_INVALID_REQUEST, NoData))
      case Notification(_, _) => None
      case Request(id, name, params) => Some(RequestStep(H, c, st, id, name, params).1)
  }

  /** The ids a client must see answered, from its input alone. */
  function ExpectedId(c: Config, line: Text): seq<Json> {
    if c.blank(line) then []
    else
      match ParseLine(c.parse, line)
      case ParseError => [Null]
      case Malformed => [Null]
      case Notification(_, _) => []
      case Request(id, _, _) => [id]
  }

  function ExpectedIds(c: Config, lines: seq<Text>): seq<Json> {
    if lines == [] then [] else ExpectedIds(c, lines[..|lines| - 1]) + ExpectedId(c, lines[|lines| - 1])
  }

  function ReplyIds(out: seq<Reply>): (ids: seq<Json>)
    ensures |ids| == |out|
  {
    seq(|out|, i requires 0 <= i < |out| => out[i].id)
  }

  lemma RequestFrame(H: HashFn, c: Config, st: State, id: Json, name: Text, params: Json)
    ensures var r := RequestStep(H, c, st, id, name, params);
      && r.1.id == id && r.0.out == st.out && r.0.initialized == st.initialized
      && (!st.initialized && name in {METHOD_LIST, METHOD_CALL} && name !in {METHOD_INITIALIZE, METHOD_PING} ==>
            r == (st, ErrorReply(id, CODE_NOT_INITIALIZED, NoData)))
  {
    hide ParseLine, Negotiate, MountModes, Policy.Decide, Known, Paginator.PageFor;
  }

  lemma StepFrame(H: HashFn, c: Config, st: State, line: Text)
    ensures var after := Step(H, c, st, line);
      && after.out == st.out + (if Answer(H, c, st, line).Some? then [Answer(H, c, st, line).value] else [])
      && ReplyIds(after.out) == ReplyIds(st.out) + ExpectedId(c, line)
      && (after.initialized <==> st.initialized || Initializes(c, line))
  {
    hide RequestStep, ParseLine;
    if !c.blank(line) {
      match ParseLine(c.parse, line)
      case Request(id, name, params) => RequestFrame(H, c, st, id, name, params);
      case _ =>
    }
  }

  predicate Initializes(c: Config, line: Text) {
    !c.blank(line) && ParseLine(c.parse, line).Notification? && ParseLine(c.parse, line).name == METHOD_INITIALIZED
  }

  predicate InitializedBy(c: Config, lines: seq<Text>) {
    exists i :: 0 <= i < |lines| && Initializes(c, lines[i])
  }

  /** The replies of a whole run carry, in order, exactly the ids its input asks for: one for
      every request, null for every line that is no message, none for blanks and notifications. */
  lemma {:induction false} RepliesMatchInput(H: HashFn, c: Config, lines: seq<Text>)
    ensures ReplyIds(Run(H, c, INITIAL, lines).out) == ExpectedIds(c, lines)
  {
    hide Step, Initializes;
    if lines != [] {
      RepliesMatchInput(H, c, lines[..|lines| - 1]);
      StepFrame(H, c, Run(H, c, INITIAL, lines[..|lines| - 1]), lines[|lines| - 1]);
    }
  }

  /** A session is initialized exactly from the first `notifications/initialized` on. */
  lemma {:induction false} InitializedIff(H: HashFn, c: Config, lines: seq<Text>)
    ensures Run(H, c, INITIAL, lines).initialized <==> InitializedBy(c, lines)
  {
    hide Step, Initializes;
    if lines != [] {
      var init, last := lines[..|lines| - 1], lines[|lines| - 1];
      InitializedIff(H, c, init);
      StepFrame(H, c, Run(H, c, INITIAL, init), last);
      assert forall i :: 0 <= i < |init| ==> init[i] == lines[i];
      if InitializedBy(c, init) {
        var i :| 0 <= i < |init| && Initializes(c, init[i]);
        assert Initializes(c, lines[i]);
      }
    }
  }

  /** Until then no guest has run, and listing or calling tools is refused. */
  lemma NothingBeforeInitialized(H: HashFn, c: Config, lines: seq<Text>, line: Text)
    requires !InitializedBy(c, lines)
    ensures Run(H, c, INITIAL, lines).invocations == [] && AllowedRecords(Run(H, c, INITIAL, lines).log) == []
    ensures var m := ParseLine(c.parse, line);
      !c.blank(line) && m.Request? && m.name in {METHOD_LIST, METHOD_CALL} ==>
        Answer(H, c, Run(H, c, INITIAL, lines), line) == Some(ErrorReply(m.id, CODE_NOT_INITIALIZED, NoData))
  {
    hide Run, RequestStep, ParseLine, Permitted, Truthful;
    InitializedIff(H, c, lines);
    RunKeepsInvariant(H, c, lines);
    MethodNamesDiffer();
    var m := ParseLine(c.parse, line);
    if m.Request? {
      RequestFrame(H, c, Run(H, c, INITIAL, lines), m.id, m.name, m.params);
    }
  }

  // ---------------------------------------------------------------------------------------
  // Which tools a client can see, and which it can run
  // ---------------------------------------------------------------------------------------

  /** The visible tools are the probed ones the policy shows, in probe order. */
  lemma {:induction false} FilterMembers(tools: seq<ToolDef>, policy: Policy, t: ToolDef)
    ensures t in Filter(tools, policy) <==> t in tools && policy.Visible(t.name)
  {
    hide Policy.Visible;
    if tools != [] {
      FilterMembers(tools[1..], policy, t);
    }
  }

  lemma {:induction false} FilterSplits(a: seq<ToolDef>, b: seq<ToolDef>, policy: Policy)
    ensures Filter(a + b, policy) == Filter(a, policy) + Filter(b, policy)
  {
    hide Policy.Visible;
    if a == [] {
      assert a + b == b;
    } else {
      assert (a + b)[1..] == a[1..] + b;
      FilterSplits(a[1..], b, policy);
    }
  }

  /** Whatever cursor a client makes up, a page that is served holds only visible tools. */
  lemma PagesShowOnlyVisible(H: HashFn, c: Config, id: Json, params: Json, tool: Json)
    requires ListReply(H, c, id, params).1.ResultReply? && ListReply(H, c, id, params).1.result.ToolPage?
    requires tool in ListReply(H, c, id, params).1.result.tools
    ensures exists t :: t in c.tools && t.raw == tool && c.policy.Visible(t.name)
  {
    hide Paginator.PageFor, SnapshotOf, Policy.Visible;
    var p := Pager(H, c);
    PageInside(H, p, AsOption(CursorOf(params)));
    var vs := VisibleTools(c);
    assert tool in Raws(vs);
    var i :| 0 <= i < |vs| && Raws(vs)[i] == tool;
    FilterMembers(c.tools, c.policy, vs[i]);
    assert vs[i] in c.tools;
  }

  /** A probed tool is visible exactly when calling it runs the guest, and hidden exactly when
      toolcage refuses the call by policy. */
  lemma VisibleIffCallable(H: HashFn, c: Config, st: State, id: Json, params: Json, t: ToolDef)
    requires st.initialized && t in c.tools && GetStr(params, NAME) == Some(t.name)
    ensures var r := RequestStep(H, c, st, id, METHOD_CALL, params);
      && (t in VisibleTools(c) <==> |r.0.invocations| == |st.invocations| + 1)
      && (t !in VisibleTools(c) <==> r.1 == ErrorReply(id, CODE_POLICY_DENIED, NoData))
  {
    hide Policy.Decide, MountModes, Relay, ListReply, Filter;
    MethodNamesDiffer();
    FilterMembers(c.tools, c.policy, t);
    assert Known(c, t.name);
    var arguments := OrNull(params.Get(ARGUMENTS));
    if c.policy.Decide(t.name).Allow? {
      var inv := Invocation(t.name, arguments, c.policy.Decide(t.name).grant);
      RelayNeverDenies(H, c, id, c.behaviour(st.invocations, inv).outcome);
    }
  }

  lemma RelayNeverDenies(H: HashFn, c: Config, id: Json, o: CallOutcome)
    ensures Relay(H, c, id, o).1 != ErrorReply(id, CODE_POLICY_DENIED, NoData)
  {
  }

  /** What extraction accepts as an answer always has something to relay: the guest's result, or
      else its error, goes out verbatim under the client's id, and the audit trail never has to
      call such an answer invalid. */
  lemma AnswersAreRelayed(H: HashFn, c: Config, id: Json, stdout: Text)
    requires Extract(c.parse, GUEST_CALL_ID, stdout).found.Some?
    ensures var r := Extract(c.parse, GUEST_CALL_ID, stdout).found.value;
      && Relay(H, c, id, Completed(r)).0 != InvalidGuestResponse
      && Relay(H, c, id, Completed(r)).1 ==
           if r.Get(RESULT).Some? then ResultReply(id, GuestResult(r.Get(RESULT).value))
           else GuestErrorReply(id, OrNull(r.Get(ERROR)))
  {
    hide ScanLines;
    ScanMeaning(c.parse, GUEST_CALL_ID, Split(stdout, NEWLINE));
  }

  // ---------------------------------------------------------------------------------------
  // A client that follows the cursors, among other traffic
  // ---------------------------------------------------------------------------------------

  /** A `tools/list` request with the given cursor, or with none. */
  ghost predicate Lists(c: Config, line: Text, cursor: Option<Text>) {
    !c.blank(line) && ParseLine(c.parse, line).Request? && ParseLine(c.parse, line).name == METHOD_LIST
    && CursorOf(ParseLine(c.parse, line).params) == if cursor.Some? then TextCursor(cursor.value) else NoCursor
  }

  function AnswerAt(H: HashFn, c: Config, lines: seq<Text>, i: nat): Option<Reply>
    requires i < |lines|
  {
    Answer(H, c, Run(H, c, INITIAL, lines[..i]), lines[i])
  }

  function PageAt(H: HashFn, c: Config, lines: seq<Text>, i: nat): (page: Option<Payload>)
    requires i < |lines|
    ensures page.Some? ==> page.value.ToolPage?
  {
    var a := AnswerAt(H, c, lines, i);
    if a.Some? && a.value.ResultReply? && a.value.result.ToolPage? then Some(a.value.result) else None
  }

  predicate Rising(at: seq<nat>, n: nat) {
    (forall k :: 0 <= k < |at| ==> at[k] < n) && forall j, k :: 0 <= j < k < |at| ==> at[j] < at[k]
  }

  /** Line j asks for the page after the one line i was answered with. */
  ghost predicate Follows(H: HashFn, c: Config, lines: seq<Text>, i: nat, j: nat)
    requires i < |lines| && j < |lines|
  {
    var before := PageAt(H, c, lines, i);
    before.Some? && before.value.nextCursor.Some? && Lists(c, lines[j], before.value.nextCursor)
  }

  ghost predicate FollowsAt(H: HashFn, c: Config, lines: seq<Text>, at: seq<nat>, k: nat)
    requires Rising(at, |lines|) && 0 < k < |at|
  {
    Follows(H, c, lines, at[k - 1], at[k])
  }

  /** The lines at positions `at` are one walk: the first asks without a cursor, after the session
      is initialized, and every other sends back the cursor of the page before it. Any other
      lines may come in between. */
  ghost predicate FollowsCursors(H: HashFn, c: Config, lines: seq<Text>, at: seq<nat>) {
    && Rising(at, |lines|)
    && (at != [] ==> InitializedBy(c, lines[..at[0]]) && Lists(c, lines[at[0]], None))
    && forall k :: 0 < k < |at| ==> FollowsAt(H, c, lines, at, k)
  }

  /** The tools of the pages of a walk, one after the other. */
  function Gathered(H: HashFn, c: Config, lines: seq<Text>, at: seq<nat>): seq<Json>
    requires Rising(at, |lines|)
  {
    if at == [] then []
    else
      var page := PageAt(H, c, lines, at[|at| - 1]);
      Gathered(H, c, lines, at[..|at| - 1]) + if page.Some? then page.value.tools else []
  }

  lemma InitializedLater(c: Config, lines: seq<Text>, i: nat, j: nat)
    requires i <= j <= |lines| && InitializedBy(c, lines[..i])
    ensures InitializedBy(c, lines[..j])
  {
    var k :| 0 <= k < i && Initializes(c, lines[..i][k]);
    assert lines[..j][k] == lines[..i][k];
  }

  /** The answer to a list request depends on its cursor alone. */
  lemma ListAnswer(H: HashFn, c: Config, lines: seq<Text>, i: nat, cursor: Option<Text>)
    requires i < |lines| && InitializedBy(c, lines[..i]) && Lists(c, lines[i], cursor)
    ensures var r := Pager(H, c).PageFor(H, cursor);
      PageAt(H, c, lines, i) ==
        if r.Ok? then Some(ToolPage(Slice(Raws(VisibleTools(c)), Some(r)), r.value.nextCursor)) else None
  {
    hide Run, ParseLine, Paginator.PageFor, SnapshotOf, CallStep, Filter;
    MethodNamesDiffer();
    InitializedIff(H, c, lines[..i]);
    PageInside(H, Pager(H, c), cursor);
  }

  /** The k-th page of such a walk is the k-th answer of the paginator's own walk. */
  lemma {:induction false} WalkStep(H: HashFn, c: Config, lines: seq<Text>, at: seq<nat>, k: nat)
    requires FollowsCursors(H, c, lines, at) && k < |at|
    ensures var r := Walk(H, Pager(H, c), k);
      LastStart(Pager(H, c)) < U32_LIMIT ==>
      && k < PageCount(Pager(H, c)) && r.Some? && r.value.Ok?
      && PageAt(H, c, lines, at[k]) == Some(ToolPage(Slice(Raws(VisibleTools(c)), r), r.value.value.nextCursor))
  {
    hide PageAt, Pager, Lists, InitializedBy, Paginator.PageFor, Slice, PageCount, LastStart;
    var p := Pager(H, c);
    if LastStart(p) < U32_LIMIT {
      var cursor: Option<Text> := None;
      if k > 0 {
        WalkStep(H, c, lines, at, k - 1);
        assert FollowsAt(H, c, lines, at, k);
        cursor := PageAt(H, c, lines, at[k - 1]).value.nextCursor;
      }
      InitializedLater(c, lines, at[0], at[k]);
      ListAnswer(H, c, lines, at[k], cursor);
      WalkTiles(H, p, seq(p.total, _ => 0));
    }
  }

  lemma ShorterWalk(H: HashFn, c: Config, lines: seq<Text>, at: seq<nat>)
    requires FollowsCursors(H, c, lines, at) && at != []
    ensures FollowsCursors(H, c, lines, at[..|at| - 1])
  {
    hide Follows, Lists, InitializedBy;
    var init := at[..|at| - 1];
    assert forall k :: 0 <= k < |init| ==> init[k] == at[k];
    forall k | 0 < k < |init| ensures FollowsAt(H, c, lines, init, k) {
      assert FollowsAt(H, c, lines, at, k);
    }
  }

  lemma {:induction false} GatheredIsServed(H: HashFn, c: Config, lines: seq<Text>, at: seq<nat>)
    requires Rising(at, |lines|)
    ensures FollowsCursors(H, c, lines, at) && LastStart(Pager(H, c)) < U32_LIMIT ==>
      Gathered(H, c, lines, at) == Served(H, Pager(H, c), Raws(VisibleTools(c)), |at|)
  {
    hide PageAt, Pager, Lists, InitializedBy, Slice, Filter;
    PagerTotal(H, c);
    if at != [] && FollowsCursors(H, c, lines, at) && LastStart(Pager(H, c)) < U32_LIMIT {
      var init := at[..|at| - 1];
      ShorterWalk(H, c, lines, at);
      GatheredIsServed(H, c, lines, init);
      WalkStep(H, c, lines, at, |at| - 1);
    }
  }

  lemma PagerTotal(H: HashFn, c: Config)
    ensures Pager(H, c).total == |Raws(VisibleTools(c))| && Pager(H, c).pageSize == c.pageSize && Pager(H, c).key == c.key
  {
    hide Filter;
  }

  /** End to end: a client that follows the cursors until a page carries none has received, page
      after page, exactly the tools its policy lets it see, in probe order, each once. */
  lemma ClientWalkIsFilteredProbe(H: HashFn, c: Config, lines: seq<Text>, at: seq<nat>)
    requires FollowsCursors(H, c, lines, at) && at != []
    ensures LastStart(Pager(H, c)) < U32_LIMIT ==>
      var last := PageAt(H, c, lines, at[|at| - 1]);
      && last.Some? && |at| <= PageCount(Pager(H, c))
      && (last.value.nextCursor == None <==> |at| == PageCount(Pager(H, c)))
      && (last.value.nextCursor == None ==> Gathered(H, c, lines, at) == Raws(Filter(c.tools, c.policy)))
  {
    hide PageAt, Pager, Filter, Lists, Follows, InitializedBy, PageCount, LastStart, Served, Walk;
    var p, n := Pager(H, c), |at|;
    if LastStart(p) < U32_LIMIT {
      PagerTotal(H, c);
      WalkStep(H, c, lines, at, n - 1);
      GatheredIsServed(H, c, lines, at);
      WalkTiles(H, p, Raws(VisibleTools(c)));
      WalkMore(H, p, n);
    }
  }

  /** An answer follows exactly a page that offers a cursor. */
  lemma WalkMore(H: HashFn, p: Paginator, n: nat)
    requires n > 0
    ensures Walk(H, p, n).Some? <==>
      Walk(H, p, n - 1).Some? && Walk(H, p, n - 1).value.Ok? && Walk(H, p, n - 1).value.value.nextCursor.Some?
  {
  }

  // ---------------------------------------------------------------------------------------
  // What is listed is what can be called
  // ---------------------------------------------------------------------------------------

  /** A probed tool's name is the one its definition carries. */
  predicate NamesFromProbe(c: Config) {
    forall u :: u in c.tools ==> GetStr(u.raw, NAME) == Some(u.name)
  }

  lemma RawsMembers(c: Config, t: ToolDef)
    requires NamesFromProbe(c) && t in c.tools
    ensures t.raw in Raws(VisibleTools(c)) <==> t in VisibleTools(c)
  {
    hide GetStr, Filter;
    var vs := VisibleTools(c);
    if t.raw in Raws(vs) {
      var i :| 0 <= i < |vs| && Raws(vs)[i] == t.raw;
      FilterMembers(c.tools, c.policy, vs[i]);
      assert vs[i] == t;
    }
    assert forall i :: 0 <= i < |vs| && vs[i] == t ==> Raws(vs)[i] == t.raw;
  }

  /** Whether page k of the client's list carries this definition. */
  predicate OnPage(H: HashFn, c: Config, k: nat, tool: Json) {
    tool in Slice(Raws(VisibleTools(c)), Walk(H, Pager(H, c), k))
  }

  lemma {:induction false} ServedMembers(H: HashFn, c: Config, n: nat, tool: Json)
    ensures Pager(H, c).total == |Raws(VisibleTools(c))|
    ensures tool in Served(H, Pager(H, c), Raws(VisibleTools(c)), n) <==> exists k: nat :: k < n && OnPage(H, c, k, tool)
  {
    hide Walk, Pager, Slice, Filter;
    PagerTotal(H, c);
    if n > 0 {
      ServedMembers(H, c, n - 1, tool);
      assert OnPage(H, c, n - 1, tool) <==> tool in Slice(Raws(VisibleTools(c)), Walk(H, Pager(H, c), n - 1));
    }
  }

  /** A probed tool is on one of the pages of the list exactly when the policy shows it. */
  lemma OnPageIffVisible(H: HashFn, c: Config, t: ToolDef)
    requires NamesFromProbe(c) && t in c.tools
    ensures LastStart(Pager(H, c)) < U32_LIMIT ==>
      ((exists k: nat :: k < PageCount(Pager(H, c)) && OnPage(H, c, k, t.raw)) <==> t in VisibleTools(c))
  {
    hide OnPage, Pager, Served, PageCount, LastStart, Walk, GetStr, Filter;
    PagerTotal(H, c);
    ServedMembers(H, c, PageCount(Pager(H, c)), t.raw);
    if LastStart(Pager(H, c)) < U32_LIMIT {
      WalkTiles(H, Pager(H, c), Raws(VisibleTools(c)));
    }
    RawsMembers(c, t);
  }

  /** What is listed is what can be called: a probed tool is on one of the pages exactly when a
      call of it runs the guest, and on none exactly when the call is refused by policy. */
  lemma ListedIffCallable(H: HashFn, c: Config, st: State, id: Json, params: Json, t: ToolDef)
    requires NamesFromProbe(c) && t in c.tools && st.initialized && GetStr(params, NAME) == Some(t.name)
    ensures var r := RequestStep(H, c, st, id, METHOD_CALL, params);
      var listed := exists k: nat :: k < PageCount(Pager(H, c)) && OnPage(H, c, k, t.raw);
      LastStart(Pager(H, c)) < U32_LIMIT ==>
      && (listed <==> |r.0.invocations| == |st.invocations| + 1)
      && (!listed <==> r.1 == ErrorReply(id, CODE_POLICY_DENIED, NoData))
  {
    hide OnPage, Pager, PageCount, LastStart, GetStr, Filter, RequestStep, NamesFromProbe;
    OnPageIffVisible(H, c, t);
    VisibleIffCallable(H, c, st, id, params, t);
  }

  /** A walk whose last page offers no cursor. */
  ghost predicate FinishedWalk(H: HashFn, c: Config, lines: seq<Text>, at: seq<nat>) {
    && FollowsCursors(H, c, lines, at) && at != []
    && var page := PageAt(H, c, lines, at[|at| - 1]);
       page.Some? && page.value.nextCursor == None
  }

  /** The same for a client that has followed the cursors to the end, among other traffic. */
  lemma GatheredIffCallable(H: HashFn, c: Config, lines: seq<Text>, at: seq<nat>, id: Json, params: Json, t: ToolDef)
    requires NamesFromProbe(c) && t in c.tools && GetStr(params, NAME) == Some(t.name) && Rising(at, |lines|)
    ensures var st := Run(H, c, INITIAL, lines);
      var r := RequestStep(H, c, st, id, METHOD_CALL, params);
      FinishedWalk(H, c, lines, at) && LastStart(Pager(H, c)) < U32_LIMIT ==>
      && (t.raw in Gathered(H, c, lines, at) <==> |r.0.invocations| == |st.invocations| + 1)
      && (t.raw !in Gathered(H, c, lines, at) <==> r.1 == ErrorReply(id, CODE_POLICY_DENIED, NoData))
  {
    hide Pager, PageCount, LastStart, GetStr, Filter, RequestStep, NamesFromProbe;
    hide PageAt, Gathered, Run, InitializedBy, Lists, Follows;
    if FinishedWalk(H, c, lines, at) && LastStart(Pager(H, c)) < U32_LIMIT {
      ClientWalkIsFilteredProbe(H, c, lines, at);
      RawsMembers(c, t);
      InitializedLater(c, lines, at[0], |lines|);
      assert lines[..|lines|] == lines;
      InitializedIff(H, c, lines);
      VisibleIffCallable(H, c, Run(H, c, INITIAL, lines), id, params, t);
    }
  }

  // ---------------------------------------------------------------------------------------
  // The whole program
  // ---------------------------------------------------------------------------------------

  /** The policy a session runs under: an accepted file, or the vacuum. */
  ghost predicate FromFile(policy: Policy) {
    policy == PERMISSIVE_VACUUM
    || exists raw: RawPolicy, baseDir: Text :: BuildPolicy(raw, baseDir) == Ok(policy)
  }

  /** Every guest execution of every run is under a well-formed grant. */
  lemma ExecutionsAreContained(H: HashFn, c: Config, lines: seq<Text>, i: nat)
    requires FromFile(c.policy) && i < |Run(H, c, INITIAL, lines).invocations|
    ensures WellFormed(Run(H, c, INITIAL, lines).invocations[i].grant)
  {
    hide Run, WellFormed, BuildPolicy, Known, Truthful, CallEvents, AllowedRecords, Records, Policy.Decide;
    RunKeepsInvariant(H, c, lines);
    var inv := Run(H, c, INITIAL, lines).invocations[i];
    assert Permitted(c, inv);
    if c.policy == PERMISSIVE_VACUUM {
      VacuumWellFormed(inv.tool);
    } else {
      var raw: RawPolicy, baseDir: Text :| BuildPolicy(raw, baseDir) == Ok(c.policy);
      EveryGrantWellFormed(raw, baseDir, inv.tool);
    }
  }

  /** The loop of `toolcage run`: every input line through the session, then the closing event. */
  method Serve(session: ClientSession, out: Output, lines: seq<Text>)
    requires session.Now(out.replies) == INITIAL
    modifies session, session.audit, session.runner, out
    ensures var end := Run(Fips180.Hash, session.Settings(), INITIAL, lines);
      && session.audit.events == end.log + [SessionEnd(CallEvents(end.log))]
      && session.runner.invocations == end.invocations
      && ReplyIds(out.replies) == ExpectedIds(session.Settings(), lines)
  {
    hide Step, Permitted, Truthful, AllowedRecords, Records, CallEvents, ExpectedIds, ReplyIds, Fips180.Hash;
    ghost var c := session.Settings();
    for i := 0 to |lines|
      invariant session.Now(out.replies) == Run(Fips180.Hash, c, INITIAL, lines[..i])
    {
      session.HandleLine(lines[i], out);
      assert lines[..i + 1][..i] == lines[..i];
    }
    assert lines[..|lines|] == lines;
    RunKeepsInvariant(Fips180.Hash, c, lines);
    RepliesMatchInput(Fips180.Hash, c, lines);
    session.Finish();
  }
}
