/** What the audit trail depends on, exactly: when two runs leave the same trail, judged by what the
    guests answered and not by what the session makes of it. */
module AuditPrivacy {
  import opened Wrappers
  import opened Bytes
  import opened Json
  import opened Rpc
  import opened ToolPolicy
  import opened Paginate
  import opened Runner
  import opened Audit
  import opened Hmac
  import opened Session
  import opened SessionProperties

  /** Arguments with the same length and hash once written out. */
  predicate SameSize(H: HashFn, c: Config, a: Json, b: Json) {
    |c.write(a)| == |c.write(b)| && H(c.write(a)) == H(c.write(b))
  }

  function Arguments(params: Json): Json {
    OrNull(params.Get(ARGUMENTS))
  }

  /** Two input lines that say the same apart from the arguments of a call. */
  ghost predicate SameLine(c: Config, k: Text, l: Text) {
    && c.blank(k) == c.blank(l)
    && (!c.blank(k) ==>
          var m, n := ParseLine(c.parse, k), ParseLine(c.parse, l);
          m == n || (m.Request? && n.Request? && m.id == n.id && m.name == METHOD_CALL == n.name
                     && GetStr(m.params, NAME) == GetStr(n.params, NAME)))
  }

  ghost predicate SameLines(c: Config, ks: seq<Text>, ls: seq<Text>) {
    |ks| == |ls| && forall i :: 0 <= i < |ks| ==> SameLine(c, ks[i], ls[i])
  }

  /** The line after these ones is a call of some tool in an initialized session. */
  predicate CallsAfter(c: Config, before: seq<Text>, line: Text) {
    && InitializedBy(c, before) && !c.blank(line)
    && var m := ParseLine(c.parse, line);
       m.Request? && m.name == METHOD_CALL && GetStr(m.params, NAME).Some?
  }

  /** The calls, denied ones included, have arguments of the same length and hash. */
  predicate SameArguments(H: HashFn, c: Config, ks: seq<Text>, ls: seq<Text>)
    requires |ks| == |ls|
  {
    var n := |ks| - 1;
    ks == []
    || (SameArguments(H, c, ks[..n], ls[..n]) && (CallsAfter(c, ks[..n], ks[n]) ==> SameArgumentsAt(H, c, ks[n], ls[n])))
  }

  predicate SameArgumentsAt(H: HashFn, c: Config, k: Text, l: Text) {
    var m, n := ParseLine(c.parse, k), ParseLine(c.parse, l);
    m.Request? && n.Request? ==> SameSize(H, c, Arguments(m.params), Arguments(n.params))
  }

  /** The same tool under the same grant. */
  predicate SameTool(inv: Invocation, inw: Invocation) {
    inv.tool == inw.tool && inv.grant == inw.grant
  }

  /** And with arguments of the same length and hash. */
  predicate SameInvocation(H: HashFn, c: Config, inv: Invocation, inw: Invocation) {
    SameTool(inv, inw) && SameSize(H, c, inv.arguments, inw.arguments)
  }

  ghost predicate SameTools(h: seq<Invocation>, i: seq<Invocation>) {
    |h| == |i| && forall k :: 0 <= k < |h| ==> SameTool(h[k], i[k])
  }

  ghost predicate SameHistory(H: HashFn, c: Config, h: seq<Invocation>, i: seq<Invocation>) {
    |h| == |i| && forall k :: 0 <= k < |h| ==> SameInvocation(H, c, h[k], i[k])
  }

  // ---------------------------------------------------------------------------------------
  // What two answers have in common
  // ---------------------------------------------------------------------------------------

  /** A field of a guest's answer, by its length, its hash and the error flag in it. */
  predicate SameResult(H: HashFn, c: Config, a: Json, b: Json) {
    SameSize(H, c, a, b) && ErrorFlag(a) == ErrorFlag(b)
  }

  predicate ErrorFlag(result: Json) {
    result.Get(IS_ERROR) == Some(Bool(true))
  }

  predicate SameCode(a: Json, b: Json) {
    match (a.Get(CODE), b.Get(CODE))
    case (Some(x), Some(y)) => x == y
    case (Some(x), None) => x == Null
    case (None, Some(y)) => y == Null
    case (None, None) => true
  }

  /** Two guest messages of one kind: results of the same length, hash and error flag, or errors
      with the same `code`, or neither. */
  predicate SameResponse(H: HashFn, c: Config, r: Json, s: Json) {
    match (r.Get(RESULT), s.Get(RESULT))
    case (Some(a), Some(b)) => SameResult(H, c, a, b)
    case (Some(_), None) => false
    case (None, Some(_)) => false
    case (None, None) =>
      match (r.Get(ERROR), s.Get(ERROR))
      case (Some(a), Some(b)) => SameCode(a, b)
      case (Some(_), None) => false
      case (None, Some(_)) => false
      case (None, None) => true
  }

  /** Two guest runs that compare equal: the same statistics, and answers that agree in kind and
      figures, or failures of the same class. */
  predicate SameFigures(H: HashFn, c: Config, r: CallResult, s: CallResult) {
    && r.stats == s.stats
    && match (r.outcome, s.outcome)
       case (Completed(a), Completed(b)) => SameResponse(H, c, a, b)
       case (Failed(f, _), Failed(g, _)) => f == g
       case (Completed(_), Failed(_, _)) => false
       case (Failed(_, _), Completed(_)) => false
  }

  /** What is logged of two answers is equal exactly when their figures are. */
  lemma LoggedIffSameFigures(H: HashFn, c: Config, d: Config, id: Json, r: CallResult, s: CallResult)
    requires SameSettings(c, d)
    ensures SameFigures(H, c, r, s) <==>
      r.stats == s.stats && Relay(H, c, id, r.outcome).0 == Relay(H, d, id, s.outcome).0
  {
    hide SameSize;
    if r.outcome.Completed? && s.outcome.Completed? {
      var a, b := r.outcome.response, s.outcome.response;
      if a.Get(RESULT).Some? && b.Get(RESULT).Some? {
        SizeIs(H, c, a.Get(RESULT).value, b.Get(RESULT).value);
      }
    }
  }

  lemma SizeIs(H: HashFn, c: Config, a: Json, b: Json)
    ensures SameSize(H, c, a, b) <==> |c.write(a)| == |c.write(b)| && H(c.write(a)) == H(c.write(b))
  {
  }

  // ---------------------------------------------------------------------------------------
  // Two runs side by side
  // ---------------------------------------------------------------------------------------

  /** The same session with another guest behind it. */
  ghost predicate SameSettings(c: Config, d: Config) {
    d == c.(behaviour := d.behaviour)
  }

  /** What guest c answered to the k-th of the executions h, given those before it. */
  function AnswerTo(c: Config, h: seq<Invocation>, k: nat): CallResult
    requires k < |h|
  {
    c.behaviour(h[..k], h[k])
  }

  /** Execution by execution the two guests gave answers with the same figures. */
  ghost predicate SameAnswers(H: HashFn, c: Config, d: Config, h: seq<Invocation>, i: seq<Invocation>) {
    |h| == |i| && forall k :: 0 <= k < |h| ==> SameFigures(H, c, AnswerTo(c, h, k), AnswerTo(d, i, k))
  }

  /** Two states reached by input that says the same apart from arguments, which agreed in length
      and hash so far or did not: everything agrees but the trail and the arguments, and the trail
      agrees exactly when the arguments did and all answers did. */
  ghost predicate InStep(H: HashFn, c: Config, d: Config, s: State, t: State, same: bool) {
    && s.initialized == t.initialized && s.calls == t.calls && |s.log| == |t.log|
    && SameTools(s.invocations, t.invocations)
    && (same ==> SameHistory(H, c, s.invocations, t.invocations))
    && (s.log == t.log <==> same && SameAnswers(H, c, d, s.invocations, t.invocations))
  }

  lemma OneMoreEvent(a: seq<Event>, b: seq<Event>, e: Event, f: Event)
    requires |a| == |b|
    ensures a + [e] == b + [f] <==> a == b && e == f
  {
    if a + [e] == b + [f] {
      assert a == (a + [e])[..|a|] == (b + [f])[..|b|] == b;
      assert e == (a + [e])[|a|] == (b + [f])[|b|] == f;
    }
  }

  lemma OneMoreAnswer(
    H: HashFn, c: Config, d: Config, h: seq<Invocation>, i: seq<Invocation>, inv: Invocation, inw: Invocation)
    requires |h| == |i|
    ensures SameAnswers(H, c, d, h + [inv], i + [inw]) <==>
      SameAnswers(H, c, d, h, i) && SameFigures(H, c, c.behaviour(h, inv), d.behaviour(i, inw))
  {
    hide SameFigures;
    var g, j := h + [inv], i + [inw];
    assert g[..|h|] == h && j[..|i|] == i;
    forall k | 0 <= k < |h| ensures AnswerTo(c, g, k) == AnswerTo(c, h, k) && AnswerTo(d, j, k) == AnswerTo(d, i, k) {
      assert g[..k] == h[..k] && j[..k] == i[..k];
    }
    if SameAnswers(H, c, d, g, j) {
      assert SameFigures(H, c, AnswerTo(c, g, |h|), AnswerTo(d, j, |i|));
      forall k | 0 <= k < |h| ensures SameFigures(H, c, AnswerTo(c, h, k), AnswerTo(d, i, k)) {
        assert SameFigures(H, c, AnswerTo(c, g, k), AnswerTo(d, j, k));
      }
    }
  }

  /** The event of an executed call. */
  function ExecutedEvent(H: HashFn, c: Config, inv: Invocation, r: CallResult): Event {
    Call(inv.tool, Allowed, |c.write(inv.arguments)|, H(c.write(inv.arguments)),
         Some(CallDetail(r.stats, inv.grant.limits.timeoutMs, MountModes(inv.grant), Relay(H, c, Null, r.outcome).0)))
  }

  lemma RelayIgnoresId(H: HashFn, c: Config, id: Json, o: CallOutcome)
    ensures Relay(H, c, id, o).0 == Relay(H, c, Null, o).0
  {
  }

  /** A call that is executed adds one execution and its event. */
  lemma ExecutedCall(H: HashFn, c: Config, s: State, id: Json, p: Json)
    requires GetStr(p, NAME).Some? && Known(c, GetStr(p, NAME).value) && c.policy.Decide(GetStr(p, NAME).value).Allow?
    ensures var name := GetStr(p, NAME).value;
      var inv := Invocation(name, OrNull(p.Get(ARGUMENTS)), c.policy.Decide(name).grant);
      CallStep(H, c, s, id, p).0 == s.(calls := s.calls + 1, invocations := s.invocations + [inv],
        log := s.log + [ExecutedEvent(H, c, inv, c.behaviour(s.invocations, inv))])
  {
    hide Policy.Decide, MountModes, Relay, GetStr, OrNull, Known;
    var name := GetStr(p, NAME).value;
    var inv := Invocation(name, OrNull(p.Get(ARGUMENTS)), c.policy.Decide(name).grant);
    RelayIgnoresId(H, c, id, c.behaviour(s.invocations, inv).outcome);
  }

  lemma EventsIffFigures(H: HashFn, c: Config, d: Config, inv: Invocation, inw: Invocation, r: CallResult, s: CallResult)
    requires SameSettings(c, d) && SameTool(inv, inw)
    ensures ExecutedEvent(H, c, inv, r) == ExecutedEvent(H, d, inw, s) <==>
      SameSize(H, c, inv.arguments, inw.arguments) && SameFigures(H, c, r, s)
  {
    hide MountModes, Relay, SameFigures;
    LoggedIffSameFigures(H, c, d, Null, r, s);
  }

  lemma CallsInStep(H: HashFn, c: Config, d: Config, s: State, t: State, same: bool, id: Json, p: Json, q: Json)
    requires SameSettings(c, d) && InStep(H, c, d, s, t, same) && GetStr(p, NAME) == GetStr(q, NAME)
    ensures InStep(H, c, d, CallStep(H, c, s, id, p).0, CallStep(H, d, t, id, q).0,
      same && (GetStr(p, NAME).Some? ==> SameSize(H, c, Arguments(p), Arguments(q))))
  {
    hide Policy.Decide, GetStr, OrNull, SameAnswers, SameFigures, ExecutedEvent, SameSize;
    var name := GetStr(p, NAME);
    if name.Some? && Known(c, name.value) && c.policy.Decide(name.value).Allow? {
      var g := c.policy.Decide(name.value).grant;
      var inv := Invocation(name.value, Arguments(p), g);
      var inw := Invocation(name.value, Arguments(q), g);
      var r, u := c.behaviour(s.invocations, inv), d.behaviour(t.invocations, inw);
      hide CallStep;
      ExecutedCall(H, c, s, id, p);
      ExecutedCall(H, d, t, id, q);
      OneMoreEvent(s.log, t.log, ExecutedEvent(H, c, inv, r), ExecutedEvent(H, d, inw, u));
      OneMoreAnswer(H, c, d, s.invocations, t.invocations, inv, inw);
      EventsIffFigures(H, c, d, inv, inw, r, u);
    } else {
      RefusedInStep(H, c, d, s, t, same, id, p, q);
    }
  }

  lemma RefusedInStep(H: HashFn, c: Config, d: Config, s: State, t: State, same: bool, id: Json, p: Json, q: Json)
    requires SameSettings(c, d) && InStep(H, c, d, s, t, same) && GetStr(p, NAME) == GetStr(q, NAME)
    requires var name := GetStr(p, NAME); name == None || !Known(c, name.value) || c.policy.Decide(name.value).Deny?
    ensures InStep(H, c, d, CallStep(H, c, s, id, p).0, CallStep(H, d, t, id, q).0,
      same && (GetStr(p, NAME).Some? ==> SameSize(H, c, Arguments(p), Arguments(q))))
  {
    hide Policy.Decide, GetStr, OrNull, SameAnswers, SameHistory, SameTools;
    var a, b := CallStep(H, c, s, id, p).0, CallStep(H, d, t, id, q).0;
    if GetStr(p, NAME).Some? {
      var e, f := a.log[|s.log|], b.log[|t.log|];
      assert a.log == s.log + [e] && b.log == t.log + [f];
      OneMoreEvent(s.log, t.log, e, f);
      assert e == f <==> SameSize(H, c, Arguments(p), Arguments(q));
    }
  }

  /** Whether a request is a call that is logged with its arguments. */
  predicate LogsArguments(s: State, name: Text, params: Json) {
    s.initialized && name == METHOD_CALL && GetStr(params, NAME).Some?
  }

  lemma RequestsInStep(
    H: HashFn, c: Config, d: Config, s: State, t: State, same: bool, id: Json, name: Text, p: Json, q: Json)
    requires SameSettings(c, d) && InStep(H, c, d, s, t, same)
    requires p == q || (name == METHOD_CALL && GetStr(p, NAME) == GetStr(q, NAME))
    ensures InStep(H, c, d, RequestStep(H, c, s, id, name, p).0, RequestStep(H, d, t, id, name, q).0,
      same && (LogsArguments(s, name, p) ==> SameSize(H, c, Arguments(p), Arguments(q))))
  {
    hide CallStep, Negotiate, Paginator.PageFor, Filter, SameAnswers, SameHistory, SameTools, GetStr, Arguments;
    MethodNamesDiffer();
    if name == METHOD_CALL && s.initialized {
      CallsInStep(H, c, d, s, t, same, id, p, q);
    } else if name == METHOD_INITIALIZE {
      var requested := GetStr(p, PROTOCOL_VERSION);
      var e := ClientInitialize(Negotiate(requested), requested);
      OneMoreEvent(s.log, t.log, e, e);
    } else if name == METHOD_LIST && s.initialized {
      var e := ListReply(H, c, id, p).0;
      OneMoreEvent(s.log, t.log, e, e);
    }
  }

  lemma StepsInStep(
    H: HashFn, c: Config, d: Config, s: State, t: State, same: bool, before: seq<Text>, k: Text, l: Text)
    requires SameSettings(c, d) && InStep(H, c, d, s, t, same)
    requires SameLine(c, k, l) && (s.initialized <==> InitializedBy(c, before))
    ensures InStep(H, c, d, Step(H, c, s, k), Step(H, d, t, l),
      same && (CallsAfter(c, before, k) ==> SameArgumentsAt(H, c, k, l)))
  {
    hide RequestStep, SameAnswers, SameHistory, SameTools, ParseLine, InitializedBy, GetStr, SameSize, Arguments;
    if !c.blank(k) {
      var m, n := ParseLine(c.parse, k), ParseLine(c.parse, l);
      if m.Request? {
        RequestsInStep(H, c, d, s, t, same, m.id, m.name, m.params, n.params);
      }
    }
  }

  lemma {:induction false} RunsInStep(H: HashFn, c: Config, d: Config, ks: seq<Text>, ls: seq<Text>)
    requires SameSettings(c, d) && SameLines(c, ks, ls)
    ensures InStep(H, c, d, Run(H, c, INITIAL, ks), Run(H, d, INITIAL, ls), SameArguments(H, c, ks, ls))
  {
    hide SameFigures, SameLine, Step, SameArgumentsAt, CallsAfter, InitializedBy;
    if ks != [] {
      var n := |ks| - 1;
      RunsInStep(H, c, d, ks[..n], ls[..n]);
      InitializedIff(H, c, ks[..n]);
      hide InStep;
      StepsInStep(H, c, d, Run(H, c, INITIAL, ks[..n]), Run(H, d, INITIAL, ls[..n]),
        SameArguments(H, c, ks[..n], ls[..n]), ks[..n], ks[n], ls[n]);
    }
  }

  // ---------------------------------------------------------------------------------------
  // Whole runs
  // ---------------------------------------------------------------------------------------

  /** The exact dependence: on input that says the same apart from the arguments of calls, two
      guests leave the same trail if and only if those arguments agree in length and hash, and the
      answers to every executed call agree in statistics, kind, length, hash, error flag, failure
      class and, for errors, `code`. */
  lemma TrailsAgreeIff(H: HashFn, c: Config, d: Config, ks: seq<Text>, ls: seq<Text>)
    requires SameSettings(c, d) && SameLines(c, ks, ls)
    ensures var s, t := Run(H, c, INITIAL, ks), Run(H, d, INITIAL, ls);
      && SameTools(s.invocations, t.invocations)
      && (SameArguments(H, c, ks, ls) ==> SameHistory(H, c, s.invocations, t.invocations))
      && (s.log == t.log <==> SameArguments(H, c, ks, ls) && SameAnswers(H, c, d, s.invocations, t.invocations))
  {
    hide SameLines, Run, SameArguments;
    RunsInStep(H, c, d, ks, ls);
  }

  lemma {:induction false} SameInput(H: HashFn, c: Config, lines: seq<Text>)
    ensures SameLines(c, lines, lines) && SameArguments(H, c, lines, lines)
  {
    hide ParseLine, GetStr, Arguments;
    if lines != [] {
      SameInput(H, c, lines[..|lines| - 1]);
    }
  }

  /** On the very same input the executions are the same too, and the answers alone decide. */
  lemma AnswersDecideTrail(H: HashFn, c: Config, d: Config, lines: seq<Text>)
    requires SameSettings(c, d)
    ensures Run(H, c, INITIAL, lines).log == Run(H, d, INITIAL, lines).log <==>
      SameAnswers(H, c, d, Run(H, c, INITIAL, lines).invocations, Run(H, d, INITIAL, lines).invocations)
  {
    hide SameLines, SameArguments, Run, SameAnswers;
    SameInput(H, c, lines);
    TrailsAgreeIff(H, c, d, lines, lines);
  }

  /** Two guests that give answers with the same figures whenever they are asked the same up to
      the content of arguments. */
  ghost predicate Indistinguishable(H: HashFn, c: Config, d: Config) {
    forall h: seq<Invocation>, i: seq<Invocation>, inv: Invocation, inw: Invocation ::
      SameHistory(H, c, h, i) && SameInvocation(H, c, inv, inw) ==>
        SameFigures(H, c, c.behaviour(h, inv), d.behaviour(i, inw))
  }

  /** So what is in arguments and results beyond those figures never reaches the trail. */
  lemma TrailHidesContent(H: HashFn, c: Config, d: Config, ks: seq<Text>, ls: seq<Text>)
    requires SameSettings(c, d) && Indistinguishable(H, c, d)
    requires SameLines(c, ks, ls) && SameArguments(H, c, ks, ls)
    ensures Run(H, c, INITIAL, ks).log == Run(H, d, INITIAL, ls).log
  {
    hide SameLines, SameArguments, Run, SameFigures, SameInvocation;
    TrailsAgreeIff(H, c, d, ks, ls);
    var h, i := Run(H, c, INITIAL, ks).invocations, Run(H, d, INITIAL, ls).invocations;
    forall k | 0 <= k < |h| ensures SameFigures(H, c, AnswerTo(c, h, k), AnswerTo(d, i, k)) {
      assert SameHistory(H, c, h[..k], i[..k]);
    }
  }

  // ---------------------------------------------------------------------------------------
  // The error code
  // ---------------------------------------------------------------------------------------

  /** A guest that answers every call with an error whose `code` is v. */
  function ErrorGuest(v: Json, stats: CallStats): Behaviour {
    (h: seq<Invocation>, inv: Invocation) => CallResult(Completed(Obj(map[ERROR := Obj(map[CODE := v])])), stats)
  }

  /** Any JSON value at all gets into the trail that way: run an initialized session over that
      guest, call a visible tool, and the last event holds the value itself. */
  lemma ErrorCodeIsLogged(H: HashFn, c: Config, lines: seq<Text>, line: Text, v: Json, stats: CallStats)
    requires c.behaviour == ErrorGuest(v, stats) && InitializedBy(c, lines) && !c.blank(line)
    requires var m := ParseLine(c.parse, line);
      m.Request? && m.name == METHOD_CALL && GetStr(m.params, NAME).Some?
      && Known(c, GetStr(m.params, NAME).value) && c.policy.Visible(GetStr(m.params, NAME).value)
    ensures var log := Run(H, c, INITIAL, lines + [line]).log;
      log != [] && log[|log| - 1].Call? && log[|log| - 1].detail.Some?
      && log[|log| - 1].detail.value.outcome == GuestRpcError(v)
  {
    hide Run, ParseLine, GetStr, OrNull, Known, MountModes;
    var m := ParseLine(c.parse, line);
    var s := Run(H, c, INITIAL, lines);
    InitializedIff(H, c, lines);
    RunSnoc(H, c, lines, line);
    MethodNamesDiffer();
    hide CallStep, Relay, Policy.Decide;
    ExecutedCall(H, c, s, m.id, m.params);
    var name := GetStr(m.params, NAME).value;
    var inv := Invocation(name, OrNull(m.params.Get(ARGUMENTS)), c.policy.Decide(name).grant);
    ErrorGuestRelayed(H, c, v, stats, s.invocations, inv);
  }

  lemma RunSnoc(H: HashFn, c: Config, lines: seq<Text>, line: Text)
    ensures Run(H, c, INITIAL, lines + [line]) == Step(H, c, Run(H, c, INITIAL, lines), line)
  {
    assert (lines + [line])[..|lines|] == lines;
  }

  lemma ErrorGuestRelayed(H: HashFn, c: Config, v: Json, stats: CallStats, h: seq<Invocation>, inv: Invocation)
    requires c.behaviour == ErrorGuest(v, stats)
    ensures Relay(H, c, Null, c.behaviour(h, inv).outcome).0 == GuestRpcError(v)
  {
    assert RESULT != ERROR by { assert |RESULT| != |ERROR|; }
  }

  /** Two such guests are told apart by the trail of every run that executes a call, exactly when
      their codes differ. */
  lemma CodesDecideTrail(H: HashFn, c: Config, d: Config, lines: seq<Text>, v: Json, w: Json, stats: CallStats)
    requires SameSettings(c, d) && c.behaviour == ErrorGuest(v, stats) && d.behaviour == ErrorGuest(w, stats)
    requires Run(H, c, INITIAL, lines).invocations != []
    ensures Run(H, c, INITIAL, lines).log == Run(H, d, INITIAL, lines).log <==> v == w
  {
    hide Run, SameFigures, SameLines, SameArguments;
    SameInput(H, c, lines);
    TrailsAgreeIff(H, c, d, lines, lines);
    var h, i := Run(H, c, INITIAL, lines).invocations, Run(H, d, INITIAL, lines).invocations;
    forall k | 0 <= k < |h| ensures SameFigures(H, c, AnswerTo(c, h, k), AnswerTo(d, i, k)) <==> v == w {
      ErrorGuestFigures(H, c, v, w, stats);
    }
    assert v != w ==> !SameFigures(H, c, AnswerTo(c, h, 0), AnswerTo(d, i, 0));
  }

  lemma ErrorGuestFigures(H: HashFn, c: Config, v: Json, w: Json, stats: CallStats)
    ensures forall h, i, inv, inw ::
      SameFigures(H, c, ErrorGuest(v, stats)(h, inv), ErrorGuest(w, stats)(i, inw)) <==> v == w
  {
    assert RESULT != ERROR by { assert |RESULT| != |ERROR|; }
  }
}
