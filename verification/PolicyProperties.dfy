/** What every policy that is accepted guarantees. */
module PolicyProperties {
  import opened Wrappers
  import opened Bytes
  import opened OrderedMap
  import opened ToolPolicy
  import TextOps

  // ---------------------------------------------------------------------------------------
  // Well-formed grants
  // ---------------------------------------------------------------------------------------

  predicate InRange(l: Limits) {
    && 1 <= l.timeoutMs <= 600_000
    && 1_000 <= l.fuel
    && 1 <= l.memoryMaxMb <= 4_096
    && 1 <= l.outputMaxKb <= 1_048_576
  }

  predicate GoodName(k: Text) {
    k != [] && 61 !in k
  }

  predicate GoodPath(p: Text) {
    p != [] && p[0] == 47 && p != [47] && [46, 46] !in TextOps.Split(p, 47)
  }

  predicate GoodEnv(env: Entries<Text>) {
    Sorted(env) && forall i :: 0 <= i < |env| ==> GoodName(env[i].0)
  }

  predicate GoodMounts(mounts: seq<Mount>) {
    && Sorted(ByPath(mounts))
    && forall i :: 0 <= i < |mounts| ==> GoodPath(mounts[i].guestPath) && mounts[i].hostPath != []
  }

  predicate WellFormed(g: Grant) {
    InRange(g.limits) && GoodEnv(g.env) && GoodMounts(g.mounts)
  }

  lemma LimitsChecked(l: Limits)
    ensures ValidateLimits(l) == None <==> InRange(l)
  {
  }

  lemma {:induction false} EnvChecked(env: Entries<Text>)
    ensures ValidateEnv(env) == None <==> forall i :: 0 <= i < |env| ==> GoodName(env[i].0)
  {
    if env != [] {
      var init := env[..|env| - 1];
      EnvChecked(init);
      assert forall i :: 0 <= i < |init| ==> init[i] == env[i];
    }
  }

  predicate GoodMount(path: Text, raw: RawMount) {
    GoodPath(path) && raw.host != [] && raw.mode in {RO, RW}
  }

  lemma MountChecked(path: Text, raw: RawMount, baseDir: Text)
    ensures BuildMount(path, raw, baseDir).Ok? <==> GoodMount(path, raw)
    ensures BuildMount(path, raw, baseDir).Ok? ==>
      BuildMount(path, raw, baseDir).value.guestPath == path && BuildMount(path, raw, baseDir).value.hostPath != []
  {
  }

  /** What a section's mounts become, entry by entry. */
  lemma {:induction false} MountsChecked(fs: Entries<RawMount>, baseDir: Text)
    ensures var r := BuildMounts(fs, baseDir);
      && (r.Ok? <==> forall i :: 0 <= i < |fs| ==> GoodMount(fs[i].0, fs[i].1))
      && (r.Ok? ==> |r.value| == |fs| && forall i :: 0 <= i < |fs| ==>
            r.value[i].0 == fs[i].0 && BuildMount(fs[i].0, fs[i].1, baseDir) == Ok(r.value[i].1))
  {
    hide BuildMount, GoodMount;
    if fs != [] {
      var init, last := fs[..|fs| - 1], fs[|fs| - 1];
      MountsChecked(init, baseDir);
      MountChecked(last.0, last.1, baseDir);
      assert forall i :: 0 <= i < |init| ==> init[i] == fs[i];
    }
  }

  // ---------------------------------------------------------------------------------------
  // Merging one section
  // ---------------------------------------------------------------------------------------

  /** Map entries filed under the path they mount. */
  predicate Filed(m: Entries<Mount>) {
    forall e :: e in m ==> e.0 == e.1.guestPath && GoodPath(e.0) && e.1.hostPath != []
  }

  lemma {:induction false} InsertAllFiled(m: Entries<Mount>, es: Entries<Mount>)
    requires Filed(m) && Filed(es)
    ensures Filed(InsertAll(m, es))
  {
    if es != [] {
      var init, last := es[..|es| - 1], es[|es| - 1];
      InsertAllFiled(m, init);
      InsertKeys(InsertAll(m, init), last.0, last.1);
    }
  }

  lemma {:induction false} InsertAllNames(m: Entries<Text>, es: Entries<Text>)
    requires forall e :: e in m || e in es ==> GoodName(e.0)
    ensures forall e :: e in InsertAll(m, es) ==> GoodName(e.0)
  {
    hide GoodName;
    if es != [] {
      var init, last := es[..|es| - 1], es[|es| - 1];
      InsertAllNames(m, init);
      InsertKeys(InsertAll(m, init), last.0, last.1);
    }
  }

  lemma FiledByPath(m: Entries<Mount>)
    requires Filed(m)
    ensures ByPath(Values(m)) == m
  {
    forall i | 0 <= i < |m| ensures ByPath(Values(m))[i] == m[i] {
      assert m[i] in m;
    }
  }

  lemma ByPathFiled(mounts: seq<Mount>)
    requires GoodMounts(mounts)
    ensures Filed(ByPath(mounts))
  {
  }

  /** The map build_grant collects its mounts in, before it is flattened again. */
  function MountMap(baseMounts: seq<Mount>, built: Entries<Mount>): Entries<Mount> {
    InsertAll(InsertAll([], ByPath(baseMounts)), built)
  }

  lemma BuiltFiled(raw: RawGrant, baseDir: Text)
    requires BuildMounts(raw.fs, baseDir).Ok?
    ensures Filed(BuildMounts(raw.fs, baseDir).value) && Sorted(BuildMounts(raw.fs, baseDir).value)
  {
    hide BuildMount, GoodPath;
    MountsChecked(raw.fs, baseDir);
    var built := BuildMounts(raw.fs, baseDir).value;
    forall e | e in built ensures e.0 == e.1.guestPath && GoodPath(e.0) && e.1.hostPath != [] {
      var i :| 0 <= i < |built| && built[i] == e;
      MountChecked(raw.fs[i].0, raw.fs[i].1, baseDir);
    }
  }

  lemma MountMapIs(baseMounts: seq<Mount>, raw: RawGrant, baseDir: Text)
    requires GoodMounts(baseMounts) && BuildMounts(raw.fs, baseDir).Ok?
    ensures var m := MountMap(baseMounts, BuildMounts(raw.fs, baseDir).value);
      Sorted(m) && Filed(m) && ByPath(Values(m)) == m
      && m == InsertAll(ByPath(baseMounts), BuildMounts(raw.fs, baseDir).value)
  {
    hide GoodPath;
    var built := BuildMounts(raw.fs, baseDir).value;
    BuiltFiled(raw, baseDir);
    ByPathFiled(baseMounts);
    CollectSorted(ByPath(baseMounts));
    InsertAllSorted(ByPath(baseMounts), built);
    InsertAllFiled(ByPath(baseMounts), built);
    FiledByPath(MountMap(baseMounts, built));
  }

  /** The limits in force under a section, read off the file: its own, else those of the section
      below it, else the built-in ones. */
  function Effective(own: RawGrant, below: RawGrant): Limits {
    Limits(Pick(own.timeoutMs, below.timeoutMs, 30_000), Pick(own.fuel, below.fuel, 2_000_000_000),
           Pick(own.memoryMaxMb, below.memoryMaxMb, 256), Pick(own.outputMaxKb, below.outputMaxKb, 4_096))
  }

  function Pick(own: Option<u64>, below: Option<u64>, builtIn: u64): u64 {
    match (own, below)
    case (Some(v), _) => v
    case (None, Some(v)) => v
    case (None, None) => builtIn
  }

  lemma OverrideIsEffective(own: RawGrant, below: RawGrant)
    ensures Override(DEFAULT_LIMITS, below) == Effective(below, NO_OVERRIDES)
    ensures Override(Override(DEFAULT_LIMITS, below), own) == Effective(own, below)
    ensures Effective(NO_OVERRIDES, below) == Effective(below, NO_OVERRIDES)
  {
  }

  /** A section is accepted exactly when the limits under it and all its own values are legal. */
  predicate SectionLegal(limits: Limits, raw: RawGrant) {
    && InRange(limits)
    && (forall i :: 0 <= i < |raw.env| ==> GoodName(raw.env[i].0))
    && (forall i :: 0 <= i < |raw.fs| ==> GoodMount(raw.fs[i].0, raw.fs[i].1))
  }

  lemma SectionAccepted(base: Limits, baseEnv: Entries<Text>, baseMounts: seq<Mount>, raw: RawGrant, baseDir: Text)
    ensures BuildGrant(base, baseEnv, baseMounts, raw, baseDir).Ok? <==> SectionLegal(Override(base, raw), raw)
  {
    hide GoodMount, GoodName, InRange, ValidateLimits;
    LimitsChecked(Override(base, raw));
    EnvChecked(raw.env);
    MountsChecked(raw.fs, baseDir);
  }

  /** Laying a section over legal ingredients gives a well-formed grant. */
  lemma MergedWellFormed(base: Limits, baseEnv: Entries<Text>, baseMounts: seq<Mount>, raw: RawGrant, baseDir: Text)
    requires GoodEnv(baseEnv) && GoodMounts(baseMounts)
    requires BuildGrant(base, baseEnv, baseMounts, raw, baseDir).Ok?
    ensures WellFormed(BuildGrant(base, baseEnv, baseMounts, raw, baseDir).value)
  {
    hide GoodPath, GoodName, InRange, ValidateLimits, BuildMounts;
    LimitsChecked(Override(base, raw));
    EnvChecked(raw.env);
    InsertAllSorted(baseEnv, raw.env);
    InsertAllNames(baseEnv, raw.env);
    MountMapIs(baseMounts, raw, baseDir);
    var m := MountMap(baseMounts, BuildMounts(raw.fs, baseDir).value);
    forall i | 0 <= i < |m| ensures GoodPath(Values(m)[i].guestPath) && Values(m)[i].hostPath != [] {
      assert m[i] in m;
    }
  }

  // ---------------------------------------------------------------------------------------
  // Whole policies
  // ---------------------------------------------------------------------------------------

  lemma EmptyIngredients()
    ensures GoodEnv([]) && GoodMounts([])
  {
  }

  lemma DefaultsWellFormed(raw: RawPolicy, baseDir: Text)
    requires BuildPolicy(raw, baseDir).Ok?
    ensures WellFormed(BuildPolicy(raw, baseDir).value.defaults)
  {
    hide BuildGrant, BuildRules, WellFormed;
    EmptyIngredients();
    MergedWellFormed(DEFAULT_LIMITS, [], [], raw.defaults, baseDir);
  }

  lemma RuleWellFormed(defaults: Grant, entry: Option<RawTool>, baseDir: Text)
    requires WellFormed(defaults) && BuildRule(defaults, entry, baseDir).Ok?
    requires BuildRule(defaults, entry, baseDir).value.AllowRule?
    ensures WellFormed(BuildRule(defaults, entry, baseDir).value.grant)
  {
    hide BuildGrant, InRange, GoodMounts;
    CollectSorted(defaults.env);
    if entry.Some? && !entry.value.deny {
      MergedWellFormed(defaults.limits, defaults.env, defaults.mounts, entry.value.grants, baseDir);
    }
  }

  /** The rules of an accepted policy, name by name. */
  lemma {:induction false} RulesAre(defaults: Grant, tools: Entries<Option<RawTool>>, baseDir: Text)
    ensures var r := BuildRules(defaults, tools, baseDir);
      && (r.Ok? <==> forall i :: 0 <= i < |tools| ==> tools[i].0 != [] && BuildRule(defaults, tools[i].1, baseDir).Ok?)
      && (r.Ok? ==> |r.value| == |tools| && forall i :: 0 <= i < |tools| ==>
            r.value[i].0 == tools[i].0 && BuildRule(defaults, tools[i].1, baseDir) == Ok(r.value[i].1))
  {
    hide BuildRule;
    if tools != [] {
      var init := tools[..|tools| - 1];
      RulesAre(defaults, init, baseDir);
      assert forall i :: 0 <= i < |init| ==> init[i] == tools[i];
    }
  }

  lemma {:induction false} LookupMapped<A, B>(a: Entries<A>, b: Entries<B>, k: Text) returns (i: int)
    requires |a| == |b| && forall j :: 0 <= j < |a| ==> a[j].0 == b[j].0
    ensures i == -1 ==> Lookup(a, k) == None && Lookup(b, k) == None
    ensures i != -1 ==> 0 <= i < |a| && a[i].0 == k && Lookup(a, k) == Some(a[i].1) && Lookup(b, k) == Some(b[i].1)
  {
    if a == [] {
      i := -1;
    } else if a[0].0 == k {
      i := 0;
    } else {
      i := LookupMapped(a[1..], b[1..], k);
      if i != -1 {
        i := i + 1;
      }
    }
  }

  /** The decision for a tool is the one its own entry says, or the one for unlisted tools. */
  lemma DecideIs(raw: RawPolicy, baseDir: Text, tool: Text)
    requires BuildPolicy(raw, baseDir).Ok?
    ensures var p := BuildPolicy(raw, baseDir).value;
      match Lookup(raw.tools, tool)
      case None => p.Decide(tool) == if raw.unlistedTools == Some(DEFAULTS) then Allow(p.defaults) else Deny(false)
      case Some(entry) =>
        var rule := BuildRule(p.defaults, entry, baseDir);
        rule.Ok? && p.Decide(tool) == if rule.value.DenyRule? then Deny(true) else Allow(rule.value.grant)
  {
    hide BuildGrant, BuildRule;
    var p := BuildPolicy(raw, baseDir).value;
    RulesAre(p.defaults, raw.tools, baseDir);
    var i := LookupMapped(raw.tools, p.tools, tool);
    assert DEFAULTS != DENY by { assert |DEFAULTS| != |DENY|; }
  }

  /** Every grant that can reach the sandbox is well formed. */
  lemma EveryGrantWellFormed(raw: RawPolicy, baseDir: Text, tool: Text)
    requires BuildPolicy(raw, baseDir).Ok? && BuildPolicy(raw, baseDir).value.Decide(tool).Allow?
    ensures WellFormed(BuildPolicy(raw, baseDir).value.Decide(tool).grant)
  {
    hide BuildGrant, BuildRule, BuildRules, WellFormed, BuildPolicy;
    DefaultsWellFormed(raw, baseDir);
    DecideIs(raw, baseDir, tool);
    if Lookup(raw.tools, tool).Some? {
      RuleWellFormed(BuildPolicy(raw, baseDir).value.defaults, Lookup(raw.tools, tool).value, baseDir);
    }
  }

  lemma VacuumWellFormed(tool: Text)
    ensures PERMISSIVE_VACUUM.Decide(tool) == Allow(Grant(Limits(30_000, 2_000_000_000, 256, 4_096), [], []))
    ensures WellFormed(Grant(Limits(30_000, 2_000_000_000, 256, 4_096), [], []))
  {
  }

  // ---------------------------------------------------------------------------------------
  // Acceptance
  // ---------------------------------------------------------------------------------------

  predicate ToolLegal(defaults: RawGrant, name: Text, entry: Option<RawTool>) {
    && name != []
    && (entry.Some? && entry.value.deny ==> entry.value.grants == NO_OVERRIDES)
    && (entry.Some? && !entry.value.deny ==> SectionLegal(Effective(entry.value.grants, defaults), entry.value.grants))
  }

  /** What a policy file must satisfy, each value judged where it takes effect. */
  predicate Legal(raw: RawPolicy) {
    && raw.version == 1
    && raw.unlistedTools in {None, Some(DENY), Some(DEFAULTS)}
    && SectionLegal(Effective(raw.defaults, NO_OVERRIDES), raw.defaults)
    && forall i :: 0 <= i < |raw.tools| ==> ToolLegal(raw.defaults, raw.tools[i].0, raw.tools[i].1)
  }

  lemma RuleAccepted(g: Grant, defaults: RawGrant, name: Text, entry: Option<RawTool>, baseDir: Text)
    requires g.limits == Override(DEFAULT_LIMITS, defaults)
    ensures name != [] && BuildRule(g, entry, baseDir).Ok? <==> ToolLegal(defaults, name, entry)
  {
    hide BuildGrant, SectionLegal, Override, Effective;
    if entry.Some? {
      SectionAccepted(g.limits, InsertAll([], g.env), g.mounts, entry.value.grants, baseDir);
      OverrideIsEffective(entry.value.grants, defaults);
    }
  }

  lemma PolicyAccepted(raw: RawPolicy, baseDir: Text)
    ensures BuildPolicy(raw, baseDir).Ok? <==> Legal(raw)
  {
    hide SectionLegal, BuildRule, BuildRules, ToolLegal, BuildMounts, ValidateEnv, ValidateLimits, Override, Effective;
    SectionAccepted(DEFAULT_LIMITS, [], [], raw.defaults, baseDir);
    OverrideIsEffective(NO_OVERRIDES, raw.defaults);
    var defaults := BuildGrant(DEFAULT_LIMITS, [], [], raw.defaults, baseDir);
    if defaults.Ok? {
      RulesAre(defaults.value, raw.tools, baseDir);
      forall i | 0 <= i < |raw.tools|
        ensures raw.tools[i].0 != [] && BuildRule(defaults.value, raw.tools[i].1, baseDir).Ok?
          <==> ToolLegal(raw.defaults, raw.tools[i].0, raw.tools[i].1)
      {
        RuleAccepted(defaults.value, raw.defaults, raw.tools[i].0, raw.tools[i].1, baseDir);
      }
    }
  }

  // ---------------------------------------------------------------------------------------
  // Which error is reported
  // ---------------------------------------------------------------------------------------

  predicate LimitsBlamed(l: Limits, e: PolicyError) {
    match e
    case TimeoutRange => !(1 <= l.timeoutMs <= 600_000)
    case FuelRange => 1 <= l.timeoutMs <= 600_000 && l.fuel < 1_000
    case MemoryRange => 1 <= l.timeoutMs <= 600_000 && l.fuel >= 1_000 && !(1 <= l.memoryMaxMb <= 4_096)
    case OutputRange =>
      1 <= l.timeoutMs <= 600_000 && l.fuel >= 1_000 && 1 <= l.memoryMaxMb <= 4_096 && !(1 <= l.outputMaxKb <= 1_048_576)
    case _ => false
  }

  predicate NameBlamed(k: Text, e: PolicyError) {
    match e
    case EmptyEnvName => k == []
    case EnvNameWithEquals => 61 in k
    case _ => false
  }

  predicate MountBlamed(path: Text, raw: RawMount, e: PolicyError) {
    match e
    case GuestPathRelative => path == [] || path[0] != 47
    case GuestPathRoot => path == [47]
    case GuestPathDotDot => path != [] && path[0] == 47 && [46, 46] in TextOps.Split(path, 47)
    case HostEmpty => GoodPath(path) && raw.host == []
    case BadMode => GoodPath(path) && raw.host != [] && raw.mode !in {RO, RW}
    case _ => false
  }

  /** What is wrong with a section: its limits, else its first bad name, else its first bad mount. */
  ghost predicate SectionBlamed(limits: Limits, raw: RawGrant, e: PolicyError) {
    if !InRange(limits) then LimitsBlamed(limits, e)
    else if exists i :: 0 <= i < |raw.env| && !GoodName(raw.env[i].0) then
      exists i :: 0 <= i < |raw.env| && NameBlamed(raw.env[i].0, e) && forall j :: 0 <= j < i ==> GoodName(raw.env[j].0)
    else
      exists i :: 0 <= i < |raw.fs| && MountBlamed(raw.fs[i].0, raw.fs[i].1, e)
        && forall j :: 0 <= j < i ==> GoodMount(raw.fs[j].0, raw.fs[j].1)
  }

  ghost predicate ToolBlamed(defaults: RawGrant, name: Text, entry: Option<RawTool>, e: PolicyError) {
    if name == [] then e == EmptyToolName
    else if entry == None then false
    else if entry.value.deny then entry.value.grants != NO_OVERRIDES && e == DenyWithGrants
    else SectionBlamed(Effective(entry.value.grants, defaults), entry.value.grants, e)
  }

  /** What is wrong with a file, in the order it is read: the version, the unlisted mode, the
      defaults section, else the first bad tool. */
  ghost predicate FileBlamed(raw: RawPolicy, e: PolicyError) {
    if raw.version != 1 then e == UnsupportedVersion
    else if raw.unlistedTools !in {None, Some(DENY), Some(DEFAULTS)} then e == BadUnlistedTools
    else
      var limits := Effective(raw.defaults, NO_OVERRIDES);
      if !SectionLegal(limits, raw.defaults) then SectionBlamed(limits, raw.defaults, e)
      else
        exists i :: 0 <= i < |raw.tools| && ToolBlamed(raw.defaults, raw.tools[i].0, raw.tools[i].1, e)
          && forall j :: 0 <= j < i ==> ToolLegal(raw.defaults, raw.tools[j].0, raw.tools[j].1)
  }

  lemma {:induction false} EnvBlame(env: Entries<Text>) returns (i: nat)
    requires ValidateEnv(env).Some?
    ensures i < |env| && NameBlamed(env[i].0, ValidateEnv(env).value) && !GoodName(env[i].0)
    ensures forall j :: 0 <= j < i ==> GoodName(env[j].0)
  {
    i := |env| - 1;
    var init := env[..i];
    EnvChecked(init);
    if ValidateEnv(init).Some? {
      i := EnvBlame(init);
      assert forall j :: 0 <= j <= i ==> init[j] == env[j];
    } else {
      assert forall j :: 0 <= j < |init| ==> init[j] == env[j];
    }
  }

  lemma {:induction false} MountsBlame(fs: Entries<RawMount>, baseDir: Text) returns (i: nat)
    requires BuildMounts(fs, baseDir).Err?
    ensures i < |fs| && MountBlamed(fs[i].0, fs[i].1, BuildMounts(fs, baseDir).error)
    ensures forall j :: 0 <= j < i ==> GoodMount(fs[j].0, fs[j].1)
  {
    hide BuildMount, MountBlamed, GoodMount;
    i := |fs| - 1;
    var init := fs[..i];
    MountsChecked(init, baseDir);
    if BuildMounts(init, baseDir).Err? {
      i := MountsBlame(init, baseDir);
      assert forall j :: 0 <= j <= i ==> init[j] == fs[j];
    } else {
      assert forall j :: 0 <= j < |init| ==> init[j] == fs[j];
      MountBlame(fs[i].0, fs[i].1, baseDir);
    }
  }

  lemma MountBlame(path: Text, raw: RawMount, baseDir: Text)
    ensures BuildMount(path, raw, baseDir).Err? ==> MountBlamed(path, raw, BuildMount(path, raw, baseDir).error)
  {
  }

  lemma LimitsBlame(l: Limits)
    ensures ValidateLimits(l).Some? ==> !InRange(l) && LimitsBlamed(l, ValidateLimits(l).value)
  {
  }

  lemma SectionBlame(base: Limits, baseEnv: Entries<Text>, baseMounts: seq<Mount>, raw: RawGrant, baseDir: Text)
    ensures var g := BuildGrant(base, baseEnv, baseMounts, raw, baseDir);
      g.Err? ==> SectionBlamed(Override(base, raw), raw, g.error)
  {
    hide GoodMount, GoodName, InRange, ValidateLimits, Override, LimitsBlamed, NameBlamed, MountBlamed;
    var l := Override(base, raw);
    LimitsChecked(l);
    LimitsBlame(l);
    EnvChecked(raw.env);
    if ValidateLimits(l) == None {
      if ValidateEnv(raw.env).Some? {
        var i := EnvBlame(raw.env);
      } else if BuildMounts(raw.fs, baseDir).Err? {
        var i := MountsBlame(raw.fs, baseDir);
      }
    }
  }

  lemma RuleBlame(g: Grant, defaults: RawGrant, name: Text, entry: Option<RawTool>, baseDir: Text)
    requires g.limits == Override(DEFAULT_LIMITS, defaults) && name != []
    ensures BuildRule(g, entry, baseDir).Err? ==> ToolBlamed(defaults, name, entry, BuildRule(g, entry, baseDir).error)
  {
    hide BuildGrant, SectionBlamed, Override, Effective;
    if entry.Some? {
      SectionBlame(g.limits, InsertAll([], g.env), g.mounts, entry.value.grants, baseDir);
      OverrideIsEffective(entry.value.grants, defaults);
    }
  }

  lemma {:induction false} RulesBlame(g: Grant, defaults: RawGrant, tools: Entries<Option<RawTool>>, baseDir: Text)
      returns (i: nat)
    requires g.limits == Override(DEFAULT_LIMITS, defaults) && BuildRules(g, tools, baseDir).Err?
    ensures i < |tools| && ToolBlamed(defaults, tools[i].0, tools[i].1, BuildRules(g, tools, baseDir).error)
    ensures forall j :: 0 <= j < i ==> ToolLegal(defaults, tools[j].0, tools[j].1)
  {
    hide BuildRule, ToolLegal, SectionBlamed, Override;
    i := |tools| - 1;
    var init := tools[..i];
    if BuildRules(g, init, baseDir).Err? {
      i := RulesBlame(g, defaults, init, baseDir);
      assert forall j :: 0 <= j <= i ==> init[j] == tools[j];
    } else {
      RulesAre(g, init, baseDir);
      forall j | 0 <= j < i ensures ToolLegal(defaults, tools[j].0, tools[j].1) {
        assert init[j] == tools[j];
        RuleAccepted(g, defaults, tools[j].0, tools[j].1, baseDir);
      }
      if tools[i].0 != [] {
        RuleBlame(g, defaults, tools[i].0, tools[i].1, baseDir);
      }
    }
  }

  /** A rejected file is blamed for what is wrong with it, and for the first such thing. */
  lemma RejectionIsFirst(raw: RawPolicy, baseDir: Text)
    requires BuildPolicy(raw, baseDir).Err?
    ensures FileBlamed(raw, BuildPolicy(raw, baseDir).error)
  {
    hide BuildGrant, BuildRules, SectionLegal, SectionBlamed, ToolBlamed, ToolLegal, Override, Effective;
    SectionAccepted(DEFAULT_LIMITS, [], [], raw.defaults, baseDir);
    SectionBlame(DEFAULT_LIMITS, [], [], raw.defaults, baseDir);
    OverrideIsEffective(NO_OVERRIDES, raw.defaults);
    var g := BuildGrant(DEFAULT_LIMITS, [], [], raw.defaults, baseDir);
    if raw.version == 1 && ParseUnlisted(raw.unlistedTools).Ok? && g.Ok? {
      GrantLimits(DEFAULT_LIMITS, [], [], raw.defaults, baseDir);
      var i := RulesBlame(g.value, raw.defaults, raw.tools, baseDir);
    }
  }

  lemma GrantLimits(base: Limits, baseEnv: Entries<Text>, baseMounts: seq<Mount>, raw: RawGrant, baseDir: Text)
    ensures var g := BuildGrant(base, baseEnv, baseMounts, raw, baseDir); g.Ok? ==> g.value.limits == Override(base, raw)
  {
  }

  // ---------------------------------------------------------------------------------------
  // Which layer each value comes from
  // ---------------------------------------------------------------------------------------

  function MountAt(g: Grant, path: Text): Option<Mount> {
    Lookup(ByPath(g.mounts), path)
  }

  /** The mount a section itself asks for at a path. */
  function OwnMount(raw: RawGrant, path: Text, baseDir: Text): Option<Mount> {
    var own := Lookup(raw.fs, path);
    if own.None? then None
    else
      var built := BuildMount(path, own.value, baseDir);
      if built.Ok? then Some(built.value) else None
  }

  /** g has every value of the section `raw` that is given, and the base's for the rest. */
  ghost predicate LaidOver(
    g: Grant, base: Limits, baseEnv: Entries<Text>, baseMounts: seq<Mount>, raw: RawGrant, baseDir: Text)
  {
    && g.limits == Override(base, raw)
    && (forall k :: Lookup(g.env, k) == if Lookup(raw.env, k).Some? then Lookup(raw.env, k) else Lookup(baseEnv, k))
    && (forall path :: MountAt(g, path) ==
          if Lookup(raw.fs, path).Some? then OwnMount(raw, path, baseDir) else Lookup(ByPath(baseMounts), path))
  }

  lemma BuiltLookup(raw: RawGrant, baseDir: Text, path: Text)
    requires BuildMounts(raw.fs, baseDir).Ok?
    ensures Lookup(BuildMounts(raw.fs, baseDir).value, path) == OwnMount(raw, path, baseDir)
    ensures OwnMount(raw, path, baseDir).Some? <==> Lookup(raw.fs, path).Some?
  {
    hide BuildMount;
    MountsChecked(raw.fs, baseDir);
    var built := BuildMounts(raw.fs, baseDir).value;
    var i := LookupMapped(raw.fs, built, path);
  }

  lemma MergeIsLayered(base: Limits, baseEnv: Entries<Text>, baseMounts: seq<Mount>, raw: RawGrant, baseDir: Text)
    requires GoodEnv(baseEnv) && GoodMounts(baseMounts)
    requires BuildGrant(base, baseEnv, baseMounts, raw, baseDir).Ok?
    ensures LaidOver(BuildGrant(base, baseEnv, baseMounts, raw, baseDir).value, base, baseEnv, baseMounts, raw, baseDir)
  {
    hide BuildMounts, BuildMount, GoodName, GoodPath, ValidateLimits, ValidateEnv;
    var g := BuildGrant(base, baseEnv, baseMounts, raw, baseDir).value;
    forall k ensures Lookup(g.env, k) == if Lookup(raw.env, k).Some? then Lookup(raw.env, k) else Lookup(baseEnv, k) {
      LookupInsertAll(baseEnv, raw.env, k);
    }
    MountMapIs(baseMounts, raw, baseDir);
    BuiltFiled(raw, baseDir);
    var built := BuildMounts(raw.fs, baseDir).value;
    forall path ensures MountAt(g, path) ==
      if Lookup(raw.fs, path).Some? then OwnMount(raw, path, baseDir) else Lookup(ByPath(baseMounts), path)
    {
      LookupInsertAll(ByPath(baseMounts), built, path);
      BuiltLookup(raw, baseDir, path);
    }
  }

  /** The decision for a tool, by what the file says about it. */
  ghost predicate Layered(p: Policy, raw: RawPolicy, baseDir: Text, tool: Text) {
    var entry := Lookup(raw.tools, tool);
    if entry == None then
      p.Decide(tool) == (if raw.unlistedTools == Some(DEFAULTS) then Allow(p.defaults) else Deny(false))
    else if entry.value == None then
      p.Decide(tool) == Allow(p.defaults)
    else if entry.value.value.deny then
      p.Decide(tool) == Deny(true)
    else
      && p.Decide(tool).Allow?
      && LaidOver(p.Decide(tool).grant, p.defaults.limits, p.defaults.env, p.defaults.mounts,
                  entry.value.value.grants, baseDir)
  }

  /** Every value of every grant has its source: the tool's entry, else the defaults section,
      else the built-in limits and nothing. */
  lemma DecideIsLayered(raw: RawPolicy, baseDir: Text, tool: Text)
    requires BuildPolicy(raw, baseDir).Ok?
    ensures LaidOver(BuildPolicy(raw, baseDir).value.defaults, DEFAULT_LIMITS, [], [], raw.defaults, baseDir)
    ensures Layered(BuildPolicy(raw, baseDir).value, raw, baseDir, tool)
  {
    hide BuildGrant, LaidOver, WellFormed, BuildPolicy;
    var p := BuildPolicy(raw, baseDir).value;
    DefaultsLayered(raw, baseDir);
    DefaultsWellFormed(raw, baseDir);
    DecideIs(raw, baseDir, tool);
    var entry := Lookup(raw.tools, tool);
    if entry.Some? && entry.value.Some? && !entry.value.value.deny {
      ToolLayered(p.defaults, entry.value.value, baseDir);
    }
  }

  lemma DefaultsLayered(raw: RawPolicy, baseDir: Text)
    requires BuildPolicy(raw, baseDir).Ok?
    ensures LaidOver(BuildPolicy(raw, baseDir).value.defaults, DEFAULT_LIMITS, [], [], raw.defaults, baseDir)
  {
    hide BuildGrant, BuildRules, LaidOver;
    EmptyIngredients();
    MergeIsLayered(DEFAULT_LIMITS, [], [], raw.defaults, baseDir);
    assert ByPath([]) == [];
  }

  lemma ToolLayered(defaults: Grant, t: RawTool, baseDir: Text)
    requires WellFormed(defaults) && !t.deny && BuildRule(defaults, Some(t), baseDir).Ok?
    ensures var rule := BuildRule(defaults, Some(t), baseDir).value;
      rule.AllowRule? && LaidOver(rule.grant, defaults.limits, defaults.env, defaults.mounts, t.grants, baseDir)
  {
    hide BuildGrant, LaidOver, InRange, GoodMounts;
    CollectSorted(defaults.env);
    MergeIsLayered(defaults.limits, defaults.env, defaults.mounts, t.grants, baseDir);
  }

  function Else<T>(first: Option<T>, second: Option<T>): Option<T> {
    if first.Some? then first else second
  }

  /** A mount is what a raw entry says: "ro" or "rw", and the host path as it stands if it starts
      with a slash, else below the directory of the policy file. */
  predicate MountsAs(m: Mount, raw: RawMount, baseDir: Text) {
    && (m.mode == ReadOnly <==> raw.mode == [114, 111])
    && (m.mode == ReadWrite <==> raw.mode == [114, 119])
    && raw.host != []
    && m.hostPath ==
         if raw.host[0] == 47 then raw.host
         else if baseDir == [] || baseDir[|baseDir| - 1] == 47 then baseDir + raw.host
         else baseDir + [47] + raw.host
  }

  /** g in terms of the file alone: the tool's own section, over the defaults section, over the
      built-in limits and nothing else. */
  ghost predicate ThreeLayers(g: Grant, own: RawGrant, defaults: RawGrant, baseDir: Text) {
    && g.limits == Effective(own, defaults)
    && (forall k, v :: (k, v) in g.env <==> Else(Lookup(own.env, k), Lookup(defaults.env, k)) == Some(v))
    && (forall m :: m in g.mounts ==> Else(Lookup(own.fs, m.guestPath), Lookup(defaults.fs, m.guestPath)).Some?)
    && (forall path ::
          var entry := Else(Lookup(own.fs, path), Lookup(defaults.fs, path));
          entry.Some? ==> exists m :: MountedAt(g, path, m) && MountsAs(m, entry.value, baseDir))
  }

  /** The one mount of g at a path. */
  ghost predicate MountedAt(g: Grant, path: Text, m: Mount) {
    m in g.mounts && m.guestPath == path && forall n :: n in g.mounts && n.guestPath == path ==> n == m
  }

  /** What the file says about a tool: nothing of its own if it is unlisted or has no value. */
  function OwnSection(raw: RawPolicy, tool: Text): RawGrant {
    var entry := Lookup(raw.tools, tool);
    if entry.Some? && entry.value.Some? then entry.value.value.grants else NO_OVERRIDES
  }

  predicate AllowedByFile(raw: RawPolicy, tool: Text) {
    var entry := Lookup(raw.tools, tool);
    if entry == None then raw.unlistedTools == Some(DEFAULTS) else entry.value == None || !entry.value.value.deny
  }

  /** The whole decision read off the file: whether the tool is allowed, why not, and every limit,
      variable and mount it gets. */
  lemma DecideIsThreeLayers(raw: RawPolicy, baseDir: Text, tool: Text)
    requires BuildPolicy(raw, baseDir).Ok?
    ensures var d := BuildPolicy(raw, baseDir).value.Decide(tool);
      && (d.Allow? <==> AllowedByFile(raw, tool))
      && (d.Deny? ==> (d.listed <==> Lookup(raw.tools, tool).Some?))
      && (d.Allow? ==> ThreeLayers(d.grant, OwnSection(raw, tool), raw.defaults, baseDir))
  {
    hide BuildPolicy, LaidOver, ThreeLayers, Policy.Decide, Lookup, WellFormed, Legal, Composed;
    var p := BuildPolicy(raw, baseDir).value;
    DecideIsLayered(raw, baseDir, tool);
    var entry := Lookup(raw.tools, tool);
    if p.Decide(tool).Allow? {
      var g := p.Decide(tool).grant;
      if entry.Some? && entry.value.Some? {
        LayersCompose(g, p.defaults, entry.value.value.grants, raw.defaults, baseDir);
      } else {
        DefaultsAlone(p.defaults, raw.defaults, baseDir);
      }
      PolicyAccepted(raw, baseDir);
      EveryGrantWellFormed(raw, baseDir, tool);
      SectionsLegal(raw, tool);
      ComposedIsThreeLayers(g, OwnSection(raw, tool), raw.defaults, baseDir);
    }
  }

  /** The same through lookups. */
  ghost predicate Composed(g: Grant, own: RawGrant, defaults: RawGrant, baseDir: Text) {
    && g.limits == Override(Override(DEFAULT_LIMITS, defaults), own)
    && (forall k :: Lookup(g.env, k) == Else(Lookup(own.env, k), Lookup(defaults.env, k)))
    && (forall path :: MountAt(g, path) ==
          OwnMount(if Lookup(own.fs, path).Some? then own else defaults, path, baseDir))
  }

  lemma LayersCompose(g: Grant, middle: Grant, own: RawGrant, defaults: RawGrant, baseDir: Text)
    requires LaidOver(middle, DEFAULT_LIMITS, [], [], defaults, baseDir)
    requires LaidOver(g, middle.limits, middle.env, middle.mounts, own, baseDir)
    ensures Composed(g, own, defaults, baseDir)
  {
    hide BuildMount, Override;
    assert ByPath([]) == [];
  }

  lemma DefaultsAlone(g: Grant, defaults: RawGrant, baseDir: Text)
    requires LaidOver(g, DEFAULT_LIMITS, [], [], defaults, baseDir)
    ensures Composed(g, NO_OVERRIDES, defaults, baseDir)
  {
    hide BuildMount;
    assert ByPath([]) == [];
  }

  predicate MountsLegal(raw: RawGrant) {
    forall i :: 0 <= i < |raw.fs| ==> GoodMount(raw.fs[i].0, raw.fs[i].1)
  }

  lemma {:induction false} LookupIn<V>(m: Entries<V>, k: Text) returns (i: int)
    ensures i == -1 ==> Lookup(m, k) == None && forall e :: e in m ==> e.0 != k
    ensures i != -1 ==> 0 <= i < |m| && m[i].0 == k && Lookup(m, k) == Some(m[i].1)
  {
    i := LookupMapped(m, m, k);
    LookupAbsent(m, k);
  }

  lemma SectionsLegal(raw: RawPolicy, tool: Text)
    requires Legal(raw) && AllowedByFile(raw, tool)
    ensures MountsLegal(OwnSection(raw, tool)) && MountsLegal(raw.defaults)
  {
    hide GoodMount, GoodName, InRange, Effective;
    var i := LookupIn(raw.tools, tool);
    if i != -1 {
      assert ToolLegal(raw.defaults, raw.tools[i].0, raw.tools[i].1);
    }
  }

  lemma ComposedIsThreeLayers(g: Grant, own: RawGrant, defaults: RawGrant, baseDir: Text)
    requires Composed(g, own, defaults, baseDir) && WellFormed(g) && MountsLegal(own) && MountsLegal(defaults)
    ensures ThreeLayers(g, own, defaults, baseDir)
  {
    hide GoodName, GoodPath, InRange, Override, Effective, OwnMount, MountsAs, MountsLegal, Lookup;
    OverrideIsEffective(own, defaults);
    forall k, v ensures (k, v) in g.env <==> Lookup(g.env, k) == Some(v) {
      EntryIff(g.env, k, v);
    }
    forall m | m in g.mounts ensures Else(Lookup(own.fs, m.guestPath), Lookup(defaults.fs, m.guestPath)).Some? {
      MountEntryIff(g, m.guestPath, m);
      OwnMountIs(if Lookup(own.fs, m.guestPath).Some? then own else defaults, m.guestPath, baseDir);
    }
    forall path | Else(Lookup(own.fs, path), Lookup(defaults.fs, path)).Some?
      ensures exists m ::
        (MountedAt(g, path, m) && MountsAs(m, Else(Lookup(own.fs, path), Lookup(defaults.fs, path)).value, baseDir))
    {
      OwnMountIs(if Lookup(own.fs, path).Some? then own else defaults, path, baseDir);
      var m := MountAt(g, path).value;
      forall n ensures MountAt(g, path) == Some(n) <==> n in g.mounts && n.guestPath == path {
        MountEntryIff(g, path, n);
      }
      assert MountedAt(g, path, m);
    }
  }

  lemma EntryIff<V>(m: Entries<V>, k: Text, v: V)
    requires Sorted(m)
    ensures (k, v) in m <==> Lookup(m, k) == Some(v)
  {
    hide Lookup;
    var i := LookupIn(m, k);
    if (k, v) in m {
      var j :| 0 <= j < |m| && m[j] == (k, v);
      LookupPresent(m, j);
    }
  }

  lemma MountEntryIff(g: Grant, path: Text, m: Mount)
    requires GoodMounts(g.mounts)
    ensures MountAt(g, path) == Some(m) <==> m in g.mounts && m.guestPath == path
  {
    hide Lookup, GoodPath;
    EntryIff(ByPath(g.mounts), path, m);
    if (path, m) in ByPath(g.mounts) {
      var i :| 0 <= i < |g.mounts| && ByPath(g.mounts)[i] == (path, m);
    }
    if m in g.mounts && m.guestPath == path {
      var i :| 0 <= i < |g.mounts| && g.mounts[i] == m;
      assert ByPath(g.mounts)[i] == (path, m);
    }
  }

  /** The mount of a legal entry, by its raw fields. */
  lemma OwnMountIs(raw: RawGrant, path: Text, baseDir: Text)
    requires MountsLegal(raw)
    ensures OwnMount(raw, path, baseDir).Some? <==> Lookup(raw.fs, path).Some?
    ensures Lookup(raw.fs, path).Some? ==>
      MountsAs(OwnMount(raw, path, baseDir).value, Lookup(raw.fs, path).value, baseDir)
  {
    hide Lookup;
    var i := LookupIn(raw.fs, path);
    if i != -1 {
      assert GoodMount(raw.fs[i].0, raw.fs[i].1);
      MountChecked(path, raw.fs[i].1, baseDir);
    }
  }

  // ---------------------------------------------------------------------------------------
  // A null entry and an empty one
  // ---------------------------------------------------------------------------------------

  const EMPTY_TOOL := RawTool(false, NO_OVERRIDES)

  lemma ValuesOfByPath(mounts: seq<Mount>)
    ensures Values(ByPath(mounts)) == mounts
  {
  }

  /** Taking a well-formed grant apart and rebuilding it with nothing laid over gives it back. */
  lemma RebuildIsIdentity(defaults: Grant, baseDir: Text)
    requires WellFormed(defaults)
    ensures BuildRule(defaults, Some(EMPTY_TOOL), baseDir) == BuildRule(defaults, None, baseDir)
  {
    hide InRange, GoodName, GoodPath, ValidateLimits;
    LimitsChecked(defaults.limits);
    CollectSorted(defaults.env);
    CollectSorted(ByPath(defaults.mounts));
    ValuesOfByPath(defaults.mounts);
    assert Override(defaults.limits, NO_OVERRIDES) == defaults.limits;
  }

  lemma {:induction false} RulesAgree(
    defaults: Grant, a: Entries<Option<RawTool>>, b: Entries<Option<RawTool>>, baseDir: Text)
    requires |a| == |b|
    requires forall i :: 0 <= i < |a| ==> a[i].0 == b[i].0
    requires forall i :: 0 <= i < |a| ==> BuildRule(defaults, a[i].1, baseDir) == BuildRule(defaults, b[i].1, baseDir)
    ensures BuildRules(defaults, a, baseDir) == BuildRules(defaults, b, baseDir)
  {
    hide BuildRule;
    if a != [] {
      RulesAgree(defaults, a[..|a| - 1], b[..|b| - 1], baseDir);
    }
  }

  /** The policy with another entry for the i-th listed tool. */
  function WithEntry(raw: RawPolicy, i: nat, entry: Option<RawTool>): RawPolicy
    requires i < |raw.tools|
  {
    raw.(tools := raw.tools[i := (raw.tools[i].0, entry)])
  }

  /** `tool:` with no value and `tool: {}` mean the same policy. */
  lemma NullEntryIsEmptyEntry(raw: RawPolicy, baseDir: Text, i: nat)
    requires i < |raw.tools| && raw.tools[i].1 == None
    ensures BuildPolicy(WithEntry(raw, i, Some(EMPTY_TOOL)), baseDir) == BuildPolicy(raw, baseDir)
  {
    hide BuildRule, BuildRules, WellFormed, BuildMounts, ValidateEnv, ValidateLimits;
    var defaults := BuildGrant(DEFAULT_LIMITS, [], [], raw.defaults, baseDir);
    if defaults.Ok? {
      EmptyIngredients();
      MergedWellFormed(DEFAULT_LIMITS, [], [], raw.defaults, baseDir);
      RebuildIsIdentity(defaults.value, baseDir);
      RulesAgree(defaults.value, raw.tools, WithEntry(raw, i, Some(EMPTY_TOOL)).tools, baseDir);
    }
  }
}
