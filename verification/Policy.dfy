/** What each tool may see and spend: src/policy.rs, from the parsed YAML structs on. */
module ToolPolicy {
  import opened Wrappers
  import opened Bytes
  import opened OrderedMap
  import TextOps

  type u64 = usize

  const DEFAULT_TIMEOUT_MS: u64 := 30_000
  const DEFAULT_FUEL: u64 := 2_000_000_000
  const DEFAULT_MEMORY_MAX_MB: u64 := 256
  const DEFAULT_OUTPUT_MAX_KB: u64 := 4_096
  const MAX_TIMEOUT_MS: u64 := 600_000
  const MAX_MEMORY_MAX_MB: u64 := 4_096
  const MAX_OUTPUT_MAX_KB: u64 := 1_048_576
  const MIN_FUEL: u64 := 1_000

  const SLASH: u8 := 47
  const EQUALS: u8 := 61
  const DOTDOT: Text := [46, 46]
  const RO: Text := [114, 111]                                        // "ro"
  const RW: Text := [114, 119]                                        // "rw"
  const DENY: Text := [100, 101, 110, 121]                            // "deny"
  const DEFAULTS: Text := [100, 101, 102, 97, 117, 108, 116, 115]     // "defaults"

  // ---------------------------------------------------------------------------------------
  // The file's shapes
  // ---------------------------------------------------------------------------------------

  datatype RawMount = RawMount(host: Text, mode: Text)

  /** The budget, env and fs fields, which the defaults section and a tool entry share. */
  datatype RawGrant = RawGrant(
    timeoutMs: Option<u64>, fuel: Option<u64>, memoryMaxMb: Option<u64>, outputMaxKb: Option<u64>,
    env: BTree<Text>, fs: BTree<RawMount>)

  const NO_OVERRIDES := RawGrant(None, None, None, None, [], [])

  datatype RawTool = RawTool(deny: bool, grants: RawGrant)

  datatype RawPolicy = RawPolicy(
    version: nat, defaults: RawGrant, unlistedTools: Option<Text>, tools: BTree<Option<RawTool>>)

  // ---------------------------------------------------------------------------------------
  // The model the rest of the program uses
  // ---------------------------------------------------------------------------------------

  datatype MountMode = ReadOnly | ReadWrite
  datatype Mount = Mount(guestPath: Text, hostPath: Text, mode: MountMode)
  datatype Limits = Limits(timeoutMs: u64, fuel: u64, memoryMaxMb: u64, outputMaxKb: u64)
  datatype Grant = Grant(limits: Limits, env: Entries<Text>, mounts: seq<Mount>)
  datatype UnlistedMode = DenyUnlisted | DefaultsForUnlisted
  datatype ToolRule = DenyRule | AllowRule(grant: Grant)
  datatype Decision = Deny(listed: bool) | Allow(grant: Grant)

  datatype PolicyError =
    | UnsupportedVersion | BadUnlistedTools | EmptyToolName | DenyWithGrants
    | TimeoutRange | FuelRange | MemoryRange | OutputRange
    | EmptyEnvName | EnvNameWithEquals
    | GuestPathRelative | GuestPathRoot | GuestPathDotDot | HostEmpty | BadMode

  const DEFAULT_LIMITS := Limits(DEFAULT_TIMEOUT_MS, DEFAULT_FUEL, DEFAULT_MEMORY_MAX_MB, DEFAULT_OUTPUT_MAX_KB)

  // ---------------------------------------------------------------------------------------
  // Validation and merging
  // ---------------------------------------------------------------------------------------

  function ValidateLimits(l: Limits): Option<PolicyError> {
    if l.timeoutMs == 0 || l.timeoutMs > MAX_TIMEOUT_MS then Some(TimeoutRange)
    else if l.fuel < MIN_FUEL then Some(FuelRange)
    else if l.memoryMaxMb == 0 || l.memoryMaxMb > MAX_MEMORY_MAX_MB then Some(MemoryRange)
    else if l.outputMaxKb == 0 || l.outputMaxKb > MAX_OUTPUT_MAX_KB then Some(OutputRange)
    else None
  }

  function ValidateEnvKey(k: Text): Option<PolicyError> {
    if k == [] then Some(EmptyEnvName) else if EQUALS in k then Some(EnvNameWithEquals) else None
  }

  /** The first bad name, in key order. */
  function ValidateEnv(env: Entries<Text>): Option<PolicyError> {
    if env == [] then None
    else
      var before := ValidateEnv(env[..|env| - 1]);
      if before.Some? then before else ValidateEnvKey(env[|env| - 1].0)
  }

  predicate IsAbsolute(path: Text) {
    path != [] && path[0] == SLASH
  }

  /** `Path::join` for a relative path on Unix. */
  function Join(base: Text, host: Text): Text {
    if base == [] || base[|base| - 1] == SLASH then base + host else base + [SLASH] + host
  }

  function BuildMount(guestPath: Text, raw: RawMount, baseDir: Text): Result<Mount, PolicyError> {
    if !IsAbsolute(guestPath) then Err(GuestPathRelative)
    else if guestPath == [SLASH] then Err(GuestPathRoot)
    else if DOTDOT in TextOps.Split(guestPath, SLASH) then Err(GuestPathDotDot)
    else if raw.host == [] then Err(HostEmpty)
    else if raw.mode != RO && raw.mode != RW then Err(BadMode)
    else
      var host := if IsAbsolute(raw.host) then raw.host else Join(baseDir, raw.host);
      Ok(Mount(guestPath, host, if raw.mode == RO then ReadOnly else ReadWrite))
  }

  /** All mounts of a section, or the first error in key order. */
  function BuildMounts(fs: Entries<RawMount>, baseDir: Text): Result<Entries<Mount>, PolicyError> {
    if fs == [] then Ok([])
    else
      var before, last := BuildMounts(fs[..|fs| - 1], baseDir), fs[|fs| - 1];
      if before.Err? then before
      else
        var mount := BuildMount(last.0, last.1, baseDir);
        if mount.Err? then Err(mount.error) else Ok(before.value + [(last.0, mount.value)])
  }

  function Or<T>(o: Option<T>, d: T): T {
    if o.Some? then o.value else d
  }

  function ByPath(mounts: seq<Mount>): (es: Entries<Mount>)
    ensures |es| == |mounts|
  {
    seq(|mounts|, i requires 0 <= i < |mounts| => (mounts[i].guestPath, mounts[i]))
  }

  function Values<V>(m: Entries<V>): (vs: seq<V>)
    ensures |vs| == |m|
  {
    seq(|m|, i requires 0 <= i < |m| => m[i].1)
  }

  function Override(base: Limits, raw: RawGrant): Limits {
    Limits(Or(raw.timeoutMs, base.timeoutMs), Or(raw.fuel, base.fuel),
           Or(raw.memoryMaxMb, base.memoryMaxMb), Or(raw.outputMaxKb, base.outputMaxKb))
  }

  /** A section laid over a base grant. */
  function BuildGrant(base: Limits, baseEnv: Entries<Text>, baseMounts: seq<Mount>, raw: RawGrant, baseDir: Text)
    : Result<Grant, PolicyError>
  {
    var limits := Override(base, raw);
    var limitError, envError, mounts := ValidateLimits(limits), ValidateEnv(raw.env), BuildMounts(raw.fs, baseDir);
    if limitError.Some? then Err(limitError.value)
    else if envError.Some? then Err(envError.value)
    else if mounts.Err? then Err(mounts.error)
    else
      var merged := InsertAll(InsertAll([], ByPath(baseMounts)), mounts.value);
      Ok(Grant(limits, InsertAll(baseEnv, raw.env), Values(merged)))
  }

  function BuildRule(defaults: Grant, entry: Option<RawTool>, baseDir: Text): Result<ToolRule, PolicyError> {
    if entry == None then Ok(AllowRule(defaults))
    else if entry.value.deny then (if entry.value.grants != NO_OVERRIDES then Err(DenyWithGrants) else Ok(DenyRule))
    else
      var g := BuildGrant(defaults.limits, InsertAll([], defaults.env), defaults.mounts, entry.value.grants, baseDir);
      if g.Err? then Err(g.error) else Ok(AllowRule(g.value))
  }

  /** The rule of every listed tool, or the first error in name order. */
  function BuildRules(defaults: Grant, tools: Entries<Option<RawTool>>, baseDir: Text)
    : Result<Entries<ToolRule>, PolicyError>
  {
    if tools == [] then Ok([])
    else
      var before, last := BuildRules(defaults, tools[..|tools| - 1], baseDir), tools[|tools| - 1];
      if before.Err? then before
      else if last.0 == [] then Err(EmptyToolName)
      else
        var rule := BuildRule(defaults, last.1, baseDir);
        if rule.Err? then Err(rule.error) else Ok(before.value + [(last.0, rule.value)])
  }

  datatype Policy = Policy(defaults: Grant, unlisted: UnlistedMode, tools: Entries<ToolRule>) {

    function Decide(tool: Text): Decision {
      var rule := Lookup(tools, tool);
      if rule.Some? then (if rule.value.DenyRule? then Deny(true) else Allow(rule.value.grant))
      else if unlisted == DefaultsForUnlisted then Allow(defaults)
      else Deny(false)
    }

    predicate Visible(tool: Text) {
      !Decide(tool).Deny?
    }
  }

  /** No policy file: every tool runs, in a capability vacuum. */
  const PERMISSIVE_VACUUM := Policy(Grant(DEFAULT_LIMITS, [], []), DefaultsForUnlisted, [])

  function ParseUnlisted(s: Option<Text>): Result<UnlistedMode, PolicyError> {
    if s == None || s == Some(DENY) then Ok(DenyUnlisted)
    else if s == Some(DEFAULTS) then Ok(DefaultsForUnlisted)
    else Err(BadUnlistedTools)
  }

  function BuildPolicy(raw: RawPolicy, baseDir: Text): Result<Policy, PolicyError> {
    var unlisted := ParseUnlisted(raw.unlistedTools);
    if raw.version != 1 then Err(UnsupportedVersion)
    else if unlisted.Err? then Err(unlisted.error)
    else
      var defaults := BuildGrant(DEFAULT_LIMITS, [], [], raw.defaults, baseDir);
      if defaults.Err? then Err(defaults.error)
      else
        var rules := BuildRules(defaults.value, raw.tools, baseDir);
        if rules.Err? then Err(rules.error) else Ok(Policy(defaults.value, unlisted.value, rules.value))
  }

  // ---------------------------------------------------------------------------------------
  // The loops
  // ---------------------------------------------------------------------------------------

  lemma {:induction false} EnvErrorStays(env: Entries<Text>, i: nat)
    requires i <= |env| && ValidateEnv(env[..i]).Some?
    ensures ValidateEnv(env) == ValidateEnv(env[..i])
  {
    if i == |env| {
      assert env[..i] == env;
    } else {
      assert env[..|env| - 1][..i] == env[..i];
      EnvErrorStays(env[..|env| - 1], i);
    }
  }

  lemma {:induction false} MountErrorStays(fs: Entries<RawMount>, baseDir: Text, i: nat)
    requires i <= |fs| && BuildMounts(fs[..i], baseDir).Err?
    ensures BuildMounts(fs, baseDir) == BuildMounts(fs[..i], baseDir)
  {
    if i == |fs| {
      assert fs[..i] == fs;
    } else {
      assert fs[..|fs| - 1][..i] == fs[..i];
      MountErrorStays(fs[..|fs| - 1], baseDir, i);
    }
  }

  lemma {:induction false} RuleErrorStays(defaults: Grant, tools: Entries<Option<RawTool>>, baseDir: Text, i: nat)
    requires i <= |tools| && BuildRules(defaults, tools[..i], baseDir).Err?
    ensures BuildRules(defaults, tools, baseDir) == BuildRules(defaults, tools[..i], baseDir)
  {
    if i == |tools| {
      assert tools[..i] == tools;
    } else {
      assert tools[..|tools| - 1][..i] == tools[..i];
      RuleErrorStays(defaults, tools[..|tools| - 1], baseDir, i);
    }
  }

  /** `build_grant`. */
  method BuildGrantLoop(base: Limits, baseEnv: BTree<Text>, baseMounts: seq<Mount>, raw: RawGrant, baseDir: Text)
    returns (r: Result<Grant, PolicyError>)
    ensures r == BuildGrant(base, baseEnv, baseMounts, raw, baseDir)
  {
    hide BuildMount, ValidateEnvKey, ValidateLimits, Insert;
    var limits := Override(base, raw);
    var limitError := ValidateLimits(limits);
    if limitError.Some? {
      return Err(limitError.value);
    }
    var mergedEnv: Entries<Text> := baseEnv;
    for i := 0 to |raw.env|
      invariant ValidateEnv(raw.env[..i]) == None && mergedEnv == InsertAll(baseEnv, raw.env[..i])
    {
      var (k, v) := raw.env[i];
      var keyError := ValidateEnvKey(k);
      assert raw.env[..i + 1][..i] == raw.env[..i];
      if keyError.Some? {
        EnvErrorStays(raw.env, i + 1);
        return Err(keyError.value);
      }
      mergedEnv := Insert(mergedEnv, k, v);
    }
    assert raw.env[..|raw.env|] == raw.env;
    var merged := InsertAll([], ByPath(baseMounts));
    ghost var built: Entries<Mount> := [];
    for i := 0 to |raw.fs|
      invariant BuildMounts(raw.fs[..i], baseDir) == Ok(built)
      invariant merged == InsertAll(InsertAll([], ByPath(baseMounts)), built)
    {
      var (guestPath, rawMount) := raw.fs[i];
      var mount := BuildMount(guestPath, rawMount, baseDir);
      assert raw.fs[..i + 1][..i] == raw.fs[..i];
      if mount.Err? {
        MountErrorStays(raw.fs, baseDir, i + 1);
        return Err(mount.error);
      }
      assert (built + [(guestPath, mount.value)])[..|built|] == built;
      built := built + [(guestPath, mount.value)];
      merged := Insert(merged, guestPath, mount.value);
    }
    assert raw.fs[..|raw.fs|] == raw.fs;
    return Ok(Grant(limits, mergedEnv, Values(merged)));
  }

  lemma {:induction false} RuleKeys(defaults: Grant, tools: Entries<Option<RawTool>>, baseDir: Text)
    ensures var rules := BuildRules(defaults, tools, baseDir);
      rules.Ok? ==> |rules.value| == |tools| && forall i :: 0 <= i < |tools| ==> rules.value[i].0 == tools[i].0
  {
    if tools != [] {
      RuleKeys(defaults, tools[..|tools| - 1], baseDir);
    }
  }

  /** `from_yaml_str`, after the YAML is read. */
  method BuildPolicyLoop(raw: RawPolicy, baseDir: Text) returns (r: Result<Policy, PolicyError>)
    ensures r == BuildPolicy(raw, baseDir)
  {
    hide BuildGrant, Insert;
    if raw.version != 1 {
      return Err(UnsupportedVersion);
    }
    var unlisted := ParseUnlisted(raw.unlistedTools);
    if unlisted.Err? {
      return Err(unlisted.error);
    }
    var d := BuildGrantLoop(DEFAULT_LIMITS, [], [], raw.defaults, baseDir);
    if d.Err? {
      return Err(d.error);
    }
    var defaults := d.value;
    var tools: Entries<ToolRule> := [];
    for i := 0 to |raw.tools|
      invariant BuildRules(defaults, raw.tools[..i], baseDir) == Ok(tools)
    {
      var (name, entry) := raw.tools[i];
      assert raw.tools[..i + 1][..i] == raw.tools[..i];
      if name == [] {
        RuleErrorStays(defaults, raw.tools, baseDir, i + 1);
        return Err(EmptyToolName);
      }
      var rule := DenyRule;
      if entry == None {
        rule := AllowRule(defaults);
      } else if entry.value.deny {
        if entry.value.grants != NO_OVERRIDES {
          RuleErrorStays(defaults, raw.tools, baseDir, i + 1);
          return Err(DenyWithGrants);
        }
      } else {
        InsertAllSorted([], defaults.env);
        var baseEnv := InsertAll([], defaults.env);
        var g := BuildGrantLoop(defaults.limits, baseEnv, defaults.mounts, entry.value.grants, baseDir);
        if g.Err? {
          RuleErrorStays(defaults, raw.tools, baseDir, i + 1);
          return Err(g.error);
        }
        rule := AllowRule(g.value);
      }
      RuleKeys(defaults, raw.tools[..i + 1], baseDir);
      assert Sorted(tools + [(name, rule)]);
      InsertLast(tools, name, rule);
      tools := Insert(tools, name, rule);
    }
    assert raw.tools[..|raw.tools|] == raw.tools;
    return Ok(Policy(defaults, unlisted.value, tools));
  }
}
