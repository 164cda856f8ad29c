/** The CPU partition of a host and the CPU roles of one application
    (tools/app_validator.py; the same checks are repeated inline in
    tools/gen_config.py). */
module AppValidator {
  import opened Base
  import opened Values

  /** A host's CPU budget: ids 0..total-1, split into isolated CPUs (for
      busy-spin loops) and shared CPUs (for everything else). */
  datatype HostCpus = HostCpus(total: int, isolated: set<int>, shared: set<int>)

  /** The three CPU roles of one application. */
  datatype RoleCpus = RoleCpus(log: int, main: int, admin: int)

  // ---------------------------------------------------------------------------
  // Range checks over a set of CPU ids

  /** The CPUs of `cpus` outside [0, total). */
  function Outside(cpus: set<int>, total: int): set<int> {
    set c | c in cpus && !(0 <= c < total)
  }

  /** Scanning `cpus` in ascending order, the first CPU outside [0, total)
      fails. */
  function RangeCheck(cpus: set<int>, total: int): (r: Outcome)
    ensures r.Pass? <==> forall c | c in cpus :: 0 <= c < total
    ensures r.Fail? ==> exists c | c in cpus :: r == Fail(Exit(CpuOutOfRange(c))) && !(0 <= c < total)
  {
    var bad := Outside(cpus, total);
    if bad == {} then
      assert forall c | c in cpus :: 0 <= c < total by {
        forall c | c in cpus ensures 0 <= c < total {
          assert c !in bad;
        }
      }
      Pass
    else
      var c := SetMin(bad);
      Fail(Exit(CpuOutOfRange(c)))
  }

  /** The reported CPU is the smallest one out of range: every smaller CPU of
      the set is in range. */
  lemma RangeCheckReportsSmallest(cpus: set<int>, total: int, c: int)
    requires c in cpus && !(0 <= c < total)
    requires forall d | d in cpus && d < c :: 0 <= d < total
    ensures RangeCheck(cpus, total) == Fail(Exit(CpuOutOfRange(c)))
  {
    var bad := Outside(cpus, total);
    assert c in bad;
    var m := SetMin(bad);
    assert m in cpus && !(0 <= m < total);
  }

  /** The `for cpu in ...: if cpu < 0 or cpu >= total: raise` loop, visiting
      the CPUs in ascending order. */
  method CheckCpusInRange(cpus: set<int>, total: int) returns (r: Outcome)
    ensures r == RangeCheck(cpus, total)
  {
    var todo := cpus;
    while todo != {}
      invariant todo <= cpus
      invariant forall c | c in cpus && c !in todo :: 0 <= c < total
      invariant forall c, d | c in cpus && c !in todo && d in todo :: c < d
      decreases |todo|
    {
      var cpu := SetMin(todo);
      if cpu < 0 || cpu >= total {
        RangeCheckReportsSmallest(cpus, total, cpu);
        return Fail(Exit(CpuOutOfRange(cpu)));
      }
      todo := todo - {cpu};
    }
    r := Pass;
  }

  // ---------------------------------------------------------------------------
  // validate_host_cpu_sets

  /** The host's isolated and shared CPUs must all lie in [0, total) (checked
      first, in ascending order) and must not overlap. */
  function HostCpuSetsCheck(host: HostCpus): (r: Outcome)
    ensures r.Pass? <==>
      (forall c | c in host.isolated + host.shared :: 0 <= c < host.total)
      && host.isolated * host.shared == {}
  {
    var range := RangeCheck(host.isolated + host.shared, host.total);
    if range.Fail? then range
    else if host.isolated * host.shared != {} then Fail(Exit(CpuSetOverlap))
    else Pass
  }

  /** With every CPU in range, overlapping sets fail with the overlap error. */
  lemma HostOverlapFails(host: HostCpus, c: int)
    requires forall d | d in host.isolated + host.shared :: 0 <= d < host.total
    requires c in host.isolated && c in host.shared
    ensures HostCpuSetsCheck(host) == Fail(Exit(CpuSetOverlap))
  {
    assert c in host.isolated * host.shared;
  }

  // ---------------------------------------------------------------------------
  // parse_template_cfg_envs_cpu_fields

  /** `int(env[key])`: a missing key is reported as a missing CPU field; a value
      `int()` rejects raises. */
  function CpuField(env: Fields, key: string): Result<int> {
    match Lookup(env, key)
    case None => Err(Exit(MissingCpuField(key)))
    case Some(v) =>
      match AsInt(v)
      case Some(i) => Ok(i)
      case None => Err(Raise(NotAnInteger))
  }

  /** The three role CPUs, read in the order log, main loop, admin loop. */
  function ParseCpuFields(env: Fields): Result<RoleCpus> {
    var log :- CpuField(env, "log_cpu");
    var main :- CpuField(env, "main_loop_cpu");
    var admin :- CpuField(env, "admin_loop_cpu");
    Ok(RoleCpus(log, main, admin))
  }

  /** The fields parse exactly when all three keys are present with integer
      values, which are then the roles; a missing `log_cpu` is reported first,
      then a missing `main_loop_cpu` when `log_cpu` parses. */
  lemma ParseCpuFieldsSpec(env: Fields)
    ensures ParseCpuFields(env).Ok? <==>
      AsInt(Lookup(env, "log_cpu").GetOr(VNull)).Some?
      && AsInt(Lookup(env, "main_loop_cpu").GetOr(VNull)).Some?
      && AsInt(Lookup(env, "admin_loop_cpu").GetOr(VNull)).Some?
    ensures ParseCpuFields(env).Ok? ==> ParseCpuFields(env).value == RoleCpus(
      AsInt(Lookup(env, "log_cpu").value).value,
      AsInt(Lookup(env, "main_loop_cpu").value).value,
      AsInt(Lookup(env, "admin_loop_cpu").value).value)
    ensures !HasKey(env, "log_cpu") ==> ParseCpuFields(env) == Err(Exit(MissingCpuField("log_cpu")))
    ensures CpuField(env, "log_cpu").Ok? && !HasKey(env, "main_loop_cpu") ==>
      ParseCpuFields(env) == Err(Exit(MissingCpuField("main_loop_cpu")))
  {
  }

  // ---------------------------------------------------------------------------
  // validate_app_cpu_allocation

  /** The set `{log_cpu, main_loop_cpu, admin_loop_cpu}` of one application. */
  function UsedCpus(cpus: RoleCpus): set<int> {
    {cpus.log, cpus.main, cpus.admin}
  }

  /** The checks that follow the busy-spin claim: log and admin CPUs shared,
      all three CPUs in range, and the three pairwise distinct. The source
      scans the three CPUs in set-iteration order; this reference names the
      smallest out-of-range one, and `AgreesUpToRangeCpu` below admits any. */
  function AfterClaimChecks(host: HostCpus, cpus: RoleCpus): Outcome {
    var used := UsedCpus(cpus);
    if cpus.log !in host.shared then Fail(Exit(LogCpuNotShared(cpus.log)))
    else if cpus.admin !in host.shared then Fail(Exit(AdminCpuNotShared(cpus.admin)))
    else if RangeCheck(used, host.total).Fail? then RangeCheck(used, host.total)
    else if |used| != 3 then Fail(Exit(DuplicateRoleCpus))
    else Pass
  }

  /** Whether `app` may claim `cpu` as its busy-spin CPU: it is free or already
      its own. */
  predicate Claimable(owners: map<int, string>, cpu: int, app: string) {
    cpu !in owners || owners[cpu] == app
  }

  /** What validate_app_cpu_allocation reports, and the busy-usage map it leaves
      behind: the main loop CPU must be isolated and not owned by another app;
      it is then claimed BEFORE the remaining checks run. */
  function Allocate(owners: map<int, string>, host: HostCpus, cpus: RoleCpus, app: string)
    : (Outcome, map<int, string>)
  {
    if cpus.main !in host.isolated then
      (Fail(Exit(MainLoopNotIsolated(cpus.main))), owners)
    else if !Claimable(owners, cpus.main, app) then
      (Fail(Exit(BusyCpuTaken(cpus.main, owners[cpus.main]))), owners)
    else
      (AfterClaimChecks(host, cpus), owners[cpus.main := app])
  }

  /** What the source may report where the reference reports `expected`: the
      same outcome, except that a range failure may name any CPU of `used`
      outside [0, total), since a Python set of ints is not iterated in
      ascending order. */
  predicate AgreesUpToRangeCpu(expected: Outcome, r: Outcome, used: set<int>, total: int) {
    r == expected
    || (expected.Fail? && expected.error.Exit? && expected.error.reason.CpuOutOfRange?
        && exists c | c in Outside(used, total) :: r == Fail(Exit(CpuOutOfRange(c))))
  }

  /** The `for cpu in used_cpus` loop of validate_app_cpu_allocation: the CPUs
      are visited in set-iteration order, so any out-of-range CPU may be the
      one reported. */
  method CheckCpusAnyOrder(cpus: set<int>, total: int) returns (r: Outcome)
    ensures r.Pass? <==> forall c | c in cpus :: 0 <= c < total
    ensures r.Fail? ==> exists c | c in Outside(cpus, total) :: r == Fail(Exit(CpuOutOfRange(c)))
  {
    var todo := cpus;
    while todo != {}
      invariant todo <= cpus
      invariant forall c | c in cpus && c !in todo :: 0 <= c < total
      decreases |todo|
    {
      NonEmptyHasMember(todo);
      var cpu :| cpu in todo;
      if cpu < 0 || cpu >= total {
        assert cpu in Outside(cpus, total);
        return Fail(Exit(CpuOutOfRange(cpu)));
      }
      todo := todo - {cpu};
    }
    r := Pass;
  }

  /** The three role CPUs are pairwise distinct exactly when their set has
      three elements. */
  lemma DistinctRoles(cpus: RoleCpus)
    ensures |{cpus.log, cpus.main, cpus.admin}| == 3 <==>
      cpus.log != cpus.main && cpus.main != cpus.admin && cpus.log != cpus.admin
  {
    var a, b, c := cpus.log, cpus.main, cpus.admin;
    if a == b {
      assert {a, b, c} == {a, c};
    } else if b == c {
      assert {a, b, c} == {a, b};
    } else if a == c {
      assert {a, b, c} == {a, b};
    } else {
      assert {a, b, c} == {a, b} + {c};
    }
  }

  /** Allocation succeeds exactly when the main loop CPU is isolated and
      claimable, the log and admin CPUs are shared, all three are in range and
      they are pairwise distinct. */
  lemma AllocatePassIff(owners: map<int, string>, host: HostCpus, cpus: RoleCpus, app: string)
    ensures Allocate(owners, host, cpus, app).0.Pass? <==>
      cpus.main in host.isolated && Claimable(owners, cpus.main, app)
      && cpus.log in host.shared && cpus.admin in host.shared
      && 0 <= cpus.log < host.total && 0 <= cpus.main < host.total && 0 <= cpus.admin < host.total
      && cpus.log != cpus.main && cpus.main != cpus.admin && cpus.log != cpus.admin
  {
    DistinctRoles(cpus);
    var used := {cpus.log, cpus.main, cpus.admin};
    assert (forall c | c in used :: 0 <= c < host.total) <==>
      0 <= cpus.log < host.total && 0 <= cpus.main < host.total && 0 <= cpus.admin < host.total;
  }

  /** The busy map changes only by the claim of the main loop CPU, and the claim
      happens exactly when that CPU is isolated and claimable, whatever the later
      checks decide. An owned CPU never changes owner. */
  lemma AllocateState(owners: map<int, string>, host: HostCpus, cpus: RoleCpus, app: string)
    ensures var after := Allocate(owners, host, cpus, app).1;
      && (cpus.main in host.isolated && Claimable(owners, cpus.main, app) ==>
            after == owners[cpus.main := app])
      && (cpus.main !in host.isolated || !Claimable(owners, cpus.main, app) ==> after == owners)
      && (forall c | c in owners :: c in after && after[c] == owners[c])
      && (forall c | c in after && c !in owners :: c == cpus.main && after[c] == app)
  {
  }

  /** Failures before the claim leave the busy map as it was and name the
      offending CPU (and its owner). */
  lemma AllocateEarlyFailures(owners: map<int, string>, host: HostCpus, cpus: RoleCpus, app: string)
    ensures cpus.main !in host.isolated ==>
      Allocate(owners, host, cpus, app) == (Fail(Exit(MainLoopNotIsolated(cpus.main))), owners)
    ensures cpus.main in host.isolated && cpus.main in owners && owners[cpus.main] != app ==>
      Allocate(owners, host, cpus, app)
      == (Fail(Exit(BusyCpuTaken(cpus.main, owners[cpus.main]))), owners)
  {
  }

  /** Running the allocation again for the same app gives the same outcome and
      leaves the busy map as the first run left it. */
  lemma AllocateIdempotent(owners: map<int, string>, host: HostCpus, cpus: RoleCpus, app: string)
    ensures var first := Allocate(owners, host, cpus, app);
      Allocate(first.1, host, cpus, app) == first
  {
    var first := Allocate(owners, host, cpus, app);
    if cpus.main in host.isolated && Claimable(owners, cpus.main, app) {
      assert first.1[cpus.main := app] == first.1;
    }
  }

  /** Two different apps cannot both hold the same busy-spin CPU: once `app1`
      has claimed it, `app2` fails on it and the busy map keeps `app1`. */
  lemma AllocateExclusive(owners: map<int, string>, host: HostCpus, cpus1: RoleCpus, app1: string,
                          cpus2: RoleCpus, app2: string)
    requires app1 != app2 && cpus1.main == cpus2.main
    requires cpus1.main in host.isolated && Claimable(owners, cpus1.main, app1)
    ensures var mid := Allocate(owners, host, cpus1, app1).1;
      var last := Allocate(mid, host, cpus2, app2);
      last == (Fail(Exit(BusyCpuTaken(cpus2.main, app1))), mid)
  {
    AllocateState(owners, host, cpus1, app1);
  }

  /** Whichever out-of-range CPU the iteration order names, the source passes
      exactly when the reference allocation passes. */
  lemma AllocateReportPassIff(owners: map<int, string>, host: HostCpus, cpus: RoleCpus, app: string, r: Outcome)
    requires AgreesUpToRangeCpu(Allocate(owners, host, cpus, app).0, r, UsedCpus(cpus), host.total)
    ensures r.Pass? <==>
      cpus.main in host.isolated && Claimable(owners, cpus.main, app)
      && cpus.log in host.shared && cpus.admin in host.shared
      && 0 <= cpus.log < host.total && 0 <= cpus.main < host.total && 0 <= cpus.admin < host.total
      && cpus.log != cpus.main && cpus.main != cpus.admin && cpus.log != cpus.admin
  {
    AllocatePassIff(owners, host, cpus, app);
  }

  /** A range failure comes only after the main loop CPU is isolated and
      claimed and the log and admin CPUs are shared; the CPU it names is one of
      the three and lies outside [0, total). */
  lemma AllocateRangeReport(owners: map<int, string>, host: HostCpus, cpus: RoleCpus, app: string,
                            r: Outcome, c: int)
    requires AgreesUpToRangeCpu(Allocate(owners, host, cpus, app).0, r, UsedCpus(cpus), host.total)
    requires r == Fail(Exit(CpuOutOfRange(c)))
    ensures c in UsedCpus(cpus) && !(0 <= c < host.total)
    ensures cpus.main in host.isolated && Claimable(owners, cpus.main, app)
    ensures cpus.log in host.shared && cpus.admin in host.shared
    ensures Allocate(owners, host, cpus, app).1 == owners[cpus.main := app]
  {
    var expected := Allocate(owners, host, cpus, app).0;
    if r == expected {
      var range := RangeCheck(UsedCpus(cpus), host.total);
      assert range.Fail? && range == expected;
    } else {
      var d :| d in Outside(UsedCpus(cpus), host.total) && r == Fail(Exit(CpuOutOfRange(d)));
      assert d == c;
    }
  }

  // ---------------------------------------------------------------------------
  // The busy-usage map of one host, updated in place

  /** The `busy_usage` dictionary of one host: isolated CPU -> owning app. */
  class BusyUsage {
    var owners: map<int, string>

    constructor (initial: map<int, string>)
      ensures owners == initial
    {
      owners := initial;
    }

    /** validate_app_cpu_allocation, writing the claim into this map: the map
        the reference allocation leaves, and its outcome up to which
        out-of-range CPU is named. */
    method ValidateAppCpuAllocation(host: HostCpus, cpus: RoleCpus, app: string) returns (r: Outcome)
      modifies this
      ensures owners == Allocate(old(owners), host, cpus, app).1
      ensures AgreesUpToRangeCpu(Allocate(old(owners), host, cpus, app).0, r, UsedCpus(cpus), host.total)
    {
      var used := UsedCpus(cpus);
      if cpus.main !in host.isolated {
        return Fail(Exit(MainLoopNotIsolated(cpus.main)));
      }
      if cpus.main in owners && owners[cpus.main] != app {
        return Fail(Exit(BusyCpuTaken(cpus.main, owners[cpus.main])));
      }
      owners := owners[cpus.main := app];
      if cpus.log !in host.shared {
        return Fail(Exit(LogCpuNotShared(cpus.log)));
      }
      if cpus.admin !in host.shared {
        return Fail(Exit(AdminCpuNotShared(cpus.admin)));
      }
      r := CheckCpusAnyOrder(used, host.total);
      if r.Fail? {
        return;
      }
      if |used| != 3 {
        return Fail(Exit(DuplicateRoleCpus));
      }
      r := Pass;
    }
  }
}
