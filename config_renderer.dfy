/** The template context of the renderer and the structural checks applied to
    a rendered configuration (tools/config_renderer.py; the same checks are
    inline in tools/gen_config.py). Template rendering and JSON parsing are not
    modelled: the checks start from the parsed value. */
module ConfigRenderer {
  import opened Base
  import opened Text
  import opened Values
  import opened AppValidator

  // ---------------------------------------------------------------------------
  // _build_jinja_context

  /** `cur[p0][p1]...[pn] = v`, walking the path from `ctx` and replacing every
      missing or non-mapping step by an empty mapping. */
  function SetPath(ctx: Fields, path: seq<string>, v: Value): Fields
    requires |path| >= 1
    decreases |path|
  {
    if |path| == 1 then Put(ctx, path[0], v)
    else
      var sub := match Lookup(ctx, path[0]) case Some(VObj(f)) => f case _ => [];
      Put(ctx, path[0], VObj(SetPath(sub, path[1..], v)))
  }

  /** The value reached by following `path` through nested mappings. */
  function GetPath(ctx: Fields, path: seq<string>): Option<Value>
    requires |path| >= 1
    decreases |path|
  {
    if |path| == 1 then Lookup(ctx, path[0])
    else
      match Lookup(ctx, path[0])
      case Some(VObj(f)) => GetPath(f, path[1..])
      case _ => None
  }

  /** Two paths that part ways at some step: neither is a prefix of the other. */
  predicate Diverge(p: seq<string>, q: seq<string>)
    decreases |p|
  {
    |p| >= 1 && |q| >= 1 && (p[0] != q[0] || Diverge(p[1..], q[1..]))
  }

  /** After storing `v` at a path, the path reads `v`. */
  lemma {:induction false} GetSetPath(ctx: Fields, path: seq<string>, v: Value)
    requires |path| >= 1
    ensures GetPath(SetPath(ctx, path, v), path) == Some(v)
    decreases |path|
  {
    var sub := match Lookup(ctx, path[0]) case Some(VObj(f)) => f case _ => [];
    var newAt := if |path| == 1 then v else VObj(SetPath(sub, path[1..], v));
    var after := Put(ctx, path[0], newAt);
    assert SetPath(ctx, path, v) == after;
    LookupPut(ctx, path[0], newAt, path[0]);
    if |path| > 1 {
      GetSetPath(sub, path[1..], v);
      assert GetPath(after, path) == GetPath(SetPath(sub, path[1..], v), path[1..]);
    }
  }

  /** Storing at a path leaves every path that parts ways with it as it was. */
  lemma {:induction false} SetPathOther(ctx: Fields, p: seq<string>, q: seq<string>, v: Value)
    requires Diverge(p, q)
    ensures GetPath(SetPath(ctx, p, v), q) == GetPath(ctx, q)
    decreases |p|, 1
  {
    if p[0] != q[0] {
      SetPathOtherHead(ctx, p, q, v);
    } else {
      SetPathOtherDeep(ctx, p, q, v);
    }
  }

  /** Paths that differ in their first key. */
  lemma SetPathOtherHead(ctx: Fields, p: seq<string>, q: seq<string>, v: Value)
    requires |p| >= 1 && |q| >= 1 && p[0] != q[0]
    ensures GetPath(SetPath(ctx, p, v), q) == GetPath(ctx, q)
  {
    var sub := match Lookup(ctx, p[0]) case Some(VObj(f)) => f case _ => [];
    var newAt := if |p| == 1 then v else VObj(SetPath(sub, p[1..], v));
    assert SetPath(ctx, p, v) == Put(ctx, p[0], newAt);
    LookupPut(ctx, p[0], newAt, q[0]);
  }

  /** Paths that share their first key and part ways further down. */
  lemma {:induction false} SetPathOtherDeep(ctx: Fields, p: seq<string>, q: seq<string>, v: Value)
    requires Diverge(p, q) && p[0] == q[0]
    ensures GetPath(SetPath(ctx, p, v), q) == GetPath(ctx, q)
    decreases |p|, 0
  {
    assert Diverge(p[1..], q[1..]);
    var sub := match Lookup(ctx, p[0]) case Some(VObj(f)) => f case _ => [];
    var inner := SetPath(sub, p[1..], v);
    var after := Put(ctx, p[0], VObj(inner));
    assert SetPath(ctx, p, v) == after;
    LookupPut(ctx, p[0], VObj(inner), q[0]);
    assert GetPath(after, q) == GetPath(inner, q[1..]);
    SetPathOther(sub, p[1..], q[1..], v);
    if sub == [] {
      GetPathEmpty(q[1..]);
    }
  }

  lemma GetPathEmpty(path: seq<string>)
    requires |path| >= 1
    ensures GetPath([], path) == None
  {
  }

  /** A missing or non-mapping step is replaced by a fresh mapping holding only
      the rest of the path. */
  lemma SetPathReplacesNonMapping(ctx: Fields, path: seq<string>, v: Value)
    requires |path| >= 2
    requires !(Lookup(ctx, path[0]).Some? && Lookup(ctx, path[0]).value.VObj?)
    ensures Lookup(SetPath(ctx, path, v), path[0]) == Some(VObj(SetPath([], path[1..], v)))
    ensures |SetPath([], path[1..], v)| == 1 && SetPath([], path[1..], v)[0].0 == path[1]
  {
    LookupPut(ctx, path[0], VObj(SetPath([], path[1..], v)), path[0]);
  }

  /** Where one flat key goes: an undotted key at the top, a dotted key at the
      path of its dot-separated parts. */
  function KeyPath(k: string): (path: seq<string>)
    ensures |path| >= 1
    ensures '.' !in k ==> path == [k]
  {
    if '.' !in k then [k] else Split(k, '.')
  }

  /** The context built from `flat` when `ctx` already holds the earlier
      entries. */
  function ContextFrom(ctx: Fields, flat: Fields): Fields
    decreases |flat|
  {
    if flat == [] then ctx
    else ContextFrom(SetPath(ctx, KeyPath(flat[0].0), flat[0].1), flat[1..])
  }

  lemma {:induction false} ContextFromAppend(ctx: Fields, flat: Fields, k: string, v: Value)
    ensures ContextFrom(ctx, flat + [(k, v)]) == SetPath(ContextFrom(ctx, flat), KeyPath(k), v)
    decreases |flat|
  {
    if flat != [] {
      assert (flat + [(k, v)])[1..] == flat[1..] + [(k, v)];
      ContextFromAppend(SetPath(ctx, KeyPath(flat[0].0), flat[0].1), flat[1..], k, v);
    }
  }

  /** _build_jinja_context: every entry of the flat replacement map stored, in
      order, at the path its key names. */
  method BuildJinjaContext(flat: Fields) returns (ctx: Fields)
    ensures ctx == ContextFrom([], flat)
  {
    ctx := [];
    var i := 0;
    while i < |flat|
      invariant 0 <= i <= |flat|
      invariant ctx == ContextFrom([], flat[..i])
    {
      var (k, v) := flat[i];
      if '.' !in k {
        ctx := Put(ctx, k, v);
      } else {
        var parts := Split(k, '.');
        ctx := SetPath(ctx, parts, v);
      }
      assert flat[..i + 1] == flat[..i] + [(k, v)];
      ContextFromAppend([], flat[..i], k, v);
      i := i + 1;
    }
    assert flat[..i] == flat;
  }

  /** The last entry of the flat map can be read back at its key's path; an
      undotted key is read at the top level. */
  lemma ContextLastEntry(flat: Fields, k: string, v: Value)
    ensures GetPath(ContextFrom([], flat + [(k, v)]), KeyPath(k)) == Some(v)
    ensures '.' !in k ==> Lookup(ContextFrom([], flat + [(k, v)]), k) == Some(v)
  {
    ContextFromAppend([], flat, k, v);
    GetSetPath(ContextFrom([], flat), KeyPath(k), v);
  }

  // ---------------------------------------------------------------------------
  // The checks of render_validate_and_inject

  /** The application and host facts the checks use. */
  datatype RenderParams = RenderParams(app: string, total: int, isolated: set<int>, adminLoopCpu: int)

  /** With a host log directory, `logging` must be a mapping, and its `log_dir`
      becomes `<host log dir>/<app>`. */
  function InjectLogDir(obj: Fields, hostLogDir: Option<string>, app: string): Result<Fields> {
    match hostLogDir
    case None => Ok(obj)
    case Some(dir) =>
      match Lookup(obj, "logging")
      case Some(VObj(logging)) => Ok(Put(obj, "logging", VObj(Put(logging, "log_dir", VStr(dir + "/" + app)))))
      case _ => Err(Exit(LoggingNotObject))
  }

  /** The injected `log_dir` is the only change: every other key of the
      configuration and of `logging` reads as before. */
  lemma InjectLogDirSpec(obj: Fields, dir: string, app: string, k: string)
    requires Lookup(obj, "logging").Some? && Lookup(obj, "logging").value.VObj?
    ensures InjectLogDir(obj, Some(dir), app).Ok?
    ensures var out := InjectLogDir(obj, Some(dir), app).value;
      var logging := Lookup(obj, "logging").value.fields;
      && Lookup(out, "logging").Some? && Lookup(out, "logging").value.VObj?
      && Lookup(Lookup(out, "logging").value.fields, "log_dir") == Some(VStr(dir + "/" + app))
      && (k != "log_dir" ==> Lookup(Lookup(out, "logging").value.fields, k) == Lookup(logging, k))
      && (k != "logging" ==> Lookup(out, k) == Lookup(obj, k))
  {
    var logging := Lookup(obj, "logging").value.fields;
    var newLogging := Put(logging, "log_dir", VStr(dir + "/" + app));
    LookupPut(obj, "logging", VObj(newLogging), "logging");
    LookupPut(obj, "logging", VObj(newLogging), k);
    LookupPut(logging, "log_dir", VStr(dir + "/" + app), "log_dir");
    LookupPut(logging, "log_dir", VStr(dir + "/" + app), k);
  }

  /** The injection fails exactly when a log directory is given and `logging`
      is not a mapping; without one the configuration is left alone. */
  lemma InjectLogDirFails(obj: Fields, hostLogDir: Option<string>, app: string)
    ensures InjectLogDir(obj, hostLogDir, app).Err? <==>
      hostLogDir.Some? && !(Lookup(obj, "logging").Some? && Lookup(obj, "logging").value.VObj?)
    ensures hostLogDir.None? ==> InjectLogDir(obj, hostLogDir, app) == Ok(obj)
  {
  }

  /** An event-loop entry named `admin_loop`. */
  predicate IsAdminLoop(loop: Value) {
    loop.VObj? && Lookup(loop.fields, "name").GetOr(VNull) == VStr("admin_loop")
  }

  /** An event-loop entry with `busy_spin` exactly `true`. */
  predicate IsBusySpin(loop: Value) {
    loop.VObj? && Lookup(loop.fields, "busy_spin").GetOr(VNull) == VBool(true)
  }

  /** `int(loop.get("cpu_id"))`. */
  function LoopCpu(loop: Value): Option<int>
    requires loop.VObj?
  {
    AsInt(Lookup(loop.fields, "cpu_id").GetOr(VNull))
  }

  /** The check of one event-loop entry, and the busy-usage map after it:
      non-mapping entries are skipped; otherwise the CPU must be an integer in
      range, an admin loop must not busy-spin and must use the admin CPU, and a
      busy-spinning loop must use an isolated CPU no other app owns, which it
      then claims. */
  function LoopStep(loop: Value, p: RenderParams, owners: map<int, string>): (Outcome, map<int, string>) {
    if !loop.VObj? then (Pass, owners)
    else
      match LoopCpu(loop)
      case None => (Fail(Exit(InvalidCpuId)), owners)
      case Some(cpu) =>
        var busySpin := Lookup(loop.fields, "busy_spin").GetOr(VNull);
        if !(0 <= cpu < p.total) then (Fail(Exit(CpuOutOfRange(cpu))), owners)
        else if IsAdminLoop(loop) && busySpin != VBool(false) then (Fail(Exit(AdminLoopBusySpin)), owners)
        else if IsAdminLoop(loop) && cpu != p.adminLoopCpu then (Fail(Exit(AdminCpuMismatch(cpu))), owners)
        else if busySpin != VBool(true) then (Pass, owners)
        else if cpu !in p.isolated then (Fail(Exit(BusySpinNotIsolated(cpu))), owners)
        else if !Claimable(owners, cpu, p.app) then (Fail(Exit(BusyCpuTaken(cpu, owners[cpu]))), owners)
        else (Pass, owners[cpu := p.app])
  }

  /** The checks of the entries in order, stopping at the first failure; claims
      made before a failure stay. */
  function CheckLoops(loops: seq<Value>, p: RenderParams, owners: map<int, string>): (Outcome, map<int, string>)
    decreases |loops|
  {
    if loops == [] then (Pass, owners)
    else
      var (o, owners') := LoopStep(loops[0], p, owners);
      if o.Fail? then (o, owners') else CheckLoops(loops[1..], p, owners')
  }

  /** What one entry must satisfy, judged against the busy-usage map the checks
      started from. */
  predicate LoopOk(loop: Value, p: RenderParams, owners: map<int, string>) {
    !loop.VObj? ||
    (LoopCpu(loop).Some? && 0 <= LoopCpu(loop).value < p.total
     && (IsAdminLoop(loop) ==>
           Lookup(loop.fields, "busy_spin").GetOr(VNull) == VBool(false) && LoopCpu(loop).value == p.adminLoopCpu)
     && (IsBusySpin(loop) ==> LoopCpu(loop).value in p.isolated && Claimable(owners, LoopCpu(loop).value, p.app)))
  }

  /** Claims by the app itself never change whether the app may claim a CPU. */
  predicate OnlyAppAdded(owners: map<int, string>, owners': map<int, string>, app: string) {
    (forall c | c in owners :: c in owners' && owners'[c] == owners[c])
    && (forall c | c in owners' && c !in owners :: owners'[c] == app)
  }

  lemma LoopStepSpec(loop: Value, p: RenderParams, owners: map<int, string>, base: map<int, string>)
    requires OnlyAppAdded(base, owners, p.app)
    ensures LoopStep(loop, p, owners).0.Pass? <==> LoopOk(loop, p, base)
    ensures OnlyAppAdded(base, LoopStep(loop, p, owners).1, p.app)
    ensures OnlyAppAdded(owners, LoopStep(loop, p, owners).1, p.app)
    ensures LoopStep(loop, p, owners).0.Pass? && IsBusySpin(loop) ==>
      LoopCpu(loop).value in LoopStep(loop, p, owners).1 && LoopStep(loop, p, owners).1[LoopCpu(loop).value] == p.app
    ensures forall c | c in owners :: c in LoopStep(loop, p, owners).1
  {
  }

  /** The entries pass exactly when each passes its own check against the map
      the checks started from; the map only ever gains claims by the app,
      whether or not the checks pass, and after a pass every busy-spinning CPU
      is the app's. */
  lemma {:induction false} CheckLoopsSpec(loops: seq<Value>, p: RenderParams, owners: map<int, string>,
                                          base: map<int, string>)
    requires OnlyAppAdded(base, owners, p.app)
    ensures CheckLoops(loops, p, owners).0.Pass? <==> forall i | 0 <= i < |loops| :: LoopOk(loops[i], p, base)
    ensures OnlyAppAdded(base, CheckLoops(loops, p, owners).1, p.app)
    ensures OnlyAppAdded(owners, CheckLoops(loops, p, owners).1, p.app)
    ensures CheckLoops(loops, p, owners).0.Pass? ==>
      forall i | 0 <= i < |loops| && IsBusySpin(loops[i]) ::
        LoopCpu(loops[i]).value in CheckLoops(loops, p, owners).1
        && CheckLoops(loops, p, owners).1[LoopCpu(loops[i]).value] == p.app
    decreases |loops|
  {
    if loops != [] {
      var (o, owners') := LoopStep(loops[0], p, owners);
      LoopStepSpec(loops[0], p, owners, base);
      assert forall i | 1 <= i < |loops| :: loops[i] == loops[1..][i - 1];
      if o.Pass? {
        CheckLoopsSpec(loops[1..], p, owners', base);
        CheckLoopsSpec(loops[1..], p, owners', owners');
        var final := CheckLoops(loops[1..], p, owners').1;
        if CheckLoops(loops, p, owners).0.Pass? {
          forall i | 0 <= i < |loops| && IsBusySpin(loops[i])
            ensures LoopCpu(loops[i]).value in final && final[LoopCpu(loops[i]).value] == p.app
          {
            if i == 0 {
              assert LoopCpu(loops[0]).value in owners';
            }
          }
        }
      }
    }
  }

  /** The whole post-parse check: the rendered value must be a mapping, the
      log directory is injected, `event_loops` must be a list whose entries
      pass, and at least one entry must be the admin loop. Returns the final
      configuration and the busy-usage map left behind. */
  function PostChecks(rendered: Value, hostLogDir: Option<string>, p: RenderParams, owners: map<int, string>)
    : (Result<Value>, map<int, string>)
  {
    if !rendered.VObj? then (Err(Exit(RenderedNotObject)), owners)
    else
      match InjectLogDir(rendered.fields, hostLogDir, p.app)
      case Err(e) => (Err(e), owners)
      case Ok(obj) =>
        var loops := Lookup(obj, "event_loops").GetOr(VNull);
        if !loops.VList? then (Err(Exit(EventLoopsNotList)), owners)
        else
          var (o, owners') := CheckLoops(loops.items, p, owners);
          if o.Fail? then (Err(o.error), owners')
          else if !(exists i | 0 <= i < |loops.items| :: IsAdminLoop(loops.items[i])) then
            (Err(Exit(NoAdminLoop)), owners')
          else (Ok(VObj(obj)), owners')
  }

  /** A rendered configuration is accepted exactly when it is a mapping whose
      `logging` (when a log directory is given) is a mapping, whose
      `event_loops` is a list of entries that pass their checks, and which has
      an admin loop. */
  lemma PostChecksSpec(rendered: Value, hostLogDir: Option<string>, p: RenderParams, owners: map<int, string>)
    ensures PostChecks(rendered, hostLogDir, p, owners).0.Ok? <==>
      rendered.VObj? && InjectLogDir(rendered.fields, hostLogDir, p.app).Ok?
      && var loops := Lookup(InjectLogDir(rendered.fields, hostLogDir, p.app).value, "event_loops").GetOr(VNull);
      && loops.VList?
      && (forall i | 0 <= i < |loops.items| :: LoopOk(loops.items[i], p, owners))
      && (exists i | 0 <= i < |loops.items| :: IsAdminLoop(loops.items[i]))
  {
    if rendered.VObj? && InjectLogDir(rendered.fields, hostLogDir, p.app).Ok? {
      var obj := InjectLogDir(rendered.fields, hostLogDir, p.app).value;
      var loops := Lookup(obj, "event_loops").GetOr(VNull);
      if loops.VList? {
        CheckLoopsSpec(loops.items, p, owners, owners);
        var o := CheckLoops(loops.items, p, owners).0;
        assert PostChecks(rendered, hostLogDir, p, owners).0.Ok? <==>
          o.Pass? && exists i | 0 <= i < |loops.items| :: IsAdminLoop(loops.items[i]);
      }
    }
  }

  /** Whatever the outcome, the busy-usage map only gains the app's own
      claims. */
  lemma PostChecksOnlyAppAdded(rendered: Value, hostLogDir: Option<string>, p: RenderParams, owners: map<int, string>)
    ensures OnlyAppAdded(owners, PostChecks(rendered, hostLogDir, p, owners).1, p.app)
  {
    if rendered.VObj? && InjectLogDir(rendered.fields, hostLogDir, p.app).Ok? {
      var obj := InjectLogDir(rendered.fields, hostLogDir, p.app).value;
      var loops := Lookup(obj, "event_loops").GetOr(VNull);
      if loops.VList? {
        CheckLoopsSpec(loops.items, p, owners, owners);
        assert PostChecks(rendered, hostLogDir, p, owners).1 == CheckLoops(loops.items, p, owners).1;
      }
    }
  }

  /** An admin loop that busy-spins is rejected. */
  lemma AdminLoopMustNotSpin(loop: Value, p: RenderParams, owners: map<int, string>)
    requires IsAdminLoop(loop) && Lookup(loop.fields, "busy_spin").GetOr(VNull) == VBool(true)
    ensures !LoopOk(loop, p, owners)
  {
  }

  /** One event-loop entry, claiming its CPU in the caller's busy-usage map. */
  method CheckLoop(loop: Value, p: RenderParams, busy: BusyUsage) returns (o: Outcome)
    modifies busy
    ensures (o, busy.owners) == LoopStep(loop, p, old(busy.owners))
  {
    if !loop.VObj? {
      return Pass;
    }
    var loopName := Lookup(loop.fields, "name").GetOr(VNull);
    var busySpin := Lookup(loop.fields, "busy_spin").GetOr(VNull);
    var cpuRaw := Lookup(loop.fields, "cpu_id").GetOr(VNull);
    var parsed := AsInt(cpuRaw);
    if parsed.None? {
      return Fail(Exit(InvalidCpuId));
    }
    var cpu := parsed.value;
    if cpu < 0 || cpu >= p.total {
      return Fail(Exit(CpuOutOfRange(cpu)));
    }
    if loopName == VStr("admin_loop") {
      if busySpin != VBool(false) {
        return Fail(Exit(AdminLoopBusySpin));
      }
      if cpu != p.adminLoopCpu {
        return Fail(Exit(AdminCpuMismatch(cpu)));
      }
    }
    if busySpin == VBool(true) {
      if cpu !in p.isolated {
        return Fail(Exit(BusySpinNotIsolated(cpu)));
      }
      if cpu in busy.owners && busy.owners[cpu] != p.app {
        return Fail(Exit(BusyCpuTaken(cpu, busy.owners[cpu])));
      }
      busy.owners := busy.owners[cpu := p.app];
    }
    o := Pass;
  }

  /** The `for loop in loops_obj` pass: each entry checked in order, stopping
      at the first failure, noting whether an admin loop was seen. */
  method CheckEventLoops(items: seq<Value>, p: RenderParams, busy: BusyUsage)
    returns (o: Outcome, hasAdminLoop: bool)
    modifies busy
    ensures (o, busy.owners) == CheckLoops(items, p, old(busy.owners))
    ensures o.Pass? ==> (hasAdminLoop <==> exists j | 0 <= j < |items| :: IsAdminLoop(items[j]))
  {
    hasAdminLoop := false;
    var i := 0;
    while i < |items|
      invariant 0 <= i <= |items|
      invariant CheckLoops(items, p, old(busy.owners)) == CheckLoops(items[i..], p, busy.owners)
      invariant hasAdminLoop <==> exists j | 0 <= j < i :: IsAdminLoop(items[j])
    {
      var loop := items[i];
      if loop.VObj? && Lookup(loop.fields, "name").GetOr(VNull) == VStr("admin_loop") {
        hasAdminLoop := true;
      }
      o := CheckLoop(loop, p, busy);
      assert items[i..][1..] == items[i + 1..];
      if o.Fail? {
        return;
      }
      i := i + 1;
    }
    o := Pass;
  }

  /** render_validate_and_inject from the parsed value on: the checks and the
      log-directory injection, writing busy-spin claims into `busy`. */
  method ValidateAndInject(rendered: Value, hostLogDir: Option<string>, p: RenderParams, busy: BusyUsage)
    returns (r: Result<Value>)
    modifies busy
    ensures (r, busy.owners) == PostChecks(rendered, hostLogDir, p, old(busy.owners))
  {
    if !rendered.VObj? {
      return Err(Exit(RenderedNotObject));
    }
    var obj := rendered.fields;
    if hostLogDir.Some? {
      var logging := Lookup(obj, "logging");
      if !(logging.Some? && logging.value.VObj?) {
        return Err(Exit(LoggingNotObject));
      }
      obj := Put(obj, "logging", VObj(Put(logging.value.fields, "log_dir", VStr(hostLogDir.value + "/" + p.app))));
    }
    var loops := Lookup(obj, "event_loops").GetOr(VNull);
    if !loops.VList? {
      return Err(Exit(EventLoopsNotList));
    }
    var o, hasAdminLoop := CheckEventLoops(loops.items, p, busy);
    if o.Fail? {
      return Err(o.error);
    }
    if !hasAdminLoop {
      return Err(Exit(NoAdminLoop));
    }
    r := Ok(VObj(obj));
  }
}
