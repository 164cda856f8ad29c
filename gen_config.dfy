/** The generation driver (tools/gen_config.py): the host part of
    validate_and_render, the claim of each template's CPUs on the run's
    busy-usage table, the placeholder substitution and the check for
    leftover placeholders, and the two passes of generate_all. */
module GenConfig {
  import opened Base
  import opened Text
  import opened Values
  import opened AppValidator
  import CpuTopology
  import DeploymentLoader
  import CrossRefResolver
  import AppIndexer
  import SchemaValidation

  /** HOST_BUSY_ISOLATED_USAGE: per (datacenter, host), isolated CPU -> app. */
  type Busy = map<Loc, map<int, string>>

  /** APP_GLOBAL_INDEX: application name -> (datacenter, host). */
  type Index = map<string, Loc>

  // ---------------------------------------------------------------------------
  // The host part of validate_and_render

  /** `host_shared_cpus or dep_shared_cpus`: the host's shared CPUs, unless it
      declares none. */
  function EffectiveShared(hostShared: set<int>, depShared: set<int>): set<int> {
    if hostShared != {} then hostShared else depShared
  }

  /** `int(v)`, raising when Python's conversion fails. */
  function IntOf(v: Value): Result<int> {
    match AsInt(v)
    case Some(i) => Ok(i)
    case None => Err(Raise(NotAnInteger))
  }

  /** `parse_cpu_set(str(f.get(k, "")))`. */
  function CpuSetField(f: Fields, k: string): Result<set<int>> {
    CpuTopology.CpuSetOf(PyStr(Lookup(f, k).GetOr(VStr(""))))
  }

  /** gen_config's own load_deployment for the host-to-apps layout: the same
      lookups and exits as the shared loader, but its `shared_cpus` is always
      empty, because the hosts file supplies the shared CPUs. */
  function LoadDeploymentHere(repo: DeploymentLoader.Repo, dc: string, host: string, app: string)
    : Result<DeploymentLoader.Deployment>
  {
    var dep :- DeploymentLoader.LoadDeployment(repo, dc, host, app);
    Ok(dep.(sharedCpus := VStr("")))
  }

  /** The start of validate_and_render: the host's CPU count and sets, checked
      (every CPU in range, then no overlap) before the NUMA map is built and
      the deployment is loaded; the shared set is the host's, or the
      deployment's when the host has none. */
  function PrepareHost(repo: DeploymentLoader.Repo, loc: Loc, app: string)
    : Result<(HostCpus, DeploymentLoader.Deployment)>
  {
    var host :- DeploymentLoader.LoadDatacenter(repo, loc.dc, loc.host);
    var total :- IntOf(Lookup(host, "cpus").GetOr(VInt(0)));
    var isolated :- CpuSetField(host, "isolated_cpus");
    var hostShared :- CpuSetField(host, "shared_cpus");
    var check := HostCpuSetsCheck(HostCpus(total, isolated, hostShared));
    if check.Fail? then Err(check.error)
    else
      var _ :- CpuTopology.NumaMapOf(VObj(host));
      var dep :- LoadDeploymentHere(repo, loc.dc, loc.host, app);
      var depShared :- CpuTopology.CpuSetOf(PyStr(dep.sharedCpus));
      Ok((HostCpus(total, isolated, EffectiveShared(hostShared, depShared)), dep))
  }

  /** The deployment as gen_config loads it never names shared CPUs, so the
      fallback is never taken. */
  lemma LoadDeploymentHereNoShared(repo: DeploymentLoader.Repo, dc: string, host: string, app: string)
    requires LoadDeploymentHere(repo, dc, host, app).Ok?
    ensures CpuTopology.CpuSetOf(PyStr(LoadDeploymentHere(repo, dc, host, app).value.sharedCpus)) == Ok({})
  {
    CpuTopology.BlankParsesEmpty("");
  }

  /** Once the host's own fields parse: a bad host partition fails before the
      deployment is looked at, and a prepared host has its own CPU count and
      isolated set, both host sets in range and disjoint, and exactly the
      host's shared set, even when that is empty. */
  lemma PrepareHostSpec(repo: DeploymentLoader.Repo, loc: Loc, app: string, host: Fields,
                        total: int, isolated: set<int>, hostShared: set<int>)
    requires DeploymentLoader.LoadDatacenter(repo, loc.dc, loc.host) == Ok(host)
    requires IntOf(Lookup(host, "cpus").GetOr(VInt(0))) == Ok(total)
    requires CpuSetField(host, "isolated_cpus") == Ok(isolated)
    requires CpuSetField(host, "shared_cpus") == Ok(hostShared)
    ensures HostCpuSetsCheck(HostCpus(total, isolated, hostShared)).Fail? ==>
      PrepareHost(repo, loc, app) == Err(HostCpuSetsCheck(HostCpus(total, isolated, hostShared)).error)
    ensures PrepareHost(repo, loc, app).Ok? ==>
      var (cpus, dep) := PrepareHost(repo, loc, app).value;
      && cpus == HostCpus(total, isolated, hostShared)
      && (forall c | c in isolated + hostShared :: 0 <= c < total)
      && isolated * hostShared == {}
      && DeploymentLoader.LoadDeployment(repo, loc.dc, loc.host, app).Ok?
      && dep == DeploymentLoader.LoadDeployment(repo, loc.dc, loc.host, app).value.(sharedCpus := VStr(""))
  {
    if PrepareHost(repo, loc, app).Ok? {
      LoadDeploymentHereNoShared(repo, loc.dc, loc.host, app);
    }
  }

  // ---------------------------------------------------------------------------
  // The CPUs of one template, claimed on the run's busy-usage table

  /** A template's `cfg_envs`: a list gives its first environment (an empty
      list exits), a mapping is the environment itself, anything else exits. */
  function CfgEnvOf(v: Value): Result<Value> {
    match v
    case VList(items) => if items == [] then Err(Exit(CfgEnvsEmpty)) else Ok(items[0])
    case VObj(_) => Ok(v)
    case _ => Err(Exit(CfgEnvsBadType))
  }

  /** The template must be named; the three role CPUs are read from its
      environment (indexing anything but a mapping raises TypeError). */
  function TemplateCpus(tmpl: Fields): Result<RoleCpus> {
    if !Truthy(Lookup(tmpl, "name").GetOr(VNull)) then Err(Exit(TemplateNameMissing))
    else
      var env :- CfgEnvOf(Lookup(tmpl, "cfg_envs").GetOr(VNull));
      if !env.VObj? then Err(Raise(BadShape))
      else ParseCpuFields(env.fields)
  }

  /** Only the first environment of a `cfg_envs` list is read, exactly as a
      single mapping would be; an empty list exits. */
  lemma CfgEnvsForms(tmplList: Fields, tmplMap: Fields, env: Fields, rest: seq<Value>)
    requires Lookup(tmplList, "name") == Lookup(tmplMap, "name")
    requires Truthy(Lookup(tmplList, "name").GetOr(VNull))
    requires Lookup(tmplList, "cfg_envs") == Some(VList([VObj(env)] + rest))
    requires Lookup(tmplMap, "cfg_envs") == Some(VObj(env))
    ensures TemplateCpus(tmplList) == TemplateCpus(tmplMap) == ParseCpuFields(env)
  {
  }

  lemma CfgEnvsEmptyList(tmpl: Fields)
    requires Truthy(Lookup(tmpl, "name").GetOr(VNull))
    requires Lookup(tmpl, "cfg_envs") == Some(VList([]))
    ensures TemplateCpus(tmpl) == Err(Exit(CfgEnvsEmpty))
  {
  }

  /** The table of one host, as `setdefault` would find it. */
  function OwnersAt(busy: Busy, loc: Loc): map<int, string> {
    if loc in busy then busy[loc] else map[]
  }

  /** One template's CPU checks on the run's table: the host's entry is created
      only once the main loop CPU is known to be isolated, and then receives
      what the allocation leaves in it. */
  function ClaimStep(busy: Busy, loc: Loc, app: string, host: HostCpus, tmpl: Fields): (Outcome, Busy) {
    match TemplateCpus(tmpl)
    case Err(e) => (Fail(e), busy)
    case Ok(cpus) =>
      if cpus.main !in host.isolated then (Fail(Exit(MainLoopNotIsolated(cpus.main))), busy)
      else
        var (o, owners) := Allocate(OwnersAt(busy, loc), host, cpus, app);
        (o, busy[loc := owners])
  }

  /** A template passes exactly when its CPUs parse and their allocation on
      this host's table passes; the tables of other hosts are untouched, and
      this host's table changes only by the allocation (not at all when the
      CPUs do not parse or the main loop CPU is not isolated). */
  lemma ClaimStepSpec(busy: Busy, loc: Loc, app: string, host: HostCpus, tmpl: Fields)
    ensures ClaimStep(busy, loc, app, host, tmpl).0.Pass? <==>
      TemplateCpus(tmpl).Ok? && Allocate(OwnersAt(busy, loc), host, TemplateCpus(tmpl).value, app).0.Pass?
    ensures var after := ClaimStep(busy, loc, app, host, tmpl).1;
      forall l | l != loc :: (l in after <==> l in busy) && (l in busy ==> after[l] == busy[l])
    ensures TemplateCpus(tmpl).Err? || TemplateCpus(tmpl).value.main !in host.isolated ==>
      ClaimStep(busy, loc, app, host, tmpl).1 == busy
    ensures TemplateCpus(tmpl).Ok? && TemplateCpus(tmpl).value.main in host.isolated ==>
      ClaimStep(busy, loc, app, host, tmpl).1
      == busy[loc := Allocate(OwnersAt(busy, loc), host, TemplateCpus(tmpl).value, app).1]
  {
  }

  /** The main loop CPU is claimed before the shared-set checks run: a template
      whose log CPU is not shared still leaves its claim behind. */
  lemma ClaimBeforeSharedChecks(busy: Busy, loc: Loc, app: string, host: HostCpus, tmpl: Fields, cpus: RoleCpus)
    requires TemplateCpus(tmpl) == Ok(cpus)
    requires cpus.main in host.isolated && Claimable(OwnersAt(busy, loc), cpus.main, app)
    requires cpus.log !in host.shared
    ensures ClaimStep(busy, loc, app, host, tmpl)
         == (Fail(Exit(LogCpuNotShared(cpus.log))), busy[loc := OwnersAt(busy, loc)[cpus.main := app]])
  {
  }

  /** Two applications of one host cannot both claim the same busy-spin CPU. */
  lemma ClaimExclusive(busy: Busy, loc: Loc, host: HostCpus, app1: string, tmpl1: Fields,
                       app2: string, tmpl2: Fields)
    requires app1 != app2
    requires TemplateCpus(tmpl1).Ok? && TemplateCpus(tmpl2).Ok?
    requires TemplateCpus(tmpl1).value.main == TemplateCpus(tmpl2).value.main
    requires ClaimStep(busy, loc, app1, host, tmpl1).0.Pass?
    ensures var mid := ClaimStep(busy, loc, app1, host, tmpl1).1;
      ClaimStep(mid, loc, app2, host, tmpl2)
      == (Fail(Exit(BusyCpuTaken(TemplateCpus(tmpl2).value.main, app1))), mid)
  {
    var cpus1 := TemplateCpus(tmpl1).value;
    var cpus2 := TemplateCpus(tmpl2).value;
    var owners := OwnersAt(busy, loc);
    AllocatePassIff(owners, host, cpus1, app1);
    var claimed := Allocate(owners, host, cpus1, app1).1;
    var mid := busy[loc := claimed];
    assert ClaimStep(busy, loc, app1, host, tmpl1).1 == mid;
    assert OwnersAt(mid, loc) == claimed;
    AllocateExclusive(owners, host, cpus1, app1, cpus2, app2);
    assert cpus2.main in host.isolated;
    assert mid[loc := claimed] == mid;
  }

  // ---------------------------------------------------------------------------
  // Placeholder substitution: re.sub(r"{{\s*" + re.escape(key) + r"\s*}}", value, text)

  /** The end of a match of `{{\s*KEY\s*}}` at `i`, with KEY taken literally.
      Each whitespace run is taken whole, which is what the regular expression
      does whenever KEY does not begin with whitespace. */
  function KeyMatchAt(s: string, i: nat, key: string): (e: Option<nat>)
    requires i <= |s|
    ensures e.Some? ==> i + 4 + |key| <= e.value <= |s|
  {
    if !OccursAt(s, "{{", i) then None
    else
      var a := CrossRefResolver.SpanSpace(s, i + 2);
      if !OccursAt(s, key, a) then None
      else
        var b := CrossRefResolver.SpanSpace(s, a + |key|);
        if OccursAt(s, "}}", b) then Some(b + 2) else None
  }

  /** `re.sub` for one key from position `i`: each match, found scanning left
      to right and resuming after the previous one, becomes `value`. */
  function SubstFrom(s: string, i: nat, key: string, value: string): string
    requires i <= |s|
    decreases |s| - i
  {
    if i == |s| then []
    else
      match KeyMatchAt(s, i, key)
      case Some(e) => value + SubstFrom(s, e, key, value)
      case None => [s[i]] + SubstFrom(s, i + 1, key, value)
  }

  function Subst(s: string, key: string, value: string): string {
    SubstFrom(s, 0, key, value)
  }

  /** Every replacement applied in turn, in the dictionary's order. */
  function SubstAll(text: string, reps: seq<(string, string)>): string
    decreases |reps|
  {
    if reps == [] then text else SubstAll(Subst(text, reps[0].0, reps[0].1), reps[1..])
  }

  /** `(str(key), str(value))` for every entry of the replacements dictionary. */
  function Replacements(f: Fields): seq<(string, string)> {
    seq(|f|, i requires 0 <= i < |f| => (f[i].0, PyStr(f[i].1)))
  }

  /** `replacements.update(cross_refs)`, the references taken in the order
      given. */
  function Update(f: Fields, refs: seq<(string, string)>): Fields
    decreases |refs|
  {
    if refs == [] then f else Update(Put(f, refs[0].0, VStr(refs[0].1)), refs[1..])
  }

  /** After the update every reference (distinct names, as the keys of a
      dictionary are) reads its own value, and every other key reads as
      before. */
  lemma {:induction false} UpdateLookup(f: Fields, refs: seq<(string, string)>, k: string)
    requires forall i, j | 0 <= i < j < |refs| :: refs[i].0 != refs[j].0
    ensures forall i | 0 <= i < |refs| && refs[i].0 == k :: Lookup(Update(f, refs), k) == Some(VStr(refs[i].1))
    ensures (forall i | 0 <= i < |refs| :: refs[i].0 != k) ==> Lookup(Update(f, refs), k) == Lookup(f, k)
    decreases |refs|
  {
    if refs != [] {
      var rest := refs[1..];
      assert forall i | 1 <= i < |refs| :: refs[i] == rest[i - 1];
      LookupPut(f, refs[0].0, VStr(refs[0].1), k);
      UpdateLookup(Put(f, refs[0].0, VStr(refs[0].1)), rest, k);
    }
  }

  /** Text without a match of the key is left as it is. */
  lemma {:induction false} SubstFromNoMatch(s: string, i: nat, key: string, value: string)
    requires i <= |s|
    requires forall k | i <= k < |s| :: KeyMatchAt(s, k, key).None?
    ensures SubstFrom(s, i, key, value) == s[i..]
    decreases |s| - i
  {
    if i < |s| {
      SubstFromNoMatch(s, i + 1, key, value);
      assert s[i..] == [s[i]] + s[i + 1..];
    }
  }

  /** When no key matches anywhere in the text, the substitution changes
      nothing. */
  lemma {:induction false} SubstAllNoMatch(text: string, reps: seq<(string, string)>)
    requires forall r, k | r in reps && 0 <= k < |text| :: KeyMatchAt(text, k, r.0).None?
    ensures SubstAll(text, reps) == text
    decreases |reps|
  {
    if reps != [] {
      SubstFromNoMatch(text, 0, reps[0].0, reps[0].1);
      assert text[0..] == text;
      SubstAllNoMatch(text, reps[1..]);
    }
  }

  /** A placeholder `{{ key }}`, with any whitespace inside the braces, is a
      match of the key that spans it. */
  lemma PlaceholderMatches(w1: string, key: string, w2: string)
    requires forall k | 0 <= k < |w1| :: IsSpace(w1[k])
    requires forall k | 0 <= k < |w2| :: IsSpace(w2[k])
    requires key != [] && !IsSpace(key[0])
    ensures KeyMatchAt("{{" + w1 + key + w2 + "}}", 0, key) == Some(|w1| + |key| + |w2| + 4)
  {
    PlaceholderShape(w1, key, w2);
    KeyMatchAtExact("{{" + w1 + key + w2 + "}}", key, 2 + |w1|, 2 + |w1| + |key| + |w2|);
  }

  /** Where the parts of a placeholder sit in its text. */
  lemma PlaceholderShape(w1: string, key: string, w2: string)
    requires forall k | 0 <= k < |w1| :: IsSpace(w1[k])
    requires forall k | 0 <= k < |w2| :: IsSpace(w2[k])
    requires key != []
    ensures var s := "{{" + w1 + key + w2 + "}}";
      && |s| == |w1| + |key| + |w2| + 4
      && OccursAt(s, "{{", 0)
      && (forall k | 2 <= k < 2 + |w1| :: IsSpace(s[k]))
      && OccursAt(s, key, 2 + |w1|)
      && (forall k | 2 + |w1| + |key| <= k < 2 + |w1| + |key| + |w2| :: IsSpace(s[k]))
      && OccursAt(s, "}}", 2 + |w1| + |key| + |w2|)
  {
    var s := "{{" + w1 + key + w2 + "}}";
    var a := 2 + |w1|;
    var b := a + |key| + |w2|;
    assert s[..2] == "{{";
    forall k | 2 <= k < a ensures IsSpace(s[k]) {
      assert s[k] == w1[k - 2];
    }
    assert s[a..a + |key|] == key;
    forall k | a + |key| <= k < b ensures IsSpace(s[k]) {
      assert s[k] == w2[k - a - |key|];
    }
    assert s[b..b + 2] == "}}";
  }

  /** `{{`, spaces, the key, spaces and `}}` from the start of the text are
      a match of the key. */
  lemma KeyMatchAtExact(s: string, key: string, a: nat, b: nat)
    requires key != [] && !IsSpace(key[0])
    requires 2 <= a && a + |key| <= b && b + 2 <= |s|
    requires OccursAt(s, "{{", 0)
    requires forall k | 2 <= k < a :: IsSpace(s[k])
    requires OccursAt(s, key, a)
    requires forall k | a + |key| <= k < b :: IsSpace(s[k])
    requires OccursAt(s, "}}", b)
    ensures KeyMatchAt(s, 0, key) == Some(b + 2)
  {
    assert s[a] == key[0];
    CrossRefResolver.SpanSpaceExact(s, 2, a);
    assert !IsSpace(s[b]) by { assert s[b] == s[b..b + 2][0] == '}'; }
    CrossRefResolver.SpanSpaceExact(s, a + |key|, b);
    KeyMatchAtSpans(s, 0, key, a, b);
  }

  lemma KeyMatchAtSpans(s: string, i: nat, key: string, a: nat, b: nat)
    requires i <= |s| && OccursAt(s, "{{", i)
    requires i + 2 <= |s| && CrossRefResolver.SpanSpace(s, i + 2) == a && OccursAt(s, key, a)
    requires a + |key| <= |s| && CrossRefResolver.SpanSpace(s, a + |key|) == b && OccursAt(s, "}}", b)
    ensures KeyMatchAt(s, i, key) == Some(b + 2)
  {
  }

  /** ... and is replaced by the value. */
  lemma SubstPlaceholder(w1: string, key: string, w2: string, value: string)
    requires forall k | 0 <= k < |w1| :: IsSpace(w1[k])
    requires forall k | 0 <= k < |w2| :: IsSpace(w2[k])
    requires key != [] && !IsSpace(key[0])
    ensures Subst("{{" + w1 + key + w2 + "}}", key, value) == value
  {
    var s := "{{" + w1 + key + w2 + "}}";
    PlaceholderMatches(w1, key, w2);
    assert SubstFrom(s, |s|, key, value) == [];
  }

  // ---------------------------------------------------------------------------
  // Leftover placeholders: re.findall(r"{{\s*[^}]+\s*}}", rendered)

  /** The end of the run of characters other than `}` from `i`. */
  function SpanOpen(s: string, i: nat): (j: nat)
    requires i <= |s|
    ensures i <= j <= |s|
    ensures forall k | i <= k < j :: s[k] != '}'
    ensures j == |s| || s[j] == '}'
    decreases |s| - i
  {
    if i < |s| && s[i] != '}' then SpanOpen(s, i + 1) else i
  }

  /** The end of a match of the leftover pattern at `i`. Its body can hold no
      `}`, so it ends at the first `}`, which must start `}}`, and it must not
      be empty (spaces alone count, `[^}]+` takes them). */
  function LeftoverAt(s: string, i: nat): (e: Option<nat>)
    requires i <= |s|
    ensures e.Some? ==> i + 5 <= e.value <= |s|
  {
    if !OccursAt(s, "{{", i) then None
    else
      var j := SpanOpen(s, i + 2);
      if j > i + 2 && OccursAt(s, "}}", j) then Some(j + 2) else None
  }

  /** A whole leftover placeholder: `{{`, a non-empty body without `}`, `}}`. */
  predicate IsLeftover(x: string) {
    |x| >= 5 && x[..2] == "{{" && x[|x| - 2..] == "}}" && forall k | 2 <= k < |x| - 2 :: x[k] != '}'
  }

  /** What the pattern matches at `i` is a whole leftover, and a whole leftover
      is matched from its start to its end. */
  lemma LeftoverAtShape(s: string, i: nat)
    requires i <= |s|
    ensures LeftoverAt(s, i).Some? ==> IsLeftover(s[i..LeftoverAt(s, i).value])
    ensures IsLeftover(s) ==> LeftoverAt(s, 0) == Some(|s|)
  {
    if LeftoverAt(s, i).Some? {
      var e := LeftoverAt(s, i).value;
      var x := s[i..e];
      assert forall k | 2 <= k < |x| - 2 :: x[k] == s[i + k];
    }
    if IsLeftover(s) {
      assert s[0..2] == s[..2];
      assert s[|s| - 2] == '}';
    }
  }

  /** `re.findall`: the non-overlapping matches from `i`, left to right. */
  function Leftovers(s: string, i: nat): (found: seq<string>)
    requires i <= |s|
    ensures forall x | x in found :: IsLeftover(x)
    decreases |s| - i
  {
    if i == |s| then []
    else
      match LeftoverAt(s, i)
      case Some(e) => LeftoverAtShape(s, i); [s[i..e]] + Leftovers(s, e)
      case None => Leftovers(s, i + 1)
  }

  predicate NoLeftover(s: string) {
    forall k | 0 <= k <= |s| :: LeftoverAt(s, k).None?
  }

  /** findall finds nothing exactly when the pattern matches nowhere. */
  lemma {:induction false} LeftoversEmpty(s: string, i: nat)
    requires i <= |s|
    ensures Leftovers(s, i) == [] <==> forall k | i <= k <= |s| :: LeftoverAt(s, k).None?
    decreases |s| - i
  {
    if i < |s| && LeftoverAt(s, i).None? {
      LeftoversEmpty(s, i + 1);
    }
  }

  // ---------------------------------------------------------------------------
  // sorted(set(leftover))

  /** Python's order on strings: by code point, a proper prefix first. */
  predicate Below(a: string, b: string)
    decreases |a|
  {
    if a == [] then b != []
    else if b == [] then false
    else if a[0] != b[0] then a[0] < b[0]
    else Below(a[1..], b[1..])
  }

  lemma {:induction false} BelowIrreflexive(a: string)
    ensures !Below(a, a)
    decreases |a|
  {
    if a != [] {
      BelowIrreflexive(a[1..]);
    }
  }

  lemma {:induction false} BelowTransitive(a: string, b: string, c: string)
    requires Below(a, b) && Below(b, c)
    ensures Below(a, c)
    decreases |a|
  {
    if a != [] && a[0] == b[0] && b[0] == c[0] {
      BelowTransitive(a[1..], b[1..], c[1..]);
    }
  }

  lemma {:induction false} BelowTotal(a: string, b: string)
    ensures a == b || Below(a, b) || Below(b, a)
    decreases |a|
  {
    if a != [] && b != [] && a[0] == b[0] {
      BelowTotal(a[1..], b[1..]);
      if a[1..] == b[1..] {
        assert a == [a[0]] + a[1..];
        assert b == [b[0]] + b[1..];
      }
    }
  }

  predicate StrictlySorted(xs: seq<string>) {
    forall i, j | 0 <= i < j < |xs| :: Below(xs[i], xs[j])
  }

  lemma SortedCons(x: string, xs: seq<string>)
    requires StrictlySorted(xs)
    requires forall y | y in xs :: Below(x, y)
    ensures StrictlySorted([x] + xs)
  {
    var r := [x] + xs;
    forall i, j | 0 <= i < j < |r| ensures Below(r[i], r[j]) {
      assert r[j] == xs[j - 1];
      if i > 0 {
        assert r[i] == xs[i - 1];
      }
    }
  }

  /** `x` placed in a strictly sorted sequence, unless it is already there. */
  function Insert(x: string, xs: seq<string>): (r: seq<string>)
    requires StrictlySorted(xs)
    ensures StrictlySorted(r)
    ensures forall y :: y in r <==> y == x || y in xs
    decreases |xs|
  {
    if xs == [] then [x]
    else if x == xs[0] then xs
    else if Below(x, xs[0]) then
      InsertFront(x, xs);
      [x] + xs
    else
      BelowTotal(x, xs[0]);
      var r' := Insert(x, xs[1..]);
      InsertBehind(x, xs, r');
      [xs[0]] + r'
  }

  lemma InsertFront(x: string, xs: seq<string>)
    requires StrictlySorted(xs) && xs != [] && Below(x, xs[0])
    ensures StrictlySorted([x] + xs)
  {
    forall y | y in xs ensures Below(x, y) {
      var k :| 0 <= k < |xs| && xs[k] == y;
      if k > 0 {
        BelowTransitive(x, xs[0], y);
      }
    }
    SortedCons(x, xs);
  }

  lemma InsertBehind(x: string, xs: seq<string>, r': seq<string>)
    requires StrictlySorted(xs) && xs != [] && Below(xs[0], x)
    requires StrictlySorted(r') && forall y :: y in r' <==> y == x || y in xs[1..]
    ensures StrictlySorted([xs[0]] + r')
  {
    forall y | y in r' ensures Below(xs[0], y) {
      if y != x {
        var k :| 0 <= k < |xs[1..]| && xs[1..][k] == y;
        assert xs[k + 1] == y;
      }
    }
    SortedCons(xs[0], r');
  }

  /** `sorted(set(xs))`: the distinct elements of `xs` in increasing order. */
  function SortedDistinct(xs: seq<string>): (r: seq<string>)
    ensures StrictlySorted(r)
    ensures forall y :: y in r <==> y in xs
    decreases |xs|
  {
    if xs == [] then [] else Insert(xs[0], SortedDistinct(xs[1..]))
  }

  lemma HeadIn(b: seq<string>)
    ensures b != [] ==> b[0] in b
  {
  }

  /** A strictly sorted sequence is determined by its elements, so the
      reported list is THE sorted list of the distinct leftovers. */
  lemma {:induction false} SortedUnique(a: seq<string>, b: seq<string>)
    requires StrictlySorted(a) && StrictlySorted(b)
    requires forall y :: y in a <==> y in b
    ensures a == b
    decreases |a|
  {
    if a == [] {
      if b != [] {
        HeadIn(b);
        assert false;
      }
    } else {
      assert a[0] in b && b[0] in a;
      if a[0] != b[0] {
        var i :| 0 <= i < |a| && a[i] == b[0];
        var j :| 0 <= j < |b| && b[j] == a[0];
        assert Below(a[0], b[0]) && Below(b[0], a[0]);
        BelowTransitive(a[0], b[0], a[0]);
        BelowIrreflexive(a[0]);
        assert false;
      }
      forall y ensures y in a[1..] <==> y in b[1..] {
        if y in a[1..] {
          var k :| 0 <= k < |a[1..]| && a[1..][k] == y;
          assert a[k + 1] == y;
          BelowIrreflexive(a[0]);
          assert y != b[0] && y in b;
          var j :| 0 <= j < |b| && b[j] == y;
          assert b[1..][j - 1] == y;
        }
        if y in b[1..] {
          var k :| 0 <= k < |b[1..]| && b[1..][k] == y;
          assert b[k + 1] == y;
          BelowIrreflexive(b[0]);
          assert y != a[0] && y in a;
          var j :| 0 <= j < |a| && a[j] == y;
          assert a[1..][j - 1] == y;
        }
      }
      SortedUnique(a[1..], b[1..]);
      assert a == [a[0]] + a[1..];
      assert b == [b[0]] + b[1..];
    }
  }

  // ---------------------------------------------------------------------------
  // Rendering one template's text

  /** The leftover check: any leftover placeholder fails, naming the distinct
      leftovers in sorted order. */
  function CheckLeftovers(rendered: string): Result<string> {
    var found := Leftovers(rendered, 0);
    if found != [] then Err(Exit(UnresolvedPlaceholders(SortedDistinct(found)))) else Ok(rendered)
  }

  /** Substitution, then the leftover check. */
  function Render(text: string, reps: seq<(string, string)>): Result<string> {
    CheckLeftovers(SubstAll(text, reps))
  }

  /** Rendering succeeds exactly when no leftover placeholder remains after the
      substitution, and then gives the substituted text; otherwise it names
      every distinct leftover that findall reports, strictly sorted, and
      nothing else. */
  lemma RenderSpec(text: string, reps: seq<(string, string)>)
    ensures Render(text, reps).Ok? <==> NoLeftover(SubstAll(text, reps))
    ensures Render(text, reps).Ok? ==> Render(text, reps).value == SubstAll(text, reps)
    ensures Render(text, reps).Err? ==>
      && Render(text, reps).error.Exit?
      && Render(text, reps).error.reason.UnresolvedPlaceholders?
      && var names := Render(text, reps).error.reason.names;
      && names != [] && StrictlySorted(names)
      && (forall x :: x in names <==> x in Leftovers(SubstAll(text, reps), 0))
      && (forall x | x in names :: IsLeftover(x))
  {
    LeftoversEmpty(SubstAll(text, reps), 0);
    if Render(text, reps).Err? {
      var found := Leftovers(SubstAll(text, reps), 0);
      assert found[0] in found;
      assert found[0] in SortedDistinct(found);
    }
  }

  /** Text without `{{` comes out as it went in. */
  lemma PlainTextUnchanged(text: string, reps: seq<(string, string)>)
    requires forall k | 0 <= k <= |text| :: !OccursAt(text, "{{", k)
    ensures Render(text, reps) == Ok(text)
  {
    SubstAllNoMatch(text, reps);
    LeftoversEmpty(text, 0);
  }

  /** A placeholder for which no replacement exists is reported. */
  lemma UnknownPlaceholderReported(text: string, reps: seq<(string, string)>, k: nat)
    requires k <= |text| && LeftoverAt(text, k).Some?
    requires forall r, j | r in reps && 0 <= j < |text| :: KeyMatchAt(text, j, r.0).None?
    ensures Render(text, reps).Err?
    ensures Render(text, reps).error.reason.UnresolvedPlaceholders?
  {
    SubstAllNoMatch(text, reps);
    LeftoversEmpty(text, 0);
  }

  /** A template that is one placeholder renders to its value, when the value
      holds no placeholder of its own. */
  lemma RenderPlaceholder(w1: string, key: string, w2: string, value: string)
    requires forall k | 0 <= k < |w1| :: IsSpace(w1[k])
    requires forall k | 0 <= k < |w2| :: IsSpace(w2[k])
    requires key != [] && !IsSpace(key[0])
    requires NoLeftover(value)
    ensures Render("{{" + w1 + key + w2 + "}}", [(key, value)]) == Ok(value)
  {
    SubstPlaceholder(w1, key, w2, value);
    assert SubstAll("{{" + w1 + key + w2 + "}}", [(key, value)]) == value;
    LeftoversEmpty(value, 0);
  }

  /** The substitution loop of validate_and_render and the leftover check. */
  method RenderTemplate(text: string, reps: seq<(string, string)>) returns (r: Result<string>)
    ensures r == Render(text, reps)
  {
    var rendered := text;
    for i := 0 to |reps|
      invariant SubstAll(text, reps) == SubstAll(rendered, reps[i..])
    {
      assert reps[i..][1..] == reps[i + 1..];
      rendered := Subst(rendered, reps[i].0, reps[i].1);
    }
    r := CheckLeftovers(rendered);
  }

  // ---------------------------------------------------------------------------
  // generate_all

  /** validate_and_render for one application: given the index and the busy
      table it reads, its outcome and the busy table it leaves. */
  type RenderApp = (Index, Busy, Loc, string) -> (Outcome, Busy)

  /** An exception that is not a SystemExit: it escapes the per-application
      `try` and ends the run. */
  predicate Raised(o: Outcome) {
    o.Fail? && o.error.Raise?
  }

  /** The deployments root as the index reads it. */
  function DirsOf(dcs: seq<SchemaValidation.DcFiles>): seq<AppIndexer.DcDir> {
    seq(|dcs|, i requires 0 <= i < |dcs| => AppIndexer.DcDir(dcs[i].name, dcs[i].isDir, dcs[i].deployments))
  }

  /** The applications of one host section: those defined by a mapping are
      rendered in order; a SystemExit is reported and the next application
      still runs. */
  function RunApps(index: Index, busy: Busy, loc: Loc, apps: Fields, render: RenderApp): (Outcome, Busy)
    decreases |apps|
  {
    if apps == [] then (Pass, busy)
    else if !apps[0].1.VObj? then RunApps(index, busy, loc, apps[1..], render)
    else
      var (o, busy') := render(index, busy, loc, apps[0].0);
      if Raised(o) then (o, busy') else RunApps(index, busy', loc, apps[1..], render)
  }

  /** The host sections of one datacenter: those that are mappings and that
      the hosts file knows (`host in hosts_data`); an unknown host is reported
      and skipped. */
  function RunHosts(index: Index, busy: Busy, dc: string, hostsData: Value, hosts: Fields, render: RenderApp)
    : (Outcome, Busy)
    decreases |hosts|
  {
    if hosts == [] then (Pass, busy)
    else if !hosts[0].1.VObj? then RunHosts(index, busy, dc, hostsData, hosts[1..], render)
    else
      match PyIn(hosts[0].0, hostsData)
      case Err(e) => (Fail(e), busy)
      case Ok(known) =>
        if !known then RunHosts(index, busy, dc, hostsData, hosts[1..], render)
        else
          var (o, busy') := RunApps(index, busy, Loc(dc, hosts[0].0), hosts[0].1.fields, render);
          if o.Fail? then (o, busy') else RunHosts(index, busy', dc, hostsData, hosts[1..], render)
  }

  /** One datacenter: skipped unless it is a directory holding both files. */
  function RunDc(index: Index, busy: Busy, d: SchemaValidation.DcFiles, render: RenderApp): (Outcome, Busy) {
    if !d.isDir || d.deployments.None? || d.hosts.None? then (Pass, busy)
    else
      var depData := OrEmpty(d.deployments.value);
      match PyIn("deployments", depData)
      case Err(e) => (Fail(e), busy)
      case Ok(legacy) =>
        if legacy then (Pass, busy)
        else if !depData.VObj? then (Fail(Raise(BadShape)), busy)
        else RunHosts(index, busy, d.name, OrEmpty(d.hosts.value), depData.fields, render)
  }

  function RunDcs(index: Index, busy: Busy, dcs: seq<SchemaValidation.DcFiles>, render: RenderApp): (Outcome, Busy)
    decreases |dcs|
  {
    if dcs == [] then (Pass, busy)
    else
      var (o, busy') := RunDc(index, busy, dcs[0], render);
      if o.Fail? then (o, busy') else RunDcs(index, busy', dcs[1..], render)
  }

  /** Both passes over a tree that passed validation: the index (where
      settings keys are not skipped), then the rendering. */
  function Passes(dcs: seq<SchemaValidation.DcFiles>, render: RenderApp): (Outcome, Busy, Index) {
    match AppIndexer.IndexDcs(map[], DirsOf(dcs), false)
    case Err(e) => (Fail(e), map[], map[])
    case Ok(index) =>
      var (o, busy) := RunDcs(index, map[], dcs, render);
      (o, busy, index)
  }

  // The same rendering pass, read as a list of jobs

  /** The (location, application) pairs one host section renders. */
  function AppJobs(loc: Loc, apps: Fields): (jobs: seq<(Loc, string)>)
    ensures forall j | j in jobs :: j.0 == loc
    decreases |apps|
  {
    if apps == [] then []
    else (if apps[0].1.VObj? then [(loc, apps[0].0)] else []) + AppJobs(loc, apps[1..])
  }

  function HostJobs(dc: string, hostsData: Value, hosts: Fields): Result<seq<(Loc, string)>>
    decreases |hosts|
  {
    if hosts == [] then Ok([])
    else if !hosts[0].1.VObj? then HostJobs(dc, hostsData, hosts[1..])
    else
      var known :- PyIn(hosts[0].0, hostsData);
      var rest :- HostJobs(dc, hostsData, hosts[1..]);
      Ok((if known then AppJobs(Loc(dc, hosts[0].0), hosts[0].1.fields) else []) + rest)
  }

  function DcJobs(d: SchemaValidation.DcFiles): Result<seq<(Loc, string)>> {
    if !d.isDir || d.deployments.None? || d.hosts.None? then Ok([])
    else
      var depData := OrEmpty(d.deployments.value);
      var legacy :- PyIn("deployments", depData);
      if legacy then Ok([])
      else if !depData.VObj? then Err(Raise(BadShape))
      else HostJobs(d.name, OrEmpty(d.hosts.value), depData.fields)
  }

  function Jobs(dcs: seq<SchemaValidation.DcFiles>): Result<seq<(Loc, string)>>
    decreases |dcs|
  {
    if dcs == [] then Ok([])
    else
      var first :- DcJobs(dcs[0]);
      var rest :- Jobs(dcs[1..]);
      Ok(first + rest)
  }

  /** The jobs in order, each seeing the busy table the previous one left,
      until one raises. */
  function RunJobs(index: Index, busy: Busy, jobs: seq<(Loc, string)>, render: RenderApp): (Outcome, Busy)
    decreases |jobs|
  {
    if jobs == [] then (Pass, busy)
    else
      var (o, busy') := render(index, busy, jobs[0].0, jobs[0].1);
      if Raised(o) then (o, busy') else RunJobs(index, busy', jobs[1..], render)
  }

  /** The run ends early only on an exception that is not a SystemExit. */
  lemma {:induction false} RunJobsFailRaised(index: Index, busy: Busy, jobs: seq<(Loc, string)>, render: RenderApp)
    ensures RunJobs(index, busy, jobs, render).0.Fail? ==> Raised(RunJobs(index, busy, jobs, render).0)
    decreases |jobs|
  {
    if jobs != [] {
      var (o, busy') := render(index, busy, jobs[0].0, jobs[0].1);
      if !Raised(o) {
        RunJobsFailRaised(index, busy', jobs[1..], render);
      }
    }
  }

  /** When no application raises anything but SystemExit, every job runs and
      the run passes, whatever the individual applications report. */
  ghost predicate NeverRaises(render: RenderApp) {
    forall index, busy, loc, app :: !Raised(render(index, busy, loc, app).0)
  }

  lemma {:induction false} RunJobsContained(index: Index, busy: Busy, jobs: seq<(Loc, string)>, render: RenderApp)
    requires NeverRaises(render)
    ensures RunJobs(index, busy, jobs, render).0 == Pass
    decreases |jobs|
  {
    if jobs != [] {
      var (o, busy') := render(index, busy, jobs[0].0, jobs[0].1);
      RunJobsContained(index, busy', jobs[1..], render);
    }
  }

  lemma {:induction false} RunJobsAppend(index: Index, busy: Busy, js1: seq<(Loc, string)>, js2: seq<(Loc, string)>,
                                         render: RenderApp)
    ensures RunJobs(index, busy, js1 + js2, render) ==
      var (o, busy') := RunJobs(index, busy, js1, render);
      if o.Fail? then (o, busy') else RunJobs(index, busy', js2, render)
    decreases |js1|
  {
    if js1 == [] {
      assert js1 + js2 == js2;
    } else {
      assert (js1 + js2)[1..] == js1[1..] + js2;
      var (o, busy') := render(index, busy, js1[0].0, js1[0].1);
      if !Raised(o) {
        RunJobsAppend(index, busy', js1[1..], js2, render);
      }
    }
  }

  lemma {:induction false} RunAppsJobs(index: Index, busy: Busy, loc: Loc, apps: Fields, render: RenderApp)
    ensures RunApps(index, busy, loc, apps, render) == RunJobs(index, busy, AppJobs(loc, apps), render)
    decreases |apps|
  {
    if apps != [] {
      var head: seq<(Loc, string)> := if apps[0].1.VObj? then [(loc, apps[0].0)] else [];
      RunJobsAppend(index, busy, head, AppJobs(loc, apps[1..]), render);
      if apps[0].1.VObj? {
        var (o, busy') := render(index, busy, loc, apps[0].0);
        RunAppsJobs(index, busy', loc, apps[1..], render);
      } else {
        RunAppsJobs(index, busy, loc, apps[1..], render);
      }
    }
  }

  lemma {:induction false} RunHostsJobs(index: Index, busy: Busy, dc: string, hostsData: Value, hosts: Fields,
                                        render: RenderApp)
    requires HostJobs(dc, hostsData, hosts).Ok?
    ensures RunHosts(index, busy, dc, hostsData, hosts, render)
         == RunJobs(index, busy, HostJobs(dc, hostsData, hosts).value, render)
    decreases |hosts|
  {
    if hosts != [] {
      if !hosts[0].1.VObj? {
        RunHostsJobs(index, busy, dc, hostsData, hosts[1..], render);
      } else {
        var known := PyIn(hosts[0].0, hostsData).value;
        var head := if known then AppJobs(Loc(dc, hosts[0].0), hosts[0].1.fields) else [];
        var rest := HostJobs(dc, hostsData, hosts[1..]).value;
        RunJobsAppend(index, busy, head, rest, render);
        if known {
          RunAppsJobs(index, busy, Loc(dc, hosts[0].0), hosts[0].1.fields, render);
          var (o, busy') := RunApps(index, busy, Loc(dc, hosts[0].0), hosts[0].1.fields, render);
          RunHostsJobs(index, busy', dc, hostsData, hosts[1..], render);
        } else {
          RunHostsJobs(index, busy, dc, hostsData, hosts[1..], render);
        }
      }
    }
  }

  /** Whenever the shape of the files lets the jobs be listed, the rendering
      pass is exactly the run of those jobs in order. */
  lemma {:induction false} RunDcsJobs(index: Index, busy: Busy, dcs: seq<SchemaValidation.DcFiles>, render: RenderApp)
    requires Jobs(dcs).Ok?
    ensures RunDcs(index, busy, dcs, render) == RunJobs(index, busy, Jobs(dcs).value, render)
    decreases |dcs|
  {
    if dcs != [] {
      var d := dcs[0];
      var first := DcJobs(d).value;
      var rest := Jobs(dcs[1..]).value;
      RunJobsAppend(index, busy, first, rest, render);
      if d.isDir && d.deployments.Some? && d.hosts.Some? && !PyIn("deployments", OrEmpty(d.deployments.value)).value {
        RunHostsJobs(index, busy, d.name, OrEmpty(d.hosts.value), OrEmpty(d.deployments.value).fields, render);
      }
      var (o, busy') := RunDc(index, busy, d, render);
      RunDcsJobs(index, busy', dcs[1..], render);
    }
  }

  /** Every application defined by a mapping in a host section is a job of
      that host, and nothing else is. */
  lemma {:induction false} AppJobsMembers(loc: Loc, apps: Fields, app: string)
    ensures (loc, app) in AppJobs(loc, apps) <==> exists i | 0 <= i < |apps| :: apps[i].0 == app && apps[i].1.VObj?
    decreases |apps|
  {
    if apps != [] {
      AppJobsMembers(loc, apps[1..], app);
      assert forall i | 1 <= i < |apps| :: apps[i] == apps[1..][i - 1];
    }
  }

  /** A run over a tree that passed validation: with every application
      contained, it fails only when the index fails; the index then maps every
      application under a mapping to its location. */
  lemma PassesSpec(dcs: seq<SchemaValidation.DcFiles>, render: RenderApp)
    requires NeverRaises(render) && Jobs(dcs).Ok?
    ensures Passes(dcs, render).0.Fail? ==> AppIndexer.IndexDcs(map[], DirsOf(dcs), false).Err?
    ensures AppIndexer.IndexDcs(map[], DirsOf(dcs), false).Ok? ==>
      var index := Passes(dcs, render).2;
      forall k, host, app | AppIndexer.AppAt(DirsOf(dcs), k, host, app, false) ::
        app in index && index[app] == Loc(dcs[k].name, host)
  {
    var r := AppIndexer.IndexDcs(map[], DirsOf(dcs), false);
    AppIndexer.IndexDcsSpec(map[], DirsOf(dcs), false);
    if r.Ok? {
      RunDcsJobs(r.value, map[], dcs, render);
      RunJobsContained(r.value, map[], Jobs(dcs).value, render);
    }
  }

  /** The index pass of generate_all (built aside, see the generator). */
  method IndexPass(dcs: seq<SchemaValidation.DcFiles>) returns (r: Result<Index>)
    ensures r == AppIndexer.IndexDcs(map[], DirsOf(dcs), false)
  {
    var dirs := DirsOf(dcs);
    var idx: Index := map[];
    var i := 0;
    while i < |dirs|
      invariant 0 <= i <= |dirs|
      invariant AppIndexer.IndexDcs(map[], dirs, false) == AppIndexer.IndexDcs(idx, dirs[i..], false)
    {
      assert dirs[i..][1..] == dirs[i + 1..];
      var step := AppIndexer.IndexDatacenter(idx, dirs[i], false);
      if step.Err? {
        return step;
      }
      idx := step.value;
      i := i + 1;
    }
    r := Ok(idx);
  }

  // ---------------------------------------------------------------------------
  // The run's module-level state

  /** The generator's two module-level tables. */
  class Generator {
    var busy: Busy
    var appIndex: Index

    constructor ()
      ensures busy == map[] && appIndex == map[]
    {
      busy := map[];
      appIndex := map[];
    }

    /** One template's CPU checks, updating the busy table in place. */
    method ClaimTemplateCpus(loc: Loc, app: string, host: HostCpus, tmpl: Fields) returns (o: Outcome)
      modifies this
      ensures busy == ClaimStep(old(busy), loc, app, host, tmpl).1
      ensures TemplateCpus(tmpl).Err? ==> o == ClaimStep(old(busy), loc, app, host, tmpl).0
      ensures TemplateCpus(tmpl).Ok? ==>
        AgreesUpToRangeCpu(ClaimStep(old(busy), loc, app, host, tmpl).0, o,
                           UsedCpus(TemplateCpus(tmpl).value), host.total)
      ensures appIndex == old(appIndex)
    {
      var cpus := TemplateCpus(tmpl);
      if cpus.Err? {
        return Fail(cpus.error);
      }
      var c := cpus.value;
      if c.main !in host.isolated {
        return Fail(Exit(MainLoopNotIsolated(c.main)));
      }
      if loc !in busy {
        busy := busy[loc := map[]];
      }
      assert busy[loc] == OwnersAt(old(busy), loc);
      var usage := new BusyUsage(busy[loc]);
      o := usage.ValidateAppCpuAllocation(host, c, app);
      assert busy[loc := usage.owners] == old(busy)[loc := usage.owners];
      busy := busy[loc := usage.owners];
    }

    method RenderApps(loc: Loc, apps: Fields, render: RenderApp) returns (o: Outcome)
      modifies this
      ensures (o, busy) == RunApps(appIndex, old(busy), loc, apps, render)
      ensures appIndex == old(appIndex)
    {
      var i := 0;
      while i < |apps|
        invariant 0 <= i <= |apps|
        invariant appIndex == old(appIndex)
        invariant RunApps(appIndex, old(busy), loc, apps, render) == RunApps(appIndex, busy, loc, apps[i..], render)
      {
        assert apps[i..][1..] == apps[i + 1..];
        var (name, def) := apps[i];
        if def.VObj? {
          var step := render(appIndex, busy, loc, name);
          busy := step.1;
          if Raised(step.0) {
            return step.0;
          }
        }
        i := i + 1;
      }
      o := Pass;
    }

    method RenderHosts(dc: string, hostsData: Value, hosts: Fields, render: RenderApp) returns (o: Outcome)
      modifies this
      ensures (o, busy) == RunHosts(appIndex, old(busy), dc, hostsData, hosts, render)
      ensures appIndex == old(appIndex)
    {
      var i := 0;
      while i < |hosts|
        invariant 0 <= i <= |hosts|
        invariant appIndex == old(appIndex)
        invariant RunHosts(appIndex, old(busy), dc, hostsData, hosts, render)
               == RunHosts(appIndex, busy, dc, hostsData, hosts[i..], render)
      {
        assert hosts[i..][1..] == hosts[i + 1..];
        var (host, apps) := hosts[i];
        if apps.VObj? {
          var known := PyIn(host, hostsData);
          if known.Err? {
            return Fail(known.error);
          }
          if known.value {
            o := RenderApps(Loc(dc, host), apps.fields, render);
            if o.Fail? {
              return;
            }
          }
        }
        i := i + 1;
      }
      o := Pass;
    }

    method RenderDatacenter(d: SchemaValidation.DcFiles, render: RenderApp) returns (o: Outcome)
      modifies this
      ensures (o, busy) == RunDc(appIndex, old(busy), d, render)
      ensures appIndex == old(appIndex)
    {
      if !d.isDir || d.deployments.None? || d.hosts.None? {
        return Pass;
      }
      var depData := OrEmpty(d.deployments.value);
      var legacy := PyIn("deployments", depData);
      if legacy.Err? {
        return Fail(legacy.error);
      }
      if legacy.value {
        return Pass;
      }
      if !depData.VObj? {
        return Fail(Raise(BadShape));
      }
      o := RenderHosts(d.name, OrEmpty(d.hosts.value), depData.fields, render);
    }

    /** generate_all: both tables are reset first, so the run does not depend
        on any earlier one; nothing happens without a deployments root; the
        whole tree is validated; then the index pass and the rendering pass. */
    method GenerateAll(tree: SchemaValidation.Tree, render: RenderApp) returns (o: Outcome)
      modifies this
      ensures tree.dcs.None? ==> o == Pass && busy == map[] && appIndex == map[]
      ensures tree.dcs.Some? && !SchemaValidation.AllValid(tree) ==>
        o.Fail? && busy == map[] && appIndex == map[]
      ensures tree.dcs.Some? && SchemaValidation.AllValid(tree) ==>
        (o, busy, appIndex) == Passes(tree.dcs.value, render)
    {
      busy := map[];
      appIndex := map[];
      if tree.dcs.None? {
        return Pass;
      }
      var valid := SchemaValidation.ValidateAllSchemas(tree);
      if valid.Fail? {
        return valid;
      }
      var dcs := tree.dcs.value;
      var index := IndexPass(dcs);
      if index.Err? {
        return Fail(index.error);
      }
      appIndex := index.value;
      var i := 0;
      while i < |dcs|
        invariant 0 <= i <= |dcs|
        invariant appIndex == index.value
        invariant RunDcs(appIndex, map[], dcs, render) == RunDcs(appIndex, busy, dcs[i..], render)
      {
        assert dcs[i..][1..] == dcs[i + 1..];
        o := RenderDatacenter(dcs[i], render);
        if o.Fail? {
          return;
        }
        i := i + 1;
      }
      o := Pass;
    }
  }
}
