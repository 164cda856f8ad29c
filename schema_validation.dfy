/** Strict validation of the repository's manifests before any configuration
    is generated (tools/schema_validation.py): the binary registry, every
    datacenter's hosts and deployments files, global uniqueness of application
    names, and the cross-application references of every template. */
module SchemaValidation {
  import opened Base
  import opened Text
  import opened Values
  import AppIndexer
  import CrossRefResolver

  // ---------------------------------------------------------------------------
  // Coercions

  /** `d.get(k)` on a dictionary. */
  function At(f: Fields, k: string): Value {
    Lookup(f, k).GetOr(VNull)
  }

  function Require(cond: bool, reason: Reason): (r: Result<()>)
    ensures r.Ok? <==> cond
    ensures !cond ==> r == Err(Exit(reason))
  {
    if cond then Ok(()) else Err(Exit(reason))
  }

  function AsMapping(v: Value): (r: Result<Fields>)
    ensures r.Ok? <==> v.VObj?
    ensures r.Ok? ==> r.value == v.fields
    ensures r.Err? ==> r.error == Exit(ExpectedMapping)
  {
    if v.VObj? then Ok(v.fields) else Err(Exit(ExpectedMapping))
  }

  function AsList(v: Value): (r: Result<seq<Value>>)
    ensures r.Ok? <==> v.VList?
    ensures r.Ok? ==> r.value == v.items
    ensures r.Err? ==> r.error == Exit(ExpectedList)
  {
    if v.VList? then Ok(v.items) else Err(Exit(ExpectedList))
  }

  /** `_as_str`: a string with at least one non-whitespace character. */
  function AsStr(v: Value): (r: Result<string>)
  {
    if v == VNull then Err(Exit(ExpectedStringGotNull))
    else if !v.VStr? then Err(Exit(ExpectedString))
    else if Strip(v.s) == [] then Err(Exit(EmptyString))
    else Ok(v.s)
  }

  /** A value `_as_str` accepts. */
  predicate NonBlankStr(v: Value) {
    v.VStr? && !Blank(v.s)
  }

  /** `_as_str` accepts exactly the strings that are not all whitespace, and
      returns them unchanged; `None` has its own error. */
  lemma AsStrSpec(v: Value)
    ensures AsStr(v).Ok? <==> NonBlankStr(v)
    ensures AsStr(v).Ok? ==> AsStr(v).value == v.s
    ensures v == VNull ==> AsStr(v) == Err(Exit(ExpectedStringGotNull))
  {
    if v.VStr? {
      StripEmptyIffBlank(v.s);
    }
  }

  /** `_as_int(d.get(k))`. */
  function IntField(f: Fields, k: string): (r: Result<()>)
    ensures r.Ok? <==> AsInt(At(f, k)).Some?
  {
    Require(AsInt(At(f, k)).Some?, ExpectedInt)
  }

  /** `_as_str(str(d.get(k, "")))`: the key must be present, and its value's
      text must not be blank. */
  function TextField(f: Fields, k: string): Result<()> {
    var _ :- AsStr(VStr(PyStr(Lookup(f, k).GetOr(VStr("")))));
    Ok(())
  }

  /** A key `_as_str(str(d.get(k, "")))` is applied to must be present. */
  lemma TextFieldPresent(f: Fields, k: string)
    ensures TextField(f, k).Ok? ==> HasKey(f, k)
  {
    assert AsStr(VStr("")) == Err(Exit(EmptyString));
  }

  /** `for x in xs: check(x)`: the first failure, if any. */
  function CheckEach<T>(xs: seq<T>, check: T -> Result<()>): Result<()>
    decreases |xs|
  {
    if xs == [] then Ok(())
    else
      var _ :- check(xs[0]);
      CheckEach(xs[1..], check)
  }

  /** The loop passes exactly when every item passes, and otherwise fails as
      its first failing item does. */
  lemma {:induction false} CheckEachSpec<T>(xs: seq<T>, check: T -> Result<()>)
    ensures CheckEach(xs, check).Ok? <==> forall i | 0 <= i < |xs| :: check(xs[i]).Ok?
    ensures CheckEach(xs, check).Err? ==>
      exists i | 0 <= i < |xs| :: CheckEach(xs, check) == check(xs[i])
        && forall j | 0 <= j < i :: check(xs[j]).Ok?
    decreases |xs|
  {
    if xs != [] {
      var rest := xs[1..];
      assert forall i | 1 <= i < |xs| :: xs[i] == rest[i - 1];
      CheckEachSpec(rest, check);
      if check(xs[0]).Ok? && CheckEach(xs, check).Err? {
        var i :| 0 <= i < |rest| && CheckEach(rest, check) == check(rest[i])
          && forall j | 0 <= j < i :: check(rest[j]).Ok?;
        assert check(xs[i + 1]) == check(rest[i]);
        assert forall j | 1 <= j < i + 1 :: check(xs[j]) == check(rest[j - 1]);
      }
    }
  }

  // ---------------------------------------------------------------------------
  // The binary registry: deployments/required_binaries.yaml

  function CheckTagEntry(e: (string, Value)): Result<()> {
    var _ :- AsStr(VStr(e.0));
    var _ :- AsStr(e.1);
    Ok(())
  }

  /** `{str(v) for v in required_versions}`. */
  function StrSet(items: seq<Value>): set<string> {
    set i | 0 <= i < |items| :: PyStr(items[i])
  }

  function TagRequired(required: set<string>, e: (string, Value)): Result<()> {
    Require(PyStr(e.1) in required, TagNotRequired(e.0))
  }

  /** One binary's entry: an optional mapping of tags to non-blank versions and
      a non-empty `required_versions` list that names every tagged version. */
  function CheckBinary(e: (string, Value)): Result<()> {
    var cfg :- AsMapping(e.1);
    var tags := At(cfg, "tags");
    var tagFields :- if tags == VNull then Ok([]) else AsMapping(tags);
    var _ :- CheckEach(tagFields, CheckTagEntry);
    var req := At(cfg, "required_versions");
    if req == VNull then Err(Exit(MissingRequiredVersions))
    else
      var reqList :- AsList(req);
      if reqList == [] then Err(Exit(EmptyRequiredVersions))
      else CheckEach(tagFields, t => TagRequired(StrSet(reqList), t))
  }

  /** validate_required_binaries_schema. */
  function ValidateRequiredBinaries(file: Option<Value>): Result<()> {
    if file.None? then Err(Exit(RegistryMissing))
    else
      var binaries :- AsMapping(OrEmpty(file.value));
      CheckEach(binaries, CheckBinary)
  }

  /** The tags of a binary's entry, when it has any. */
  function TagsOf(cfg: Fields): seq<(string, Value)> {
    var tags := At(cfg, "tags");
    if tags.VObj? then tags.fields else []
  }

  /** Every tag and every tagged version is a non-blank string. */
  predicate TagsWellFormed(tags: seq<(string, Value)>) {
    forall i | 0 <= i < |tags| :: !Blank(tags[i].0) && NonBlankStr(tags[i].1)
  }

  /** Every tagged version is, as text, one of `required`. */
  predicate TagsListed(tags: seq<(string, Value)>, required: set<string>) {
    forall i | 0 <= i < |tags| :: PyStr(tags[i].1) in required
  }

  /** What a valid registry entry is, stated directly. */
  predicate BinaryValid(cfg: Value) {
    && cfg.VObj?
    && (At(cfg.fields, "tags") == VNull || At(cfg.fields, "tags").VObj?)
    && TagsWellFormed(TagsOf(cfg.fields))
    && At(cfg.fields, "required_versions").VList?
    && At(cfg.fields, "required_versions").items != []
    && TagsListed(TagsOf(cfg.fields), StrSet(At(cfg.fields, "required_versions").items))
  }

  lemma TagEntriesSpec(tags: seq<(string, Value)>)
    ensures CheckEach(tags, CheckTagEntry).Ok? <==> TagsWellFormed(tags)
  {
    CheckEachSpec(tags, CheckTagEntry);
    forall i | 0 <= i < |tags| ensures CheckTagEntry(tags[i]).Ok? <==> !Blank(tags[i].0) && NonBlankStr(tags[i].1) {
      AsStrSpec(VStr(tags[i].0));
      AsStrSpec(tags[i].1);
    }
  }

  lemma TagsRequiredSpec(tags: seq<(string, Value)>, required: set<string>)
    ensures CheckEach(tags, t => TagRequired(required, t)).Ok? <==> TagsListed(tags, required)
  {
    CheckEachSpec(tags, t => TagRequired(required, t));
  }

  /** A registry entry passes exactly when it is valid: every tag names a
      version listed (as text) in its non-empty `required_versions`. */
  lemma CheckBinarySpec(e: (string, Value))
    ensures CheckBinary(e).Ok? <==> BinaryValid(e.1)
  {
    if e.1.VObj? {
      var cfg := e.1.fields;
      TagEntriesSpec(TagsOf(cfg));
      var req := At(cfg, "required_versions");
      if req.VList? {
        TagsRequiredSpec(TagsOf(cfg), StrSet(req.items));
      }
    }
  }

  /** A registry without `required_versions`, or with an empty one, fails
      whatever its tags. */
  lemma RequiredVersionsNeeded(e: (string, Value))
    requires e.1.VObj?
    requires CheckEach(TagsOf(e.1.fields), CheckTagEntry).Ok?
    requires At(e.1.fields, "tags") == VNull || At(e.1.fields, "tags").VObj?
    ensures At(e.1.fields, "required_versions") == VNull ==> CheckBinary(e) == Err(Exit(MissingRequiredVersions))
    ensures At(e.1.fields, "required_versions") == VList([]) ==> CheckBinary(e) == Err(Exit(EmptyRequiredVersions))
  {
  }

  /** The whole registry passes exactly when it is a mapping of valid entries. */
  lemma RegistrySpec(file: Value)
    ensures ValidateRequiredBinaries(Some(file)).Ok? <==>
      OrEmpty(file).VObj? && forall i | 0 <= i < |OrEmpty(file).fields| :: BinaryValid(OrEmpty(file).fields[i].1)
  {
    if OrEmpty(file).VObj? {
      var bins := OrEmpty(file).fields;
      CheckEachSpec(bins, CheckBinary);
      forall i | 0 <= i < |bins| ensures CheckBinary(bins[i]).Ok? <==> BinaryValid(bins[i].1) {
        CheckBinarySpec(bins[i]);
      }
    }
  }

  // ---------------------------------------------------------------------------
  // Topology: deployments/<dc>/hosts.yaml

  function CheckNumaNode(node: Value): Result<()> {
    var n :- AsMapping(node);
    var _ :- IntField(n, "id");
    TextField(n, "cpus")
  }

  function CheckNic(nic: Value): Result<()> {
    var n :- AsMapping(nic);
    var _ :- AsStr(At(n, "name"));
    var _ :- AsStr(At(n, "ip"));
    Ok(())
  }

  /** One host: an integer `cpus`, present and non-blank `isolated_cpus` and
      `shared_cpus`, well-formed optional `numa_nodes`, and a non-empty list
      of NICs each with a name and an address. */
  function CheckHost(e: (string, Value)): Result<()> {
    var h :- AsMapping(e.1);
    var _ :- IntField(h, "cpus");
    var _ :- TextField(h, "isolated_cpus");
    var _ :- TextField(h, "shared_cpus");
    var nodes := At(h, "numa_nodes");
    var _ :- if nodes == VNull then Ok(()) else (var l :- AsList(nodes); CheckEach(l, CheckNumaNode));
    var nics :- AsList(At(h, "nics"));
    if nics == [] then Err(Exit(EmptyNics))
    else CheckEach(nics, CheckNic)
  }

  /** validate_hosts_schema. */
  function ValidateHostsSchema(hostsData: Value): Result<()> {
    var hosts :- AsMapping(hostsData);
    CheckEach(hosts, CheckHost)
  }

  /** A NIC entry with a non-blank name and address. */
  predicate NicValid(nic: Value) {
    nic.VObj? && NonBlankStr(At(nic.fields, "name")) && NonBlankStr(At(nic.fields, "ip"))
  }

  /** `str(d.get(k, ""))` is not blank (so the key is present). */
  predicate TextValid(f: Fields, k: string) {
    !Blank(PyStr(Lookup(f, k).GetOr(VStr(""))))
  }

  /** A NUMA node entry: a mapping with an integer `id` and a non-blank
      `cpus` text. */
  predicate NumaNodeValid(node: Value) {
    node.VObj? && AsInt(At(node.fields, "id")).Some? && TextValid(node.fields, "cpus")
  }

  /** An absent `numa_nodes`, or a list of valid nodes. */
  predicate NumaNodesValid(nodes: Value) {
    nodes == VNull || (nodes.VList? && forall i | 0 <= i < |nodes.items| :: NumaNodeValid(nodes.items[i]))
  }

  /** What a valid host entry of `hosts.yaml` is, stated directly. */
  predicate HostValid(host: Value) {
    && host.VObj?
    && AsInt(At(host.fields, "cpus")).Some?
    && TextValid(host.fields, "isolated_cpus")
    && TextValid(host.fields, "shared_cpus")
    && NumaNodesValid(At(host.fields, "numa_nodes"))
    && At(host.fields, "nics").VList?
    && At(host.fields, "nics").items != []
    && (forall i | 0 <= i < |At(host.fields, "nics").items| :: NicValid(At(host.fields, "nics").items[i]))
  }

  lemma TextFieldSpec(f: Fields, k: string)
    ensures TextField(f, k).Ok? <==> TextValid(f, k)
  {
    AsStrSpec(VStr(PyStr(Lookup(f, k).GetOr(VStr("")))));
  }

  lemma NumaNodesSpec(nodes: Value)
    ensures (if nodes == VNull then Ok(()) else (var l :- AsList(nodes); CheckEach(l, CheckNumaNode))).Ok?
        <==> NumaNodesValid(nodes)
  {
    if nodes.VList? {
      CheckEachSpec(nodes.items, CheckNumaNode);
      forall i | 0 <= i < |nodes.items| ensures CheckNumaNode(nodes.items[i]).Ok? <==> NumaNodeValid(nodes.items[i]) {
        if nodes.items[i].VObj? {
          TextFieldSpec(nodes.items[i].fields, "cpus");
        }
      }
    }
  }

  lemma NicsSpec(nics: seq<Value>)
    ensures CheckEach(nics, CheckNic).Ok? <==> forall i | 0 <= i < |nics| :: NicValid(nics[i])
  {
    CheckEachSpec(nics, CheckNic);
    forall i | 0 <= i < |nics| ensures CheckNic(nics[i]).Ok? <==> NicValid(nics[i]) {
      if nics[i].VObj? {
        AsStrSpec(At(nics[i].fields, "name"));
        AsStrSpec(At(nics[i].fields, "ip"));
      }
    }
  }

  /** A host passes exactly when it is valid: an integer CPU count, non-blank
      texts for both CPU sets (so both keys are present), an absent
      `numa_nodes` or a list of nodes each with an integer id and non-blank
      CPUs, and at least one NIC, every one of them named and addressed. */
  lemma HostSpec(e: (string, Value))
    ensures CheckHost(e).Ok? <==> HostValid(e.1)
    ensures CheckHost(e).Ok? ==> HasKey(e.1.fields, "isolated_cpus") && HasKey(e.1.fields, "shared_cpus")
  {
    if e.1.VObj? {
      var h := e.1.fields;
      TextFieldSpec(h, "isolated_cpus");
      TextFieldSpec(h, "shared_cpus");
      TextFieldPresent(h, "isolated_cpus");
      TextFieldPresent(h, "shared_cpus");
      NumaNodesSpec(At(h, "numa_nodes"));
      if At(h, "nics").VList? {
        NicsSpec(At(h, "nics").items);
      }
    }
  }

  /** A host with an empty NIC list fails. */
  lemma EmptyNicsRejected(e: (string, Value))
    requires e.1.VObj? && At(e.1.fields, "nics") == VList([])
    ensures CheckHost(e).Err?
  {
  }

  // ---------------------------------------------------------------------------
  // One datacenter's deployments: deployments/<dc>/deployments.yaml

  /** The template files on disk, by (datacenter, file name), with their text. */
  type TemplateFiles = map<(string, string), string>

  /** Where an application lives, and the `cfg_envs` of its first template. */
  datatype AppInfo = AppInfo(loc: Loc, cfgEnvs: Fields)

  /** What the validation collects: application names in first-seen order
      (the iteration order of the tool's dictionaries), each application's
      location and `cfg_envs`, and the topology entry of every deployed host. */
  datatype Schema = Schema(order: seq<string>, apps: map<string, AppInfo>, topology: map<Loc, Fields>)

  const EmptySchema := Schema([], map[], map[])

  /** `index[name] = info`: an existing name keeps its place in the order. */
  function Register(s: Schema, name: string, info: AppInfo): Schema {
    Schema(if name in s.apps then s.order else s.order + [name], s.apps[name := info], s.topology)
  }

  /** The names listed in the order are exactly the registered ones. */
  predicate Wf(s: Schema) {
    && (forall a | a in s.apps :: a in s.order)
    && (forall i | 0 <= i < |s.order| :: s.order[i] in s.apps)
  }

  lemma RegisterWf(s: Schema, name: string, info: AppInfo)
    requires Wf(s)
    ensures Wf(Register(s, name, info))
  {
  }

  /** One template of an application: a mapping whose `name` is a non-blank
      file name present in the datacenter's templates directory, and whose
      `cfg_envs` mapping has integer-convertible CPU fields. */
  function CheckTemplate(dc: string, files: TemplateFiles, tmpl: Value): Result<()> {
    var t :- AsMapping(tmpl);
    var name :- AsStr(At(t, "name"));
    if (dc, name) !in files then Err(Exit(TemplateFileMissing(name)))
    else
      var env :- AsMapping(At(t, "cfg_envs"));
      var _ :- IntField(env, "log_cpu");
      var _ :- IntField(env, "main_loop_cpu");
      IntField(env, "admin_loop_cpu")
  }

  /** One application definition: a non-blank `binary`, a `tag` or a
      `version`, and a non-empty list of valid templates. */
  function CheckApp(dc: string, files: TemplateFiles, def: Value): Result<Fields> {
    var app :- AsMapping(def);
    var _ :- AsStr(At(app, "binary"));
    if At(app, "tag") == VNull && At(app, "version") == VNull then Err(Exit(MissingTagOrVersion))
    else
      var templates :- AsList(At(app, "templates"));
      if templates == [] then Err(Exit(EmptyTemplates))
      else
        var _ :- CheckEach(templates, t => CheckTemplate(dc, files, t));
        Ok(app)
  }

  /** _extract_first_cfg_envs. */
  function FirstCfgEnvs(app: Fields): Result<Fields> {
    var templates :- AsList(At(app, "templates"));
    if templates == [] then Err(Exit(EmptyTemplates))
    else
      var t0 :- AsMapping(templates[0]);
      AsMapping(At(t0, "cfg_envs"))
  }

  /** The applications of one host section, in order: the settings keys are
      skipped, every other entry must be a valid application, and a name
      already registered at another location fails. */
  function AppsStep(s: Schema, loc: Loc, files: TemplateFiles, entries: Fields): Result<Schema>
    decreases |entries|
  {
    if entries == [] then Ok(s)
    else if AppIndexer.IsHostSetting(entries[0].0) then AppsStep(s, loc, files, entries[1..])
    else
      var (name, def) := entries[0];
      var app :- CheckApp(loc.dc, files, def);
      if name in s.apps && s.apps[name].loc != loc then
        Err(Exit(DuplicateApp(name, s.apps[name].loc, loc)))
      else
        var env :- FirstCfgEnvs(app);
        AppsStep(Register(s, name, AppInfo(loc, env)), loc, files, entries[1..])
  }

  /** Only the settings keys may hold something other than a mapping. */
  function HostLevelKey(e: (string, Value)): Result<()> {
    Require(AppIndexer.IsHostSetting(e.0) || e.1.VObj?, InvalidHostLevelKey(e.0))
  }

  /** A host section's keys, and its optional `log_dir` and `shared_cpus`. */
  function HostSettings(host: Fields): Result<()> {
    var _ :- CheckEach(host, HostLevelKey);
    var logDir := At(host, "log_dir");
    var _ :- if logDir == VNull then Ok("") else AsStr(logDir);
    var shared := At(host, "shared_cpus");
    var _ :- if shared == VNull then Ok("") else AsStr(VStr(PyStr(shared)));
    Ok(())
  }

  /** One host section: a mapping, for a host the datacenter's topology
      declares; its topology entry is recorded and its applications
      registered. */
  function HostStep(s: Schema, dc: string, topology: Fields, files: TemplateFiles, e: (string, Value))
    : Result<Schema>
  {
    var host :- AsMapping(e.1);
    if !HasKey(topology, e.0) then Err(Exit(HostNotInTopology(e.0)))
    else
      var topo :- AsMapping(At(topology, e.0));
      var _ :- HostSettings(host);
      AppsStep(s.(topology := s.topology[Loc(dc, e.0) := topo]), Loc(dc, e.0), files, host)
  }

  function HostsStep(s: Schema, dc: string, topology: Fields, files: TemplateFiles, hosts: Fields)
    : Result<Schema>
    decreases |hosts|
  {
    if hosts == [] then Ok(s)
    else
      var s' :- HostStep(s, dc, topology, files, hosts[0]);
      HostsStep(s', dc, topology, files, hosts[1..])
  }

  /** validate_deployments_schema: the retired top-level `deployments` layout
      is rejected before any host is looked at. */
  function DeploymentsSchema(dc: string, depData: Value, hostsData: Value, files: TemplateFiles)
    : Result<Schema>
  {
    var dep :- AsMapping(depData);
    var topology :- AsMapping(hostsData);
    if HasKey(dep, "deployments") then Err(Exit(LegacySchema))
    else HostsStep(EmptySchema, dc, topology, files, dep)
  }

  // Properties of the per-datacenter validation

  /** The application index of a collected schema. */
  function IndexOf(s: Schema): map<string, Loc> {
    map a | a in s.apps :: s.apps[a].loc
  }

  lemma IndexOfRegister(s: Schema, name: string, info: AppInfo)
    ensures IndexOf(Register(s, name, info)) == IndexOf(s)[name := info.loc]
  {
  }

  /** On success, one host section registers what the application indexer
      registers for it, and keeps the schema well formed. */
  lemma {:induction false} AppsStepIndex(s: Schema, loc: Loc, files: TemplateFiles, entries: Fields)
    requires Wf(s)
    ensures AppsStep(s, loc, files, entries).Ok? ==>
      && Wf(AppsStep(s, loc, files, entries).value)
      && AppsStep(s, loc, files, entries).value.topology == s.topology
      && AppIndexer.IndexApps(IndexOf(s), loc, entries, true) == Ok(IndexOf(AppsStep(s, loc, files, entries).value))
    decreases |entries|
  {
    if entries != [] && AppsStep(s, loc, files, entries).Ok? {
      var (name, def) := entries[0];
      if AppIndexer.IsHostSetting(name) {
        AppsStepIndex(s, loc, files, entries[1..]);
      } else {
        var app := CheckApp(loc.dc, files, def).value;
        var s' := Register(s, name, AppInfo(loc, FirstCfgEnvs(app).value));
        RegisterWf(s, name, AppInfo(loc, FirstCfgEnvs(app).value));
        IndexOfRegister(s, name, AppInfo(loc, FirstCfgEnvs(app).value));
        AppsStepIndex(s', loc, files, entries[1..]);
      }
    }
  }

  lemma {:induction false} HostsStepIndex(s: Schema, dc: string, topology: Fields, files: TemplateFiles, hosts: Fields)
    requires Wf(s)
    ensures HostsStep(s, dc, topology, files, hosts).Ok? ==>
      && Wf(HostsStep(s, dc, topology, files, hosts).value)
      && AppIndexer.IndexHosts(IndexOf(s), dc, hosts, true) == Ok(IndexOf(HostsStep(s, dc, topology, files, hosts).value))
    decreases |hosts|
  {
    if hosts != [] && HostsStep(s, dc, topology, files, hosts).Ok? {
      var e := hosts[0];
      var s0 := s.(topology := s.topology[Loc(dc, e.0) := At(topology, e.0).fields]);
      assert IndexOf(s0) == IndexOf(s);
      AppsStepIndex(s0, Loc(dc, e.0), files, e.1.fields);
      HostsStepIndex(HostStep(s, dc, topology, files, e).value, dc, topology, files, hosts[1..]);
    }
  }

  /** A datacenter's deployments that pass register every application exactly
      where the application indexer puts it: the two tools agree. */
  lemma DeploymentsSchemaIndex(dc: string, depData: Value, hostsData: Value, files: TemplateFiles)
    requires DeploymentsSchema(dc, depData, hostsData, files).Ok?
    ensures Wf(DeploymentsSchema(dc, depData, hostsData, files).value)
    ensures AppIndexer.IndexHosts(map[], dc, depData.fields, true)
         == Ok(IndexOf(DeploymentsSchema(dc, depData, hostsData, files).value))
  {
    assert IndexOf(EmptySchema) == map[];
    HostsStepIndex(EmptySchema, dc, hostsData.fields, files, depData.fields);
  }

  /** One name under two hosts of the same datacenter fails validation. */
  lemma DuplicateWithinDatacenter(dc: string, depData: Value, hostsData: Value, files: TemplateFiles,
                                  host1: string, host2: string, app: string)
    requires depData.VObj?
    requires AppIndexer.AppUnder(depData.fields, host1, app, true) && AppIndexer.AppUnder(depData.fields, host2, app, true)
    requires host1 != host2
    ensures DeploymentsSchema(dc, depData, hostsData, files).Err?
  {
    if DeploymentsSchema(dc, depData, hostsData, files).Ok? {
      DeploymentsSchemaIndex(dc, depData, hostsData, files);
      AppIndexer.IndexHostsSpec(map[], dc, depData.fields, true);
    }
  }

  /** The retired layout is rejected. */
  lemma LegacyLayoutRejected(dc: string, depData: Value, hostsData: Value, files: TemplateFiles)
    requires depData.VObj? && hostsData.VObj? && HasKey(depData.fields, "deployments")
    ensures DeploymentsSchema(dc, depData, hostsData, files) == Err(Exit(LegacySchema))
  {
  }

  /** A host section that passes names a host of the topology, and every key
      of it that is not a setting is a valid application. */
  lemma HostStepSpec(s: Schema, dc: string, topology: Fields, files: TemplateFiles, e: (string, Value))
    requires HostStep(s, dc, topology, files, e).Ok?
    ensures HasKey(topology, e.0) && e.1.VObj?
    ensures forall i | 0 <= i < |e.1.fields| && !AppIndexer.IsHostSetting(e.1.fields[i].0) ::
      CheckApp(dc, files, e.1.fields[i].1).Ok?
  {
    AppsStepValid(s.(topology := s.topology[Loc(dc, e.0) := At(topology, e.0).fields]), Loc(dc, e.0), files, e.1.fields);
  }

  lemma {:induction false} AppsStepValid(s: Schema, loc: Loc, files: TemplateFiles, entries: Fields)
    requires AppsStep(s, loc, files, entries).Ok?
    ensures forall i | 0 <= i < |entries| && !AppIndexer.IsHostSetting(entries[i].0) ::
      CheckApp(loc.dc, files, entries[i].1).Ok?
    decreases |entries|
  {
    if entries != [] {
      var rest := entries[1..];
      var next := s;
      if !AppIndexer.IsHostSetting(entries[0].0) {
        var app := CheckApp(loc.dc, files, entries[0].1).value;
        next := Register(s, entries[0].0, AppInfo(loc, FirstCfgEnvs(app).value));
      }
      assert AppsStep(next, loc, files, rest).Ok?;
      AppsStepValid(next, loc, files, rest);
      forall i | 1 <= i < |entries| && !AppIndexer.IsHostSetting(entries[i].0)
        ensures CheckApp(loc.dc, files, entries[i].1).Ok?
      {
        assert entries[i] == rest[i - 1];
      }
    }
  }

  /** An application that passes has a non-blank binary, a tag or a version,
      and a non-empty list of templates, each naming an existing file and
      carrying integer CPU fields. */
  lemma CheckAppSpec(dc: string, files: TemplateFiles, def: Value)
    requires CheckApp(dc, files, def).Ok?
    ensures def.VObj? && NonBlankStr(At(def.fields, "binary"))
    ensures At(def.fields, "tag") != VNull || At(def.fields, "version") != VNull
    ensures var ts := At(def.fields, "templates");
      && ts.VList? && ts.items != []
      && forall i | 0 <= i < |ts.items| :: TemplateValid(dc, files, ts.items[i])
  {
    AsStrSpec(At(def.fields, "binary"));
    var ts := At(def.fields, "templates").items;
    CheckEachSpec(ts, t => CheckTemplate(dc, files, t));
    forall i | 0 <= i < |ts| ensures TemplateValid(dc, files, ts[i]) {
      assert CheckTemplate(dc, files, ts[i]).Ok?;
      AsStrSpec(At(ts[i].fields, "name"));
    }
  }

  /** What a valid template entry is, stated directly. */
  predicate TemplateValid(dc: string, files: TemplateFiles, tmpl: Value) {
    && tmpl.VObj?
    && NonBlankStr(At(tmpl.fields, "name"))
    && (dc, At(tmpl.fields, "name").s) in files
    && At(tmpl.fields, "cfg_envs").VObj?
    && AsInt(At(At(tmpl.fields, "cfg_envs").fields, "log_cpu")).Some?
    && AsInt(At(At(tmpl.fields, "cfg_envs").fields, "main_loop_cpu")).Some?
    && AsInt(At(At(tmpl.fields, "cfg_envs").fields, "admin_loop_cpu")).Some?
  }

  // The per-datacenter loops

  /** `for app_name, app_def in host_obj.items(): ...` */
  method RegisterHostApps(s: Schema, loc: Loc, files: TemplateFiles, entries: Fields) returns (r: Result<Schema>)
    ensures r == AppsStep(s, loc, files, entries)
  {
    var acc := s;
    var i := 0;
    while i < |entries|
      invariant 0 <= i <= |entries|
      invariant AppsStep(s, loc, files, entries) == AppsStep(acc, loc, files, entries[i..])
    {
      assert entries[i..][1..] == entries[i + 1..];
      var (name, def) := entries[i];
      if !AppIndexer.IsHostSetting(name) {
        var app := CheckApp(loc.dc, files, def);
        if app.Err? {
          return Err(app.error);
        }
        if name in acc.apps && acc.apps[name].loc != loc {
          return Err(Exit(DuplicateApp(name, acc.apps[name].loc, loc)));
        }
        var env := FirstCfgEnvs(app.value);
        if env.Err? {
          return Err(env.error);
        }
        acc := Register(acc, name, AppInfo(loc, env.value));
      }
      i := i + 1;
    }
    r := Ok(acc);
  }

  /** One host section of validate_deployments_schema. */
  method ValidateHost(s: Schema, dc: string, topology: Fields, files: TemplateFiles, e: (string, Value))
    returns (r: Result<Schema>)
    ensures r == HostStep(s, dc, topology, files, e)
  {
    var (host, cfg) := e;
    if !cfg.VObj? {
      return Err(Exit(ExpectedMapping));
    }
    if !HasKey(topology, host) {
      return Err(Exit(HostNotInTopology(host)));
    }
    var topo := At(topology, host);
    if !topo.VObj? {
      return Err(Exit(ExpectedMapping));
    }
    var settings := HostSettings(cfg.fields);
    if settings.Err? {
      return Err(settings.error);
    }
    r := RegisterHostApps(s.(topology := s.topology[Loc(dc, host) := topo.fields]), Loc(dc, host), files, cfg.fields);
  }

  /** The host loop of validate_deployments_schema. */
  method ValidateHosts(s: Schema, dc: string, topology: Fields, files: TemplateFiles, hosts: Fields)
    returns (r: Result<Schema>)
    ensures r == HostsStep(s, dc, topology, files, hosts)
  {
    var acc := s;
    var i := 0;
    while i < |hosts|
      invariant 0 <= i <= |hosts|
      invariant HostsStep(s, dc, topology, files, hosts) == HostsStep(acc, dc, topology, files, hosts[i..])
    {
      assert hosts[i..][1..] == hosts[i + 1..];
      var step := ValidateHost(acc, dc, topology, files, hosts[i]);
      if step.Err? {
        return step;
      }
      acc := step.value;
      i := i + 1;
    }
    r := Ok(acc);
  }

  /** validate_deployments_schema. */
  method ValidateDeploymentsSchema(dc: string, depData: Value, hostsData: Value, files: TemplateFiles)
    returns (r: Result<Schema>)
    ensures r == DeploymentsSchema(dc, depData, hostsData, files)
  {
    if !depData.VObj? || !hostsData.VObj? {
      return Err(Exit(ExpectedMapping));
    }
    if HasKey(depData.fields, "deployments") {
      return Err(Exit(LegacySchema));
    }
    r := ValidateHosts(EmptySchema, dc, hostsData.fields, files, depData.fields);
  }

  // ---------------------------------------------------------------------------
  // validate_all_schemas: every datacenter, merged into global indexes

  /** One entry of the deployments directory: its name, whether it is a
      directory, and its parsed `deployments.yaml` and `hosts.yaml` when they
      exist. */
  datatype DcFiles = DcFiles(name: string, isDir: bool, deployments: Option<Value>, hosts: Option<Value>)

  /** The repository as the validation reads it: the binary registry, the
      entries of the deployments directory (`None` when it is missing) in
      listing order, and the template files. */
  datatype Tree = Tree(registry: Option<Value>, dcs: Option<seq<DcFiles>>, templates: TemplateFiles)

  /** Merging one datacenter's applications, in its own order, into the global
      index: a name already registered at another location fails. (A name the
      datacenter does not register is skipped; its order lists none.) */
  function MergeApps(merged: Schema, local: Schema, names: seq<string>): Result<Schema>
    decreases |names|
  {
    if names == [] then Ok(merged)
    else if names[0] !in local.apps then MergeApps(merged, local, names[1..])
    else
      var name := names[0];
      var info := local.apps[name];
      if name in merged.apps && merged.apps[name].loc != info.loc then
        Err(Exit(DuplicateApp(name, merged.apps[name].loc, info.loc)))
      else MergeApps(Register(merged, name, info), local, names[1..])
  }

  /** One datacenter: skipped when it is not a directory or has neither file;
      otherwise both files must exist, the topology and the deployments must
      pass, and the applications merge without clashing. */
  function DcStep(merged: Schema, files: TemplateFiles, d: DcFiles): Result<Schema> {
    if !d.isDir || (d.deployments.None? && d.hosts.None?) then Ok(merged)
    else if d.deployments.None? then Err(Exit(DeploymentsFileMissing(d.name)))
    else if d.hosts.None? then Err(Exit(HostsFileMissing(d.name)))
    else
      var hostsData := OrEmpty(d.hosts.value);
      var _ :- ValidateHostsSchema(hostsData);
      var local :- DeploymentsSchema(d.name, OrEmpty(d.deployments.value), hostsData, files);
      MergeApps(merged.(topology := merged.topology + local.topology), local, local.order)
  }

  function CollectSchemas(merged: Schema, files: TemplateFiles, dcs: seq<DcFiles>): Result<Schema>
    decreases |dcs|
  {
    if dcs == [] then Ok(merged)
    else
      var merged' :- DcStep(merged, files, dcs[0]);
      CollectSchemas(merged', files, dcs[1..])
  }

  /** Every application of `local` listed in `names` whose name is free or
      registered at the same location. */
  predicate NoClash(merged: Schema, local: Schema, names: seq<string>) {
    forall i | 0 <= i < |names| && names[i] in local.apps ::
      names[i] !in merged.apps || merged.apps[names[i]].loc == local.apps[names[i]].loc
  }

  /** `index'` keeps every location `index` records. */
  predicate KeepsLocs(s: Schema, s': Schema) {
    forall a | a in s.apps :: a in s'.apps && s'.apps[a].loc == s.apps[a].loc
  }

  /** The merge fails exactly when a name clashes with another location; on
      success every listed application is registered with what its own
      datacenter recorded, and every earlier location is kept. */
  lemma {:induction false} MergeAppsSpec(merged: Schema, local: Schema, names: seq<string>)
    requires Wf(merged)
    ensures MergeApps(merged, local, names).Ok? <==> NoClash(merged, local, names)
    ensures MergeApps(merged, local, names).Ok? ==>
      var r := MergeApps(merged, local, names).value;
      && Wf(r) && r.topology == merged.topology && KeepsLocs(merged, r)
      && (forall i | 0 <= i < |names| && names[i] in local.apps :: names[i] in r.apps && r.apps[names[i]].loc == local.apps[names[i]].loc)
      && (forall a | a in r.apps :: a in merged.apps || a in local.apps)
    decreases |names|
  {
    if names != [] {
      var rest := names[1..];
      assert forall i | 1 <= i < |names| :: names[i] == rest[i - 1];
      if names[0] !in local.apps {
        MergeAppsSpec(merged, local, rest);
      } else {
        var name := names[0];
        var info := local.apps[name];
        var merged' := Register(merged, name, info);
        RegisterWf(merged, name, info);
        MergeAppsSpec(merged', local, rest);
        if !(name in merged.apps && merged.apps[name].loc != info.loc) {
          assert NoClash(merged', local, rest) <==> NoClash(merged, local, names);
        }
      }
    }
  }

  /** A name deployed in two datacenters at different locations fails the
      merge. */
  lemma DuplicateAcrossDatacenters(merged: Schema, local: Schema, app: string)
    requires Wf(merged) && Wf(local)
    requires app in merged.apps && app in local.apps && merged.apps[app].loc != local.apps[app].loc
    ensures MergeApps(merged, local, local.order).Err?
  {
    MergeAppsSpec(merged, local, local.order);
    var i :| 0 <= i < |local.order| && local.order[i] == app;
  }

  /** A datacenter step keeps the schema well formed and every location it
      already records. */
  lemma DcStepKeeps(merged: Schema, files: TemplateFiles, d: DcFiles)
    requires Wf(merged) && DcStep(merged, files, d).Ok?
    ensures Wf(DcStep(merged, files, d).value) && KeepsLocs(merged, DcStep(merged, files, d).value)
  {
    if d.isDir && d.deployments.Some? && d.hosts.Some? {
      var hostsData := OrEmpty(d.hosts.value);
      var local := DeploymentsSchema(d.name, OrEmpty(d.deployments.value), hostsData, files).value;
      MergeAppsSpec(merged.(topology := merged.topology + local.topology), local, local.order);
    }
  }

  /** An application of the `k`-th datacenter, deployed at `host`. */
  predicate DeployedAt(dcs: seq<DcFiles>, k: int, host: string, app: string) {
    0 <= k < |dcs| && dcs[k].isDir && dcs[k].deployments.Some? && dcs[k].hosts.Some?
    && OrEmpty(dcs[k].deployments.value).VObj?
    && AppIndexer.AppUnder(OrEmpty(dcs[k].deployments.value).fields, host, app, true)
  }

  lemma DcStepRegisters(merged: Schema, files: TemplateFiles, d: DcFiles, host: string, app: string)
    requires Wf(merged) && DcStep(merged, files, d).Ok?
    requires DeployedAt([d], 0, host, app)
    ensures app in DcStep(merged, files, d).value.apps
    ensures DcStep(merged, files, d).value.apps[app].loc == Loc(d.name, host)
  {
    var hostsData := OrEmpty(d.hosts.value);
    var depData := OrEmpty(d.deployments.value);
    var local := DeploymentsSchema(d.name, depData, hostsData, files).value;
    DeploymentsSchemaIndex(d.name, depData, hostsData, files);
    AppIndexer.IndexHostsSpec(map[], d.name, depData.fields, true);
    assert app in IndexOf(local);
    var i :| 0 <= i < |local.order| && local.order[i] == app;
    MergeAppsSpec(merged.(topology := merged.topology + local.topology), local, local.order);
  }

  /** A datacenter step registers nothing but the applications deployed in
      that datacenter. */
  lemma DcStepOnlyDeployed(merged: Schema, files: TemplateFiles, d: DcFiles)
    requires Wf(merged) && DcStep(merged, files, d).Ok?
    ensures forall a | a in DcStep(merged, files, d).value.apps ::
      a in merged.apps || exists host :: DeployedAt([d], 0, host, a)
  {
    if d.isDir && d.deployments.Some? && d.hosts.Some? {
      var hostsData := OrEmpty(d.hosts.value);
      var depData := OrEmpty(d.deployments.value);
      var local := DeploymentsSchema(d.name, depData, hostsData, files).value;
      DeploymentsSchemaIndex(d.name, depData, hostsData, files);
      AppIndexer.IndexHostsSpec(map[], d.name, depData.fields, true);
      MergeAppsSpec(merged.(topology := merged.topology + local.topology), local, local.order);
      forall a | a in DcStep(merged, files, d).value.apps && a !in merged.apps
        ensures exists host :: DeployedAt([d], 0, host, a)
      {
        assert a in IndexOf(local);
        var host :| AppIndexer.AppUnder(depData.fields, host, a, true);
        assert DeployedAt([d], 0, host, a);
      }
    }
  }

  /** On success the global index is well formed, keeps what it started with,
      records every application of every datacenter at the host it is
      deployed on, and holds nothing else. */
  lemma {:induction false} CollectSchemasSpec(merged: Schema, files: TemplateFiles, dcs: seq<DcFiles>)
    requires Wf(merged)
    ensures CollectSchemas(merged, files, dcs).Ok? ==>
      var r := CollectSchemas(merged, files, dcs).value;
      && Wf(r) && KeepsLocs(merged, r)
      && (forall k, host, app | DeployedAt(dcs, k, host, app) :: app in r.apps && r.apps[app].loc == Loc(dcs[k].name, host))
      && (forall a | a in r.apps :: a in merged.apps || exists k, host :: DeployedAt(dcs, k, host, a))
    decreases |dcs|
  {
    if dcs != [] && CollectSchemas(merged, files, dcs).Ok? {
      var merged' := DcStep(merged, files, dcs[0]).value;
      DcStepKeeps(merged, files, dcs[0]);
      DcStepOnlyDeployed(merged, files, dcs[0]);
      CollectSchemasSpec(merged', files, dcs[1..]);
      var r := CollectSchemas(merged, files, dcs).value;
      forall k, host, app | DeployedAt(dcs, k, host, app)
        ensures app in r.apps && r.apps[app].loc == Loc(dcs[k].name, host)
      {
        if k == 0 {
          assert [dcs[0]][0] == dcs[0];
          DcStepRegisters(merged, files, dcs[0], host, app);
        } else {
          assert dcs[k] == dcs[1..][k - 1];
          assert DeployedAt(dcs[1..], k - 1, host, app);
        }
      }
      forall a | a in r.apps ensures a in merged.apps || exists k, host :: DeployedAt(dcs, k, host, a) {
        if a !in merged'.apps {
          var k, host :| DeployedAt(dcs[1..], k, host, a);
          assert dcs[k + 1] == dcs[1..][k];
          assert DeployedAt(dcs, k + 1, host, a);
        } else if a !in merged.apps {
          var host :| DeployedAt([dcs[0]], 0, host, a);
          assert DeployedAt(dcs, 0, host, a);
        }
      }
    }
  }

  // ---------------------------------------------------------------------------
  // _validate_cross_app_refs

  /** The first directory entry with the datacenter's name. */
  function DcNamed(dcs: seq<DcFiles>, name: string): Option<DcFiles>
    decreases |dcs|
  {
    if dcs == [] then None
    else if dcs[0].isDir && dcs[0].name == name then Some(dcs[0])
    else DcNamed(dcs[1..], name)
  }

  /** The application's definition, read again from its datacenter's
      deployments file; a missing file raises. */
  function ReadAppDef(dcs: seq<DcFiles>, loc: Loc, app: string): Result<Fields> {
    match DcNamed(dcs, loc.dc)
    case None => Err(Raise(FileMissing))
    case Some(d) =>
      if d.deployments.None? then Err(Raise(FileMissing))
      else
        var dep :- AsMapping(OrEmpty(d.deployments.value));
        var host :- AsMapping(OrEmpty(At(dep, loc.host)));
        AsMapping(OrEmpty(At(host, app)))
  }

  /** The names of a `depends_on` list, each a non-blank string. */
  function DepNames(items: seq<Value>): Result<set<string>>
    decreases |items|
  {
    if items == [] then Ok({})
    else
      var name :- AsStr(items[0]);
      var rest :- DepNames(items[1..]);
      Ok({name} + rest)
  }

  /** The declared dependencies: `None` when `depends_on` is absent. */
  function DeclaredDeps(app: Fields): Result<Option<set<string>>> {
    var raw := At(app, "depends_on");
    if raw == VNull then Ok(None)
    else
      var items :- AsList(raw);
      var names :- DepNames(items);
      Ok(Some(names))
  }

  /** A template's text; a template whose file is missing raises on read. */
  function TemplateText(dc: string, files: TemplateFiles, tmpl: Value): Result<string> {
    var t :- AsMapping(tmpl);
    var name :- AsStr(At(t, "name"));
    if (dc, name) !in files then Err(Raise(FileMissing)) else Ok(files[(dc, name)])
  }

  /** The references a template makes, none when it cannot be read. */
  function TemplateRefs(dc: string, files: TemplateFiles, tmpl: Value): set<(string, string)> {
    var text := TemplateText(dc, files, tmpl);
    if text.Ok? then CrossRefResolver.RefPairs(text.value) else {}
  }

  function AppsOf(pairs: set<(string, string)>): set<string> {
    set p | p in pairs :: p.0
  }

  /** The applications referenced by the templates. */
  function ReferencedApps(dc: string, files: TemplateFiles, templates: seq<Value>): set<string>
    decreases |templates|
  {
    if templates == [] then {}
    else ReferencedApps(dc, files, templates[..|templates| - 1]) + AppsOf(TemplateRefs(dc, files, templates[|templates| - 1]))
  }

  /** The address of the first NIC that is a mapping with the given name;
      entries that are not mappings are passed over. */
  function NicIpByName(nics: seq<Value>, name: string): Value
    decreases |nics|
  {
    if nics == [] then VNull
    else if nics[0].VObj? && At(nics[0].fields, "name") == VStr(name) then At(nics[0].fields, "ip")
    else NicIpByName(nics[1..], name)
  }

  /** One reference `{{ app.key }}` made from `here`: the application must be
      indexed and have the key in its `cfg_envs`; a shared-memory key must be
      on the same host; a `listen_nic` must name a NIC of the owner's host that
      has an address. */
  function PairCheck(s: Schema, here: Loc, p: (string, string)): Outcome {
    var (app, key) := p;
    if app !in s.apps then Fail(Exit(UnknownApp(app)))
    else
      var there := s.apps[app].loc;
      var env := s.apps[app].cfgEnvs;
      if !HasKey(env, key) then Fail(Exit(MissingRefKey(app, key)))
      else if CrossRefResolver.IsShmKey(key) && there != here then Fail(Exit(ShmAcrossHosts(app, key)))
      else if key != "listen_nic" then Pass
      else if there !in s.topology then Fail(Exit(TopologyNotLoaded(app)))
      else
        var nics := At(s.topology[there], "nics");
        var items := Iterate(if Truthy(nics) then nics else VList([]));
        if items.None? then Fail(Raise(BadShape))
        else if NicIpByName(items.value, PyStr(At(env, "listen_nic"))) == VNull then Fail(Exit(NicNotFound))
        else Pass
  }

  /** The `depends_on` consistency rules: declared names must be indexed and
      must cover every referenced application; extra names are allowed. */
  function DependsCheck(declared: Option<set<string>>, referenced: set<string>, known: set<string>): Outcome {
    match declared
    case None => Pass
    case Some(deps) =>
      if deps - known != {} then Fail(Exit(DependsOnUnknown(deps - known)))
      else if referenced - deps != {} then Fail(Exit(DependsOnMissing(referenced - deps)))
      else Pass
  }

  /** Every template can be read and every reference it makes passes. */
  predicate TemplatesValid(s: Schema, here: Loc, files: TemplateFiles, templates: seq<Value>) {
    forall i | 0 <= i < |templates| :: TemplateValidRefs(s, here, files, templates[i])
  }

  /** Everything `_validate_cross_app_refs` checks for one application. */
  predicate AppRefsValid(dcs: seq<DcFiles>, files: TemplateFiles, s: Schema, app: string) {
    && app in s.apps
    && var here := s.apps[app].loc;
    && var def := ReadAppDef(dcs, here, app);
    && def.Ok?
    && DeclaredDeps(def.value).Ok?
    && At(def.value, "templates").VList?
    && TemplatesValid(s, here, files, At(def.value, "templates").items)
    && DependsCheck(DeclaredDeps(def.value).value,
                    ReferencedApps(here.dc, files, At(def.value, "templates").items),
                    s.apps.Keys).Pass?
  }

  // Properties of the reference checks

  /** Without `depends_on` nothing is checked; with it, the check passes
      exactly when every declared name is indexed and every referenced
      application is declared; names declared but not referenced never fail. */
  lemma DependsCheckSpec(declared: Option<set<string>>, referenced: set<string>, known: set<string>)
    ensures declared.None? ==> DependsCheck(declared, referenced, known).Pass?
    ensures declared.Some? ==>
      (DependsCheck(declared, referenced, known).Pass? <==> declared.value <= known && referenced <= declared.value)
    ensures declared.Some? && !(declared.value <= known) ==>
      DependsCheck(declared, referenced, known) == Fail(Exit(DependsOnUnknown(declared.value - known)))
    ensures declared.Some? && declared.value <= known && !(referenced <= declared.value) ==>
      DependsCheck(declared, referenced, known) == Fail(Exit(DependsOnMissing(referenced - declared.value)))
  {
    if declared.Some? {
      var deps := declared.value;
      if !(deps <= known) {
        var x :| x in deps && x !in known;
        assert x in deps - known;
      }
      if !(referenced <= deps) {
        var x :| x in referenced && x !in deps;
        assert x in referenced - deps;
      }
    }
  }

  /** Extra declared dependencies only warn: adding indexed names that nothing
      references to a passing declaration still passes. */
  lemma ExtraDependsAllowed(deps: set<string>, extra: set<string>, referenced: set<string>, known: set<string>)
    requires DependsCheck(Some(deps), referenced, known).Pass?
    requires extra <= known
    ensures DependsCheck(Some(deps + extra), referenced, known).Pass?
  {
    DependsCheckSpec(Some(deps), referenced, known);
    DependsCheckSpec(Some(deps + extra), referenced, known);
  }

  /** A reference to an application that is not indexed fails; so does a
      missing key; so does a shared-memory key of another host. */
  lemma PairCheckFailures(s: Schema, here: Loc, p: (string, string))
    ensures p.0 !in s.apps ==> PairCheck(s, here, p) == Fail(Exit(UnknownApp(p.0)))
    ensures p.0 in s.apps && !HasKey(s.apps[p.0].cfgEnvs, p.1) ==>
      PairCheck(s, here, p) == Fail(Exit(MissingRefKey(p.0, p.1)))
    ensures (p.0 in s.apps && HasKey(s.apps[p.0].cfgEnvs, p.1)
             && CrossRefResolver.IsShmKey(p.1) && s.apps[p.0].loc != here) ==>
      PairCheck(s, here, p) == Fail(Exit(ShmAcrossHosts(p.0, p.1)))
  {
  }

  /** A mapping entry with the given name. */
  predicate NicCalled(nic: Value, name: string) {
    nic.VObj? && At(nic.fields, "name") == VStr(name)
  }

  /** The NIC search returns the address of the first mapping with the name. */
  lemma {:induction false} NicIpByNameFirst(nics: seq<Value>, name: string, i: int)
    requires 0 <= i < |nics| && NicCalled(nics[i], name)
    requires forall j | 0 <= j < i :: !NicCalled(nics[j], name)
    ensures NicIpByName(nics, name) == At(nics[i].fields, "ip")
    decreases |nics|
  {
    if i > 0 {
      assert !NicCalled(nics[0], name);
      assert forall j | 0 <= j < i - 1 :: nics[1..][j] == nics[j + 1];
      NicIpByNameFirst(nics[1..], name, i - 1);
    }
  }

  /** With no NIC of that name the search finds nothing. */
  lemma {:induction false} NicIpByNameNone(nics: seq<Value>, name: string)
    requires forall i | 0 <= i < |nics| :: !NicCalled(nics[i], name)
    ensures NicIpByName(nics, name) == VNull
    decreases |nics|
  {
    if nics != [] {
      assert !NicCalled(nics[0], name);
      assert forall j | 0 <= j < |nics| - 1 :: nics[1..][j] == nics[j + 1];
      NicIpByNameNone(nics[1..], name);
    }
  }

  // The reference loops

  lemma SomeRef(s: set<(string, string)>)
    requires s != {}
    ensures exists p :: p in s
  {
    CrossRefResolver.SomePair(s);
  }

  /** `for ref_app, ref_key in set(...)`: checks the references one by one,
      in no particular order, and stops at the first that fails. */
  method CheckPairs(pairs: set<(string, string)>, check: ((string, string)) -> Outcome) returns (o: Outcome)
    ensures o.Pass? <==> forall p | p in pairs :: check(p).Pass?
    ensures o.Fail? ==> exists p | p in pairs :: check(p) == o
  {
    var done: set<(string, string)> := {};
    while pairs - done != {}
      invariant done <= pairs
      invariant forall p | p in done :: check(p).Pass?
      decreases pairs - done
    {
      SomeRef(pairs - done);
      var p :| p in pairs - done;
      var c := check(p);
      if c.Fail? {
        return c;
      }
      done := done + {p};
    }
    assert done == pairs by {
      forall q | q in pairs ensures q in done {
        assert q !in pairs - done;
      }
    }
    o := Pass;
  }

  /** One template's part of TemplatesValid. */
  predicate TemplateValidRefs(s: Schema, here: Loc, files: TemplateFiles, tmpl: Value) {
    TemplateText(here.dc, files, tmpl).Ok?
    && forall p | p in TemplateRefs(here.dc, files, tmpl) :: PairCheck(s, here, p).Pass?
  }

  /** Extending the checked prefix by one template. */
  lemma TemplatesPrefixStep(s: Schema, here: Loc, files: TemplateFiles, templates: seq<Value>, i: int)
    requires 0 <= i < |templates|
    ensures TemplatesValid(s, here, files, templates[..i + 1]) <==>
      TemplatesValid(s, here, files, templates[..i]) && TemplateValidRefs(s, here, files, templates[i])
    ensures ReferencedApps(here.dc, files, templates[..i + 1])
         == ReferencedApps(here.dc, files, templates[..i]) + AppsOf(TemplateRefs(here.dc, files, templates[i]))
  {
    TemplatesValidStep(s, here, files, templates, i);
    ReferencedAppsStep(here.dc, files, templates, i);
  }

  lemma TemplatesValidStep(s: Schema, here: Loc, files: TemplateFiles, templates: seq<Value>, i: int)
    requires 0 <= i < |templates|
    ensures TemplatesValid(s, here, files, templates[..i + 1]) <==>
      TemplatesValid(s, here, files, templates[..i]) && TemplateValidRefs(s, here, files, templates[i])
  {
    var pre, ext := templates[..i], templates[..i + 1];
    assert ext[i] == templates[i];
    assert forall j | 0 <= j < i :: ext[j] == pre[j];
  }

  lemma ReferencedAppsStep(dc: string, files: TemplateFiles, templates: seq<Value>, i: int)
    requires 0 <= i < |templates|
    ensures ReferencedApps(dc, files, templates[..i + 1])
         == ReferencedApps(dc, files, templates[..i]) + AppsOf(TemplateRefs(dc, files, templates[i]))
  {
    var pre, ext := templates[..i], templates[..i + 1];
    assert ext[..i] == pre && ext[i] == templates[i];
  }

  /** One failing template fails them all. */
  lemma TemplateFailure(s: Schema, here: Loc, files: TemplateFiles, templates: seq<Value>, i: int)
    requires 0 <= i < |templates| && !TemplateValidRefs(s, here, files, templates[i])
    ensures !TemplatesValid(s, here, files, templates)
  {
  }

  /** `for i, tmpl in enumerate(templates): ...`: every template's references,
      and the applications they name. */
  method CheckTemplates(s: Schema, here: Loc, files: TemplateFiles, templates: seq<Value>)
    returns (o: Outcome, referenced: set<string>)
    ensures o.Pass? <==> TemplatesValid(s, here, files, templates)
    ensures o.Pass? ==> referenced == ReferencedApps(here.dc, files, templates)
  {
    referenced := {};
    var i := 0;
    while i < |templates|
      invariant 0 <= i <= |templates|
      invariant TemplatesValid(s, here, files, templates[..i])
      invariant referenced == ReferencedApps(here.dc, files, templates[..i])
    {
      var text := TemplateText(here.dc, files, templates[i]);
      if text.Err? {
        TemplateFailure(s, here, files, templates, i);
        return Fail(text.error), referenced;
      }
      var pairs := CrossRefResolver.RefPairs(text.value);
      assert pairs == TemplateRefs(here.dc, files, templates[i]);
      var c := CheckPairs(pairs, p => PairCheck(s, here, p));
      if c.Fail? {
        TemplateFailure(s, here, files, templates, i);
        return c, referenced;
      }
      TemplatesPrefixStep(s, here, files, templates, i);
      referenced := referenced + AppsOf(pairs);
      i := i + 1;
    }
    assert templates[..i] == templates;
    o := Pass;
  }

  /** The checks of one indexed application. */
  method ValidateAppRefs(dcs: seq<DcFiles>, files: TemplateFiles, s: Schema, app: string) returns (o: Outcome)
    requires app in s.apps
    ensures o.Pass? <==> AppRefsValid(dcs, files, s, app)
  {
    var here := s.apps[app].loc;
    var def := ReadAppDef(dcs, here, app);
    if def.Err? {
      return Fail(def.error);
    }
    var declared := DeclaredDeps(def.value);
    if declared.Err? {
      return Fail(declared.error);
    }
    var tl := AsList(At(def.value, "templates"));
    if tl.Err? {
      return Fail(tl.error);
    }
    var referenced;
    o, referenced := CheckTemplates(s, here, files, tl.value);
    if o.Pass? {
      o := DependsCheck(declared.value, referenced, s.apps.Keys);
    }
  }

  /** `for app_name, (dc_id, host_name) in app_index.items()`. */
  method ValidateCrossAppRefs(dcs: seq<DcFiles>, files: TemplateFiles, s: Schema) returns (o: Outcome)
    requires Wf(s)
    ensures o.Pass? <==> forall a | a in s.apps :: AppRefsValid(dcs, files, s, a)
  {
    var i := 0;
    while i < |s.order|
      invariant 0 <= i <= |s.order|
      invariant forall j | 0 <= j < i :: AppRefsValid(dcs, files, s, s.order[j])
    {
      o := ValidateAppRefs(dcs, files, s, s.order[i]);
      if o.Fail? {
        return;
      }
      AllExtend(s.order, i, a => AppRefsValid(dcs, files, s, a));
      i := i + 1;
    }
    OrderCovers(s, a => AppRefsValid(dcs, files, s, a));
    o := Pass;
  }

  lemma AllExtend(xs: seq<string>, i: nat, p: string -> bool)
    requires i < |xs| && p(xs[i])
    requires forall j | 0 <= j < i :: p(xs[j])
    ensures forall j | 0 <= j < i + 1 :: p(xs[j])
  {
  }

  /** What holds of every name in the order holds of every application. */
  lemma OrderCovers(s: Schema, p: string -> bool)
    requires Wf(s)
    requires forall j | 0 <= j < |s.order| :: p(s.order[j])
    ensures forall a | a in s.apps :: p(a)
  {
    forall a | a in s.apps ensures p(a) {
      var j :| 0 <= j < |s.order| && s.order[j] == a;
    }
  }

  // The datacenter loops

  /** `for app_name, loc in app_index.items(): ...` */
  method MergeDatacenter(merged: Schema, local: Schema) returns (r: Result<Schema>)
    ensures r == MergeApps(merged, local, local.order)
  {
    var acc := merged;
    var i := 0;
    while i < |local.order|
      invariant 0 <= i <= |local.order|
      invariant MergeApps(merged, local, local.order) == MergeApps(acc, local, local.order[i..])
    {
      assert local.order[i..][1..] == local.order[i + 1..];
      var name := local.order[i];
      if name in local.apps {
        var info := local.apps[name];
        if name in acc.apps && acc.apps[name].loc != info.loc {
          return Err(Exit(DuplicateApp(name, acc.apps[name].loc, info.loc)));
        }
        acc := Register(acc, name, info);
      }
      i := i + 1;
    }
    r := Ok(acc);
  }

  method ValidateDatacenter(merged: Schema, files: TemplateFiles, d: DcFiles) returns (r: Result<Schema>)
    ensures r == DcStep(merged, files, d)
  {
    if !d.isDir || (d.deployments.None? && d.hosts.None?) {
      return Ok(merged);
    }
    if d.deployments.None? {
      return Err(Exit(DeploymentsFileMissing(d.name)));
    }
    if d.hosts.None? {
      return Err(Exit(HostsFileMissing(d.name)));
    }
    var hostsData := OrEmpty(d.hosts.value);
    var hosts := ValidateHostsSchema(hostsData);
    if hosts.Err? {
      return Err(hosts.error);
    }
    var local := ValidateDeploymentsSchema(d.name, OrEmpty(d.deployments.value), hostsData, files);
    if local.Err? {
      return local;
    }
    r := MergeDatacenter(merged.(topology := merged.topology + local.value.topology), local.value);
  }

  /** Everything validate_all_schemas checks. */
  predicate AllValid(tree: Tree) {
    && ValidateRequiredBinaries(tree.registry).Ok?
    && tree.dcs.Some?
    && CollectSchemas(EmptySchema, tree.templates, tree.dcs.value).Ok?
    && var s := CollectSchemas(EmptySchema, tree.templates, tree.dcs.value).value;
       forall a | a in s.apps :: AppRefsValid(tree.dcs.value, tree.templates, s, a)
  }

  /** validate_all_schemas: the registry first, then every datacenter in
      listing order, then the references of every application. */
  method ValidateAllSchemas(tree: Tree) returns (o: Outcome)
    ensures o.Pass? <==> AllValid(tree)
    ensures ValidateRequiredBinaries(tree.registry).Err? ==> o == Fail(ValidateRequiredBinaries(tree.registry).error)
    ensures ValidateRequiredBinaries(tree.registry).Ok? && tree.dcs.None? ==> o == Fail(Exit(DirectoryMissing))
  {
    var registry := ValidateRequiredBinaries(tree.registry);
    if registry.Err? {
      return Fail(registry.error);
    }
    if tree.dcs.None? {
      return Fail(Exit(DirectoryMissing));
    }
    var dcs := tree.dcs.value;
    var acc := EmptySchema;
    var i := 0;
    while i < |dcs|
      invariant 0 <= i <= |dcs|
      invariant CollectSchemas(EmptySchema, tree.templates, dcs) == CollectSchemas(acc, tree.templates, dcs[i..])
    {
      assert dcs[i..][1..] == dcs[i + 1..];
      var step := ValidateDatacenter(acc, tree.templates, dcs[i]);
      if step.Err? {
        return Fail(step.error);
      }
      acc := step.value;
      i := i + 1;
    }
    assert dcs[i..] == [];
    CollectSchemasSpec(EmptySchema, tree.templates, dcs);
    o := ValidateCrossAppRefs(dcs, tree.templates, acc);
  }
}
