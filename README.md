# Deployment config generator — a Dafny model of its validation core

The repository generates per-application configuration directories for a fleet of
low-latency services. Each datacenter has:

- `deployments/<dc>/hosts.yaml`: host topology. This gives the CPU count, the isolated
  and shared CPU sets, NUMA nodes and NICs.
- `deployments/<dc>/deployments.yaml`: host → application → binary, tag and templates.
  Each template carries `cfg_envs`.
- `deployments/<dc>/templates/`: the template texts.

The generator first validates the whole tree: the binary registry, each host, each
deployment and every cross-application reference. Then it builds a global index from
application name to (datacenter, host). Finally, for every application it does the
following:

1. It checks the host's CPU partition.
2. It claims the application's busy-spinning main-loop CPU on a per-host busy table.
3. It builds the replacement map, resolving `listen_nic` to an IP.
4. It resolves `{{ app.key }}` references to other applications.
5. It substitutes placeholders and rejects any that are left over.
6. It checks the rendered JSON: the `logging.log_dir` injection, the `event_loops`
   shape, the `admin_loop` rules and busy-spin claims.

This project models that core. One module per source file:

| module | file | form |
|---|---|---|
| `CpuTopology` | `tools/cpu_topology.py` | spec functions; token loop, NUMA list loop and even-split nested loops as methods |
| `AppValidator` | `tools/app_validator.py` | pure checks; `BusyUsage` class whose method updates the `owners` table in place |
| `TemplateContext` | `tools/template_context.py` | pure functions and lemmas |
| `CrossRefResolver` | `tools/cross_ref_resolver.py` | regex scanner as functions; the loop over reference pairs as a method |
| `ConfigRenderer` | `tools/config_renderer.py` | context builder and post-render checks as methods over a `BusyUsage` |
| `AppIndexer` | `tools/app_indexer.py` | the index fold, as functions and as methods |
| `SchemaValidation` | `tools/schema_validation.py` | validators as functions; the per-datacenter and per-reference loops as methods |
| `DeploymentLoader` | `tools/deployment_loader.py` | file loads over a `Repo` of total maps |
| `GenConfig` | `tools/gen_config.py` | see below |

`GenConfig` covers the host part of `validate_and_render`, the claim on the run's busy
table, substitution and the leftover check, and `generate_all`. The run state
(`HOST_BUSY_ISOLATED_USAGE`, `APP_GLOBAL_INDEX`) is the `Generator` class.

Supporting modules:

- `Base`: outcomes and error reasons. `Exit` is a `SystemExit`; `Raise` is any other
  exception.
- `Text`: Python's `str.strip`, `split`, `int()` and `str()` on the strings the code
  uses.
- `Values`: one dynamic `Value` type for YAML and JSON data. Objects are ordered
  association lists with `dict` semantics.

Files are total maps passed in as values (`Repo`, `Tree`, `DcFiles`, template texts by
(datacenter, name)). Directory listings are sequences in listing order.

Behaviour worth noting, as the code has it:

- `int(nodes or 1)` turns a zero or missing `numa_nodes` into one node; that is not a
  failure.
- `generate_all`'s first pass registers every mapping-valued key as an application.
  Unlike `app_indexer.py`, it does not skip `log_dir` and `shared_cpus`
  (`AppIndexer` takes a `skipSettings` flag).
- `validate_and_render` loads the deployment through `gen_config.py`'s own
  `load_deployment`, not through `deployment_loader.py`. For the host-to-apps layout
  that loader always returns an empty `shared_cpus`. So the fallback in
  `host_shared_cpus or dep_shared_cpus` never applies: the applications get exactly
  the host's shared set, and the `shared_cpus` of a deployments-file host section is
  never parsed there. `GenConfig.PrepareHostSpec` states this.
- The busy-spin CPU is claimed before the `log_cpu` and `admin_loop_cpu` checks, so a
  claim made by a failing application stays in the table.

## Model

| member | source | states |
|---|---|---|
| Text.StripEmptyIffBlank | tools/cpu_topology.py:7-9 | `expr.strip()` is empty exactly when every character is whitespace |
| Text.SplitJoin | tools/cpu_topology.py:11 | splitting the comma-joined parts (none containing a comma) gives the parts back: `split` and `join` are inverse |
| Text.ParseIntToString | tools/cpu_topology.py:17 | `int(str(i)) == i` for every integer, negatives included |
| CpuTopology.Interval | tools/cpu_topology.py:20 | `range(start, end + 1)` holds exactly the integers from start to end |
| CpuTopology.IntervalSize | tools/cpu_topology.py:20 | a range from lo to hi has hi - lo members |
| CpuTopology.ParseCpuSet | tools/cpu_topology.py:6-23 | the token loop returns exactly `CpuSetOf(expr)`: the union of the tokens' contributions, or the first token's exception |
| CpuTopology.BlankParsesEmpty | tools/cpu_topology.py:7-9 | an empty or whitespace-only expression parses to the empty set |
| CpuTopology.RangeToken | tools/cpu_topology.py:15-20 | the token `a-b` contributes exactly a..b inclusive when a <= b, and raises an invalid-range error when a > b |
| CpuTopology.RangeTokenAt | tools/cpu_topology.py:15-20 | the same for any token whose first `-` splits it into halves that parse as a and b |
| CpuTopology.BlankTokenSkipped | tools/cpu_topology.py:12-14 | a blank token between commas does not change the result (`"1,,2"` is {1,2}) |
| CpuTopology.TokensSetMembers | tools/cpu_topology.py:10-23 | parsing succeeds iff every token does; x is in the result iff some token contributes x |
| CpuTopology.TokensSetConcat | tools/cpu_topology.py:11-22 | parsing two token lists one after the other is the union of the two parses, failing at the first failure |
| CpuTopology.UnionEmptyLeft | tools/cpu_topology.py:10 | starting the union from `set()` adds nothing |
| CpuTopology.ThenAssoc | tools/cpu_topology.py:11-22 | accumulating token results is associative, so the loop's running union equals the fold |
| CpuTopology.AssignAll | tools/cpu_topology.py:34-35 | the inner loop maps every CPU of the node to its id and leaves every other CPU's entry as it was |
| CpuTopology.AssignAt | tools/cpu_topology.py:34-35 | after one node, a CPU is mapped iff it was before or the node lists it, and maps to this node if listed, else to its old node |
| CpuTopology.AssignOneMore | tools/cpu_topology.py:34-35 | assigning one more CPU is a single map update |
| CpuTopology.AssignPointwise | tools/cpu_topology.py:34-35 | any map with the right domain and values is the assignment, so the loop result is determined pointwise |
| CpuTopology.NumaMapFromList | tools/cpu_topology.py:29-36 | the list-form loop returns the list-form spec: per node, `int(id)` and the parsed CPU set, each node's CPUs mapped to its id |
| CpuTopology.NumaFromListLayout | tools/cpu_topology.py:29-36 | the list form fails iff some node's id or CPU set fails to convert; otherwise it is the nodes' layout applied in order |
| CpuTopology.EntriesOfOk | tools/cpu_topology.py:31-33 | the node entries convert iff each node does, one entry per node in order |
| CpuTopology.LayoutAppend | tools/cpu_topology.py:30-36 | adding a node at the end assigns its CPUs on top of the earlier layout |
| CpuTopology.LayoutLastWins | tools/cpu_topology.py:30-36 | a CPU is mapped iff some node lists it, and it maps to the id of the last node listing it |
| CpuTopology.NodeStartClosed | tools/cpu_topology.py:43-51 | node i's first CPU is i*base + min(i, rem) |
| CpuTopology.NodeStartStep | tools/cpu_topology.py:47-51 | node i+1 starts where node i's base + (1 if i < rem else 0) CPUs end |
| CpuTopology.NodeStartEnd | tools/cpu_topology.py:43-51 | the n blocks end exactly at the CPU count |
| CpuTopology.NodeStartMonotone | tools/cpu_topology.py:45-51 | node start offsets never decrease |
| CpuTopology.BlockShape | tools/cpu_topology.py:48-51 | one node's block holds exactly the CPUs cpu .. cpu+count-1, all mapped to that node |
| CpuTopology.BlockExtend | tools/cpu_topology.py:48-51 | one more step of the inner loop extends the block by one CPU |
| CpuTopology.EvenSplit | tools/cpu_topology.py:43-51 | the even split of cpus over n nodes builds exactly the even-split map of (cpus // n, cpus % n, n) |
| CpuTopology.FillNodes | tools/cpu_topology.py:45-51 | the nested loops with the running counter build exactly the even-split map of (base, rem, n) |
| CpuTopology.FillNode | tools/cpu_topology.py:48-51 | the inner loop adds the node's block and advances the counter by its size |
| CpuTopology.UnionUpdate | tools/cpu_topology.py:49-51 | writing one more CPU into the block commutes with the earlier nodes' map |
| CpuTopology.EvenSplitMapShape | tools/cpu_topology.py:45-51 | after k nodes, exactly the CPUs below node k's start are mapped, each to the node whose block contains it |
| CpuTopology.EvenSplitCovers | tools/cpu_topology.py:43-51 | the even-split map's domain is exactly [0, cpus) |
| CpuTopology.EvenSplitNodeSize | tools/cpu_topology.py:47-49 | node i receives base + (1 if i < rem else 0) CPUs |
| CpuTopology.EvenSplitMonotone | tools/cpu_topology.py:45-51 | node ids are non-decreasing in CPU id |
| CpuTopology.BlocksDisjoint | tools/cpu_topology.py:47-51 | no CPU lies in the blocks of two different nodes |
| CpuTopology.BuildCpuNumaMapFromHost | tools/cpu_topology.py:26-53 | returns exactly the spec: the list form when `numa_nodes` is a list, else the even split, with the same errors |
| CpuTopology.EvenSplitFormFailure | tools/cpu_topology.py:38-41 | with `numa_nodes` missing or zero (one node), the split fails iff cpus <= 0, and otherwise puts every CPU on node 0 |
| CpuTopology.EvenSplitForm | tools/cpu_topology.py:38-51 | the even-split form fails iff the CPU count or node count is not positive, and otherwise maps exactly [0, cpus) |
| AppValidator.RangeCheck | tools/app_validator.py:13-17 | passes iff every CPU is in [0, total); a failure names some CPU that is out of range |
| AppValidator.RangeCheckReportsSmallest | tools/app_validator.py:13-17 | the CPU named is the smallest offending one, as the `sorted` iteration finds it |
| AppValidator.CheckCpusInRange | tools/app_validator.py:13-17 | the loop over the CPUs returns exactly the range check |
| AppValidator.HostCpuSetsCheck | tools/app_validator.py:6-23 | passes iff every isolated or shared CPU is in range and the two sets are disjoint |
| AppValidator.HostOverlapFails | tools/app_validator.py:19-23 | with every CPU in range, a CPU in both sets fails with the overlap error |
| AppValidator.ParseCpuFieldsSpec | tools/app_validator.py:26-34 | succeeds iff all three fields are present and convert to int, returning them in role order; a missing `log_cpu` (then `main_loop_cpu`) exits naming it |
| AppValidator.DistinctRoles | tools/app_validator.py:82 | `len({log, main, admin}) == 3` iff the three CPUs are pairwise distinct |
| AppValidator.AllocatePassIff | tools/app_validator.py:37-86 | allocation passes iff main is isolated and free or owned by this app, log and admin are shared, all three are in range, and they are pairwise distinct (the same checks are inline in gen_config.py, lines 365-407) |
| AppValidator.AllocateState | tools/app_validator.py:52-66 | once main is isolated and claimable, the table is the old one with main owned by the app, whatever fails later; otherwise it is unchanged; no other entry ever changes |
| AppValidator.AllocateEarlyFailures | tools/app_validator.py:52-65 | a main CPU that is not isolated, or owned by another app, fails with that error and leaves the table unchanged |
| AppValidator.AllocateIdempotent | tools/app_validator.py:57-66 | repeating the same allocation on the table it left gives the same outcome and table |
| AppValidator.AllocateExclusive | tools/app_validator.py:57-65 | after one app claims an isolated CPU, a second app naming the same main CPU fails with "already used by" the first, table unchanged |
| AppValidator.CheckCpusAnyOrder | tools/app_validator.py:76-80 | the loop over the used CPUs, in any visiting order, passes iff all are in [0, total); a failure names some CPU that is out of range |
| AppValidator.AllocateReportPassIff | tools/app_validator.py:37-86 | whichever out-of-range CPU is named, the allocation passes iff main is isolated and claimable, log and admin are shared, all three are in range and pairwise distinct |
| AppValidator.AllocateRangeReport | tools/app_validator.py:50-80 | a range failure comes only after main is isolated and claimed and log and admin are shared; it names one of the three CPUs, which is out of range, and the claim stays in the table |
| AppValidator.BusyUsage.ValidateAppCpuAllocation | tools/app_validator.py:37-86 | updates the object's table in place to the table the allocation spec leaves; the outcome is the spec's, except that a range failure may name any of the out-of-range CPUs |
| DeploymentLoader.LoadDatacenter | tools/deployment_loader.py:9-22 | succeeds iff the datacenter's hosts file exists and maps the host to a mapping, and returns that mapping |
| DeploymentLoader.LoadDeployment | tools/deployment_loader.py:25-43 | a missing deployments file raises; a success always carries a truthy app definition |
| DeploymentLoader.LoadDeploymentSpec | tools/deployment_loader.py:25-43 | succeeds iff the host's section is a non-empty mapping with a truthy entry for the app, returning that entry; an empty host section exits |
| TemplateContext.FindNicIpFirst | tools/template_context.py:22-25 | the IP found is that of the first NIC whose name matches |
| TemplateContext.FindNicIpFound | tools/template_context.py:22-25 | whenever an IP is found, it is the IP of a first matching NIC |
| TemplateContext.FindNicIpNone | tools/template_context.py:22-25 | over mapping NICs, the search finds nothing iff no NIC has the name |
| TemplateContext.LookupImpose | tools/template_context.py:31-40 | after the update, the five imposed keys read their new values and every other key reads as in env |
| TemplateContext.ReplacementsContents | tools/template_context.py:31-40 | every env key is in the result; non-imposed keys keep env's value; the CPU roles equal the arguments; `listen_port` is env's value or None; `listen_nic` is the resolved value |
| TemplateContext.ListenNicRequired | tools/template_context.py:15-20 | a template using `{{listen_nic}}` with no truthy `listen_nic` in env exits |
| TemplateContext.ListenNicResolved | tools/template_context.py:15-31 | when it is needed, `listen_nic` becomes the IP of the first NIC with that name |
| TemplateContext.ListenNicNotFound | tools/template_context.py:22-29 | when it is needed and no NIC has the name, the builder exits |
| TemplateContext.ListenNicUnused | tools/template_context.py:15-34 | a template without `{{listen_nic}}` never fails, ignores the host's NICs, and passes env's raw `listen_nic` through |
| CrossRefResolver.SpanWord | tools/cross_ref_resolver.py:19 | `[A-Za-z0-9_]+` takes the longest run of word characters |
| CrossRefResolver.SpanSpace | tools/cross_ref_resolver.py:19 | `\s*` takes the longest run of whitespace |
| CrossRefResolver.MatchAt | tools/cross_ref_resolver.py:19 | a match ends past its start and captures two non-empty word strings |
| CrossRefResolver.FindAll | tools/cross_ref_resolver.py:20 | every pair `findall` reports consists of two words |
| CrossRefResolver.RefPairs | tools/cross_ref_resolver.py:20 | the distinct pairs of the text are all word pairs |
| CrossRefResolver.SpanWordExact | tools/cross_ref_resolver.py:19 | a maximal run of word characters is exactly what the scanner takes |
| CrossRefResolver.SpanSpaceExact | tools/cross_ref_resolver.py:19 | a maximal run of whitespace is exactly what the scanner takes |
| CrossRefResolver.MatchAtExact | tools/cross_ref_resolver.py:19 | text shaped `{{ ws app . key ws }}` at i is matched with exactly that app, key and end |
| CrossRefResolver.FindAllAtMatch | tools/cross_ref_resolver.py:20 | a match at i is reported, and scanning resumes after it |
| CrossRefResolver.PlaceholderLayout | tools/cross_ref_resolver.py:19 | the placeholder text splits at the expected offsets |
| CrossRefResolver.FindAllSingle | tools/cross_ref_resolver.py:19-20 | a text that is exactly one placeholder yields exactly its pair |
| CrossRefResolver.PlaceholderFound | tools/cross_ref_resolver.py:19-20 | `{{ app.key }}` with any whitespace padding yields exactly {(app, key)} |
| CrossRefResolver.RefNameInjective | tools/cross_ref_resolver.py:89-91 | distinct word pairs get distinct result keys `app.key` |
| CrossRefResolver.Lower | tools/cross_ref_resolver.py:34 | lower-casing keeps the length |
| CrossRefResolver.LowerAt | tools/cross_ref_resolver.py:34 | lower-casing maps each character on its own |
| CrossRefResolver.ShmKeyAnyCase | tools/cross_ref_resolver.py:34 | a key is a shared-memory key iff it spells "shm" in any mix of cases, e.g. "SHM" or "Shm" |
| CrossRefResolver.UnknownAppFails | tools/cross_ref_resolver.py:25-30 | a reference to an app missing from the index exits |
| CrossRefResolver.ShmAcrossHostsFails | tools/cross_ref_resolver.py:34-45 | an shm key owned on another host exits, whatever the repository holds (the check runs before any load) |
| CrossRefResolver.PlainKeyResolves | tools/cross_ref_resolver.py:68-91 | a key missing from the first template's `cfg_envs` exits; any other present key maps to `str` of its value |
| CrossRefResolver.ListenNicRefResolves | tools/cross_ref_resolver.py:76-89 | `listen_nic` maps to the IP of the first NIC with that name on the owner's host |
| CrossRefResolver.ResolvedAllStep | tools/cross_ref_resolver.py:24-91 | resolving one more pair keeps the loop invariant |
| CrossRefResolver.ResolveEach | tools/cross_ref_resolver.py:24-93 | the loop over the set succeeds iff every pair resolves, then holds each pair's value; a failure is some pair's error |
| CrossRefResolver.ResolveCrossAppPlaceholders | tools/cross_ref_resolver.py:9-93 | succeeds iff every distinct `{{app.key}}` of the text resolves; the keys are exactly `app.key` of those pairs, each with its value; a failure is the error of some pair |
| ConfigRenderer.GetSetPath | tools/config_renderer.py:18-26 | after storing v at a dotted path, reading the path gives v |
| ConfigRenderer.SetPathOther | tools/config_renderer.py:18-26 | storing at one path leaves every diverging path's value unchanged |
| ConfigRenderer.SetPathReplacesNonMapping | tools/config_renderer.py:21-24 | a missing or non-mapping intermediate is replaced by a fresh mapping holding only the rest of the path |
| ConfigRenderer.KeyPath | tools/config_renderer.py:14-18 | an undotted key is a one-step path |
| ConfigRenderer.ContextFromAppend | tools/config_renderer.py:13-26 | entries are applied in order: one more entry stores its value at its path in the context built so far |
| ConfigRenderer.BuildJinjaContext | tools/config_renderer.py:11-27 | the cursor-walking loop builds exactly the context of the flat entries in order |
| ConfigRenderer.ContextLastEntry | tools/config_renderer.py:13-26 | the last entry's value is readable at its path; an undotted key lands at the top level |
| ConfigRenderer.InjectLogDirSpec | tools/config_renderer.py:63-70 | with a log dir and a mapping `logging`, `logging.log_dir` becomes dir + "/" + app and nothing else changes |
| ConfigRenderer.InjectLogDirFails | tools/config_renderer.py:63-70 | injection fails iff a log dir is given and `logging` is missing or not a mapping; without a log dir the object is untouched |
| ConfigRenderer.LoopStepSpec | tools/config_renderer.py:79-124 | an entry passes iff it is valid against the table before the render; only this app's claims are added; a passing busy-spin entry leaves its CPU owned by the app |
| ConfigRenderer.CheckLoopsSpec | tools/config_renderer.py:78-124 | the loop passes iff every entry is valid; the table only gains the app's claims; after a pass every busy-spin CPU is owned by the app |
| ConfigRenderer.AdminLoopMustNotSpin | tools/config_renderer.py:98-103 | an `admin_loop` with `busy_spin: true` is never valid |
| ConfigRenderer.PostChecksSpec | tools/config_renderer.py:58-131 | passes iff the value is an object, the log dir injects, `event_loops` is a list whose entries are all valid, and one is an `admin_loop` |
| ConfigRenderer.PostChecksOnlyAppAdded | tools/config_renderer.py:110-124 | whatever the outcome, the busy-CPU table only gains the app's own claims |
| ConfigRenderer.CheckLoop | tools/config_renderer.py:79-124 | one entry's check on the shared table updates it in place exactly as the spec step |
| ConfigRenderer.CheckEventLoops | tools/config_renderer.py:78-125 | the loop updates the table as the spec does, and when it passes the flag is set iff some entry is an `admin_loop` |
| ConfigRenderer.ValidateAndInject | tools/config_renderer.py:58-131 | the post-render checks return and claim exactly as the spec above (the same checks are inline in gen_config.py, lines 550-623) |
| AppIndexer.IndexAppsSpec | tools/app_indexer.py:37-57 | the fold over one host fails iff some app is already indexed elsewhere, with that duplicate's error; on success it extends the index, maps every app to this host, and adds nothing else |
| AppIndexer.IndexAppsClash | tools/app_indexer.py:43-55 | an app already indexed at another location makes the fold fail |
| AppIndexer.IndexAppsSkips | tools/app_indexer.py:38-41 | `log_dir`, `shared_cpus` and non-mapping entries are never registered |
| AppIndexer.IndexHostsSpec | tools/app_indexer.py:33-57 | the hosts loop succeeds iff no app is already indexed at another location and none appears under two hosts; it then maps every app of every mapping host section to (dc, host), keeps earlier entries and adds nothing else |
| AppIndexer.IndexDcsSpec | tools/app_indexer.py:15-57 | the datacenter loop succeeds iff every deployments file read is a mapping without a top-level `deployments` key, no app is already indexed elsewhere, and no app is deployed at two locations; it then maps every app to its (dc, host), keeps earlier entries and adds nothing else |
| AppIndexer.BuildIndexSpec | tools/app_indexer.py:9-59 | a missing root gives the empty index; otherwise the build succeeds iff no file uses the legacy layout or is not a mapping and no app is deployed at two locations; every deployed app then maps to where it appears, and every key is a deployed app |
| AppIndexer.DuplicateAppRejected | tools/app_indexer.py:43-55 | one name at two different locations anywhere in the tree fails |
| AppIndexer.LegacyLayoutRejected | tools/app_indexer.py:27-30 | a manifest with a top-level `deployments` key exits |
| AppIndexer.IndexHostApps | tools/app_indexer.py:37-57 | the loop over one host's entries returns exactly the fold |
| AppIndexer.IndexDatacenter | tools/app_indexer.py:15-57 | one datacenter's loops return exactly the fold |
| AppIndexer.BuildGlobalAppIndex | tools/app_indexer.py:9-59 | the nested loops return exactly the index spec |
| SchemaValidation.AsMapping | tools/schema_validation.py:14-17 | accepts exactly mappings, returning them |
| SchemaValidation.AsList | tools/schema_validation.py:20-23 | accepts exactly lists, returning them |
| SchemaValidation.AsStrSpec | tools/schema_validation.py:26-33 | accepts exactly non-blank strings; null gets its own error |
| SchemaValidation.IntField | tools/schema_validation.py:36-40 | passes iff the field converts with `int()` |
| SchemaValidation.TextFieldPresent | tools/schema_validation.py:90-91 | a text field that passes is present |
| SchemaValidation.CheckEachSpec | tools/schema_validation.py:53-80 | a loop of checks passes iff every item passes; a failure is the first failing item's error |
| SchemaValidation.TagEntriesSpec | tools/schema_validation.py:58-62 | the tags pass iff every tag name and value is a non-blank string |
| SchemaValidation.TagsRequiredSpec | tools/schema_validation.py:72-80 | the tags pass iff every tag value is one of the stringified `required_versions` |
| SchemaValidation.CheckBinarySpec | tools/schema_validation.py:53-80 | one binary's entry passes iff it is well formed as a whole |
| SchemaValidation.RequiredVersionsNeeded | tools/schema_validation.py:64-69 | a missing or empty `required_versions` exits |
| SchemaValidation.RegistrySpec | tools/schema_validation.py:43-80 | the registry passes iff it is a mapping whose every binary entry is valid |
| SchemaValidation.TextFieldSpec | tools/schema_validation.py:90-91 | `_as_str(str(d.get(k, "")))` passes iff the text of the value (or of "" when absent) is not blank |
| SchemaValidation.NumaNodesSpec | tools/schema_validation.py:93-100 | `numa_nodes` passes iff it is absent, or a list of mappings each with an int `id` and non-blank `cpus` text |
| SchemaValidation.NicsSpec | tools/schema_validation.py:106-110 | the NIC loop passes iff every NIC is a mapping with a non-blank string name and address |
| SchemaValidation.HostSpec | tools/schema_validation.py:83-110 | a host passes iff it is a mapping with an int `cpus`, non-blank texts for both CPU sets, valid `numa_nodes` if present, and a non-empty `nics` list of named, addressed NICs; a passing host has both CPU-set keys |
| SchemaValidation.EmptyNicsRejected | tools/schema_validation.py:102-105 | an empty `nics` list exits |
| SchemaValidation.RegisterWf | tools/schema_validation.py:228-229 | registering an application keeps the schema well formed |
| SchemaValidation.IndexOfRegister | tools/schema_validation.py:228 | registering records the application's location in the index |
| SchemaValidation.AppsStepIndex | tools/schema_validation.py:177-229 | one host's validation registers the same locations as the app indexer's fold |
| SchemaValidation.HostsStepIndex | tools/schema_validation.py:144-229 | all hosts' validation registers the same locations as the indexer |
| SchemaValidation.DeploymentsSchemaIndex | tools/schema_validation.py:124-231 | a datacenter that validates yields exactly the app indexer's index for it |
| SchemaValidation.DuplicateWithinDatacenter | tools/schema_validation.py:213-226 | one app under two hosts of a datacenter fails |
| SchemaValidation.LegacyLayoutRejected | tools/schema_validation.py:130-136 | a top-level `deployments` key exits with the legacy-schema error |
| SchemaValidation.HostStepSpec | tools/schema_validation.py:144-211 | a host that passes is known to the topology, is a mapping, and every non-setting entry passes the app checks |
| SchemaValidation.AppsStepValid | tools/schema_validation.py:177-211 | every non-setting entry of a host that passes is a valid application |
| SchemaValidation.CheckAppSpec | tools/schema_validation.py:181-211 | a valid app has a non-blank `binary`, a `tag` or `version`, and a non-empty list of valid templates |
| SchemaValidation.RegisterHostApps | tools/schema_validation.py:177-229 | the loop over one host's apps returns exactly the spec step |
| SchemaValidation.ValidateHost | tools/schema_validation.py:144-229 | the checks of one host return exactly the spec step |
| SchemaValidation.ValidateHosts | tools/schema_validation.py:144-229 | the loop over every host of the deployments file returns exactly the spec fold, stopping at the first failing host |
| SchemaValidation.ValidateDeploymentsSchema | tools/schema_validation.py:124-231 | returns exactly the datacenter spec |
| SchemaValidation.MergeAppsSpec | tools/schema_validation.py:412-429 | the merge fails iff some name clashes with another location; on success every app is registered at its own location, earlier ones are kept, and nothing outside the two indexes appears |
| SchemaValidation.DuplicateAcrossDatacenters | tools/schema_validation.py:412-424 | one name at different locations in two datacenters fails |
| SchemaValidation.DcStepKeeps | tools/schema_validation.py:383-429 | one datacenter's step keeps the schema well formed and every earlier location |
| SchemaValidation.DcStepRegisters | tools/schema_validation.py:383-429 | after a datacenter's step, each app deployed there is registered at its host |
| SchemaValidation.DcStepOnlyDeployed | tools/schema_validation.py:383-429 | a datacenter's step registers nothing but the apps deployed in that datacenter |
| SchemaValidation.CollectSchemasSpec | tools/schema_validation.py:383-429 | after all datacenters, every deployed app is registered at its location, and every registered name is a deployed app or was registered before |
| SchemaValidation.DependsCheckSpec | tools/schema_validation.py:337-369 | no `depends_on` means no check; otherwise it passes iff every declared name is indexed and every referenced app is declared, with the specific errors |
| SchemaValidation.ExtraDependsAllowed | tools/schema_validation.py:360-369 | declaring extra indexed apps never causes a failure |
| SchemaValidation.PairCheckFailures | tools/schema_validation.py:274-309 | an unknown app, a missing key, and an shm key from another host each exit with their error |
| SchemaValidation.NicIpByNameFirst | tools/schema_validation.py:323-327 | the IP is that of the first mapping NIC with the name |
| SchemaValidation.NicIpByNameNone | tools/schema_validation.py:323-328 | with no such NIC the search gives None |
| SchemaValidation.CheckPairs | tools/schema_validation.py:274-334 | the loop over the set of pairs passes iff every pair passes; a failure is some pair's error |
| SchemaValidation.TemplatesPrefixStep | tools/schema_validation.py:267-334 | one more template adds exactly its own validity and its referenced apps |
| SchemaValidation.TemplateFailure | tools/schema_validation.py:267-334 | one invalid template makes the list invalid |
| SchemaValidation.CheckTemplates | tools/schema_validation.py:267-334 | the template loop passes iff every template is valid, and then returns exactly the referenced apps |
| SchemaValidation.ValidateAppRefs | tools/schema_validation.py:242-369 | one app's check passes iff its definition reads, its `depends_on` is well formed, its templates' references are valid, and the depends rules hold |
| SchemaValidation.ValidateCrossAppRefs | tools/schema_validation.py:234-369 | passes iff every indexed application's references are valid |
| SchemaValidation.MergeDatacenter | tools/schema_validation.py:412-429 | the merge loop returns exactly the merge spec |
| SchemaValidation.ValidateDatacenter | tools/schema_validation.py:383-429 | one datacenter's validation returns exactly the spec step |
| SchemaValidation.ValidateAllSchemas | tools/schema_validation.py:372-431 | passes iff the whole tree is valid; a bad registry fails first with its error; a missing root then exits |
| GenConfig.LoadDeploymentHereNoShared | tools/gen_config.py:176-190 | the deployment as gen_config loads it names no shared CPUs: its `shared_cpus` parses to the empty set |
| GenConfig.PrepareHostSpec | tools/gen_config.py:289-310 | out-of-range or overlapping host CPU sets fail before anything else is loaded; on success the host's sets are in range and disjoint, the deployment is the shared loader's with `shared_cpus` emptied, and the shared set is exactly the host's, even when empty |
| GenConfig.CfgEnvsForms | tools/gen_config.py:343-350 | a list-form `cfg_envs` reads its first environment exactly as a mapping form would |
| GenConfig.CfgEnvsEmptyList | tools/gen_config.py:344-347 | an empty `cfg_envs` list exits |
| GenConfig.ClaimStepSpec | tools/gen_config.py:337-407 | a template passes iff its CPUs parse and their allocation passes; other hosts' tables are untouched; the host's table is only created once main is isolated |
| GenConfig.ClaimBeforeSharedChecks | tools/gen_config.py:372-388 | the main CPU is claimed before `log_cpu` is found not shared, and the claim stays |
| GenConfig.ClaimExclusive | tools/gen_config.py:372-383 | on one host, a second app naming a main CPU that a first app claimed fails, and the table is unchanged |
| GenConfig.KeyMatchAt | tools/gen_config.py:532-533 | a match covers at least `{{`, the key and `}}` and stays within the text |
| GenConfig.UpdateLookup | tools/gen_config.py:528 | after `update(cross_refs)`, each reference reads its value and every other key reads as before |
| GenConfig.SubstFromNoMatch | tools/gen_config.py:532-534 | with no match from i on, the substitution leaves the text unchanged |
| GenConfig.SubstAllNoMatch | tools/gen_config.py:530-534 | a text that no key matches is left unchanged |
| GenConfig.PlaceholderMatches | tools/gen_config.py:532-533 | `{{ ws key ws }}` is matched whole for that key |
| GenConfig.SubstPlaceholder | tools/gen_config.py:530-534 | a lone placeholder of a key becomes exactly the value |
| GenConfig.SpanOpen | tools/gen_config.py:536 | `[^}]+` takes the longest run without `}` |
| GenConfig.LeftoverAt | tools/gen_config.py:536 | a leftover match is at least five characters and stays within the text |
| GenConfig.LeftoverAtShape | tools/gen_config.py:536 | what matches is a whole `{{…}}` leftover, and a whole leftover matches from start to end |
| GenConfig.Leftovers | tools/gen_config.py:536 | every string `findall` reports is a leftover placeholder |
| GenConfig.LeftoversEmpty | tools/gen_config.py:536-537 | `findall` finds nothing iff the pattern matches nowhere |
| GenConfig.BelowIrreflexive | tools/gen_config.py:540 | Python's string order is irreflexive |
| GenConfig.BelowTransitive | tools/gen_config.py:540 | and transitive |
| GenConfig.BelowTotal | tools/gen_config.py:540 | and total |
| GenConfig.SortedCons | tools/gen_config.py:540 | a smaller head keeps a list strictly sorted |
| GenConfig.Insert | tools/gen_config.py:540 | insertion keeps strict order and adds exactly one member |
| GenConfig.InsertFront | tools/gen_config.py:540 | inserting below the head keeps strict order |
| GenConfig.InsertBehind | tools/gen_config.py:540 | inserting behind the head keeps strict order |
| GenConfig.SortedDistinct | tools/gen_config.py:540 | `sorted(set(xs))` is strictly sorted and has exactly xs's members |
| GenConfig.SortedUnique | tools/gen_config.py:540 | two strictly sorted lists with the same members are equal, so the reported list is determined |
| GenConfig.RenderSpec | tools/gen_config.py:530-541 | rendering succeeds iff no leftover remains after substitution, giving the substituted text; otherwise it exits naming exactly the distinct leftovers, strictly sorted |
| GenConfig.PlainTextUnchanged | tools/gen_config.py:530-541 | a text with no `{{` renders to itself |
| GenConfig.UnknownPlaceholderReported | tools/gen_config.py:536-541 | a placeholder that no key matches is reported as unresolved |
| GenConfig.RenderPlaceholder | tools/gen_config.py:530-541 | a lone placeholder with its key renders to the value |
| GenConfig.RenderTemplate | tools/gen_config.py:530-541 | the loop rewriting `rendered` step by step returns exactly the render spec |
| GenConfig.AppJobs | tools/gen_config.py:1015-1021 | every job of a host section is at that host |
| GenConfig.RunJobsFailRaised | tools/gen_config.py:1020-1023 | the pass only stops on an exception that is not a SystemExit |
| GenConfig.RunJobsContained | tools/gen_config.py:1020-1023 | if rendering never raises anything else, the pass always completes |
| GenConfig.RunJobsAppend | tools/gen_config.py:1015-1023 | running two job lists one after the other is running their concatenation |
| GenConfig.RunAppsJobs | tools/gen_config.py:1015-1023 | a host's loop renders exactly its mapping apps in order |
| GenConfig.RunHostsJobs | tools/gen_config.py:1003-1023 | a datacenter's loop renders exactly the apps of known mapping hosts in order |
| GenConfig.RunDcsJobs | tools/gen_config.py:974-1025 | the second pass renders exactly the job list, in order, each job seeing the table the previous left |
| GenConfig.AppJobsMembers | tools/gen_config.py:1015-1017 | a host's jobs are exactly its mapping-valued entries |
| GenConfig.PassesSpec | tools/gen_config.py:908-1025 | when rendering never raises, a run fails only through the first pass; an index that builds maps every mapping entry to its location |
| GenConfig.IndexPass | tools/gen_config.py:908-944 | the first pass's loops build exactly the index fold, without skipping settings keys |
| GenConfig.Generator.ClaimTemplateCpus | tools/gen_config.py:372-407 | updates the run's busy table in place exactly as the claim step, through the allocation's class; the outcome is the claim step's, except that a range failure may name any out-of-range CPU of the three; the index is untouched |
| GenConfig.Generator.RenderApps | tools/gen_config.py:1015-1023 | the app loop updates the busy table as the host spec does; the index is untouched |
| GenConfig.Generator.RenderHosts | tools/gen_config.py:1003-1023 | the host loop updates the busy table as the datacenter spec does |
| GenConfig.Generator.RenderDatacenter | tools/gen_config.py:978-1025 | one datacenter's rendering updates the busy table as its spec does |
| GenConfig.Generator.GenerateAll | tools/gen_config.py:887-1025 | both tables are reset; a missing root returns with them empty; a tree that fails validation fails with them empty; a valid tree gives the two passes' outcome and tables |

## Left out

- YAML, JSON and jinja parsing and printing: inputs are already-parsed `Value`s, and templates are plain text. The `SandboxedEnvironment` rendering and `json.loads`/`dumps` are not modelled, because they are third-party libraries.
- File system work is modelled as total maps and sequences: existence checks, directory iteration, `mkdir`, writing configs, binary symlinks (`load_binary_target`, tools/binary_resolver.py, tools/app_emitter.py, tools/gen_binaries.py).
- `validate_and_render` as one function is not composed. Its stages are modelled separately: `PrepareHost`, `ClaimStep`, `TemplateContext`, `CrossRefResolver`, `Render`, `ConfigRenderer.PostChecks`. `GenerateAll` takes it as a parameter `render`. The composition is left open because the cross-reference stage picks its error nondeterministically, from a set in hash order, and the stages in between are file and JSON work.
- GenConfig.Generator.GenerateAll: after a first-pass failure, the model leaves the index empty, where Python keeps the partial index it had built before exiting.
- Legacy-layout branches (tools/gen_config.py:74-86, 153-172, 651-787, 946-971, 1027-1046): superseded, and unreachable once `validate_all_schemas` has rejected a top-level `deployments` key. The model treats such a datacenter as rendering nothing.
- The refresh of manifest comments (tools/gen_config.py:790-884, called at 987-993; tools/comment_refresher.py) is not modelled. The model renders from each deployments file as it was before `generate_all` rewrites it. The rewrite is not only cosmetic, and the file is read back before rendering:
  - it keeps only `log_dir`, `shared_cpus`, `binary`, `tag`, `version`, and each template's `name` and mapping-form `cfg_envs`;
  - a list-form `cfg_envs` is dropped, so under `generate_all` such an application exits with the bad-`cfg_envs` error, and the list case of `GenConfig.CfgEnvsForms` is reached only by a direct `validate_and_render`;
  - a null `log_dir` is written back as the text `None`, which is read again as the string "None" and then injected as a log directory;
  - scalars are written back with Python's `str()`, so their YAML type can change.
- The CLI (tools/deployctl.py, tools/gen_config.py:1049-1066) is I/O only.
- Printed output is left out: the NUMA listing (tools/gen_config.py:409-413), warnings for extra `depends_on` entries and per-app failure messages. The NUMA map is still built, because building it can fail.
- Error messages are reduced to a `Reason` constructor with its key data. The message text is left out.
- Values.Value: mapping keys are strings only, so a YAML key that is an int, a boolean or null cannot be represented. Equality of values is structural, whereas Python's `==` has `1 == True` and ignores dictionary order. As a result, several source paths are not modelled:
  - the rejection of a non-string tag name (tools/schema_validation.py:61, e.g. `tags: {2024: "1.0"}`) cannot arise;
  - int-keyed host and application names (tools/schema_validation.py:85, 144, 177; tools/gen_config.py:1003, 1015) cannot occur;
  - `str()` of a non-string `cfg_envs` key (tools/gen_config.py:533) is never exercised;
  - the NIC name match `nic.get("name") == nic_name` (tools/template_context.py:23, `TemplateContext.NicNamed`) is structural equality.
- SchemaValidation.TagEntriesSpec: because keys are strings, the contract covers only the tag values and the blankness of tag names, not the non-string-key error of tools/schema_validation.py:61.
- Python `str()` of lists, mappings and floats is a fixed stand-in string; only `str` of strings, ints, booleans and None is exact. There are no floats.
- `int()` on strings accepts optional sign and ASCII digits with surrounding whitespace. Underscores and non-ASCII digits are left out.
- `re.sub` treats backslashes in the replacement value specially; the model substitutes the value literally.
- GenConfig.KeyMatchAt: a key that itself begins or ends with whitespace can match differently in Python, because the regex can backtrack. The model takes each whitespace run whole.
- CrossRefResolver.ResolveCrossAppPlaceholders and SchemaValidation.CheckPairs iterate a Python `set` in hash order. When several references fail, the model promises only that the error is that of some failing reference.
- AppValidator.Allocate, AppValidator.BusyUsage.ValidateAppCpuAllocation and GenConfig.Generator.ClaimTemplateCpus: the range check of `{log_cpu, main_loop_cpu, admin_loop_cpu}` (app_validator.py:76-80, and gen_config.py:396-400) visits the set in Python's iteration order, which follows the int hashes and the table layout, not ascending order. The function `Allocate` (and `GenConfig.ClaimStep` built on it) is a reference that names the smallest out-of-range CPU. The methods promise only that some out-of-range CPU of the three is named; the pass/fail verdict, the other errors and the busy table are exact.
- ConfigRenderer.InjectLogDirSpec: the log path is written as `dir + "/" + app`. The source builds it with `str(Path(dir) / app)`, which drops a trailing slash of `dir`, collapses repeated slashes and `.` segments, and ignores `dir` when `app` is absolute. These differ only in the spelling of the path, and path normalisation is not modelled.
- GenConfig.UpdateLookup: the cross references are given as a sequence with distinct names, standing in for the dictionary `cross_refs`.
- Dependency ordering, topological sorting and cycle detection: no such code exists in the core. Only the `depends_on` consistency check does.
