/** The global application index: every application name mapped to the
    (datacenter, host) it is deployed on, built from every datacenter's
    deployments file (tools/app_indexer.py). */
module AppIndexer {
  import opened Base
  import opened Text
  import opened Values

  /** One entry of the deployments root: its name, whether it is a directory,
      and its parsed `deployments.yaml` when that file exists. */
  datatype DcDir = DcDir(name: string, isDir: bool, deploymentsFile: Option<Value>)

  /** Keys of a host section that are settings, not applications. */
  predicate IsHostSetting(key: string) {
    key == "log_dir" || key == "shared_cpus"
  }

  /** A host-section entry that registers an application: its definition is a
      mapping and, when `skipSettings` holds, its key is not a setting.
      build_global_app_index skips the settings keys; the first pass of
      generate_all (tools/gen_config.py) only skips values that are not
      mappings. */
  predicate IsAppEntry(e: (string, Value), skipSettings: bool) {
    !(skipSettings && IsHostSetting(e.0)) && e.1.VObj?
  }

  /** `index'` keeps every entry of `index` unchanged. */
  predicate Extends(index: map<string, Loc>, index': map<string, Loc>) {
    forall n | n in index :: n in index' && index'[n] == index[n]
  }

  // ---------------------------------------------------------------------------
  // The fold, level by level

  /** The applications of one host section registered at `loc`; a name already
      registered at another location fails. */
  function IndexApps(index: map<string, Loc>, loc: Loc, apps: Fields, skipSettings: bool): Result<map<string, Loc>>
    decreases |apps|
  {
    if apps == [] then Ok(index)
    else
      var (name, def) := apps[0];
      if !IsAppEntry(apps[0], skipSettings) then IndexApps(index, loc, apps[1..], skipSettings)
      else if name in index && index[name] != loc then Err(Exit(DuplicateApp(name, index[name], loc)))
      else IndexApps(index[name := loc], loc, apps[1..], skipSettings)
  }

  /** The host sections of one datacenter; values that are not mappings are
      skipped. */
  function IndexHosts(index: map<string, Loc>, dc: string, hosts: Fields, skipSettings: bool): Result<map<string, Loc>>
    decreases |hosts|
  {
    if hosts == [] then Ok(index)
    else if !hosts[0].1.VObj? then IndexHosts(index, dc, hosts[1..], skipSettings)
    else
      var index' :- IndexApps(index, Loc(dc, hosts[0].0), hosts[0].1.fields, skipSettings);
      IndexHosts(index', dc, hosts[1..], skipSettings)
  }

  /** One datacenter: skipped when it is not a directory or has no deployments
      file; a file with a top-level `deployments` key is the retired layout and
      is rejected. */
  function IndexDc(index: map<string, Loc>, d: DcDir, skipSettings: bool): Result<map<string, Loc>> {
    if !d.isDir || d.deploymentsFile.None? then Ok(index)
    else
      var data := OrEmpty(d.deploymentsFile.value);
      var legacy :- PyIn("deployments", data);
      if legacy then Err(Exit(LegacySchema))
      else if !data.VObj? then Err(Raise(BadShape))
      else IndexHosts(index, d.name, data.fields, skipSettings)
  }

  function IndexDcs(index: map<string, Loc>, dirs: seq<DcDir>, skipSettings: bool): Result<map<string, Loc>>
    decreases |dirs|
  {
    if dirs == [] then Ok(index)
    else
      var index' :- IndexDc(index, dirs[0], skipSettings);
      IndexDcs(index', dirs[1..], skipSettings)
  }

  /** build_global_app_index: empty when the deployments root is missing. */
  function BuildIndex(root: Option<seq<DcDir>>): Result<map<string, Loc>> {
    match root
    case None => Ok(map[])
    case Some(dirs) => IndexDcs(map[], dirs, true)
  }

  // ---------------------------------------------------------------------------
  // Properties

  /** One host section: it fails exactly when one of its applications is
      already registered elsewhere (and then names that clash); otherwise
      every application is registered here, earlier entries are kept and
      nothing else is added. */
  lemma {:induction false} IndexAppsSpec(index: map<string, Loc>, loc: Loc, apps: Fields, skipSettings: bool)
    ensures IndexApps(index, loc, apps, skipSettings).Ok? <==>
      forall i | 0 <= i < |apps| && IsAppEntry(apps[i], skipSettings) :: apps[i].0 !in index || index[apps[i].0] == loc
    ensures IndexApps(index, loc, apps, skipSettings).Err? ==>
      exists i | 0 <= i < |apps| && IsAppEntry(apps[i], skipSettings) ::
        apps[i].0 in index && index[apps[i].0] != loc
        && IndexApps(index, loc, apps, skipSettings).error == Exit(DuplicateApp(apps[i].0, index[apps[i].0], loc))
    ensures IndexApps(index, loc, apps, skipSettings).Ok? ==>
      var r := IndexApps(index, loc, apps, skipSettings).value;
      && Extends(index, r)
      && (forall i | 0 <= i < |apps| && IsAppEntry(apps[i], skipSettings) :: apps[i].0 in r && r[apps[i].0] == loc)
      && (forall n | n in r :: n in index || exists i | 0 <= i < |apps| :: IsAppEntry(apps[i], skipSettings) && apps[i].0 == n)
    decreases |apps|
  {
    if apps != [] {
      var rest := apps[1..];
      assert forall i | 1 <= i < |apps| :: apps[i] == rest[i - 1];
      var index' := if IsAppEntry(apps[0], skipSettings) then index[apps[0].0 := loc] else index;
      if !IsAppEntry(apps[0], skipSettings) || !(apps[0].0 in index && index[apps[0].0] != loc) {
        IndexAppsSpec(index', loc, rest, skipSettings);
        if IndexApps(index, loc, apps, skipSettings).Err? {
          var i :| 0 <= i < |rest| && IsAppEntry(rest[i], skipSettings) && rest[i].0 in index' && index'[rest[i].0] != loc
            && IndexApps(index, loc, apps, skipSettings).error == Exit(DuplicateApp(rest[i].0, index'[rest[i].0], loc));
          assert apps[i + 1] == rest[i];
        }
      }
    }
  }

  /** Two application entries with the same name under two different locations
      cannot both be registered. */
  lemma IndexAppsClash(index: map<string, Loc>, loc: Loc, apps: Fields, skipSettings: bool, i: int)
    requires 0 <= i < |apps| && IsAppEntry(apps[i], skipSettings)
    requires apps[i].0 in index && index[apps[i].0] != loc
    ensures IndexApps(index, loc, apps, skipSettings).Err?
  {
    IndexAppsSpec(index, loc, apps, skipSettings);
  }

  /** Settings keys and non-mapping values are never registered. */
  lemma IndexAppsSkips(index: map<string, Loc>, loc: Loc, apps: Fields, skipSettings: bool, n: string)
    requires IndexApps(index, loc, apps, skipSettings).Ok?
    requires n !in index
    requires forall i | 0 <= i < |apps| && apps[i].0 == n :: !IsAppEntry(apps[i], skipSettings)
    ensures n !in IndexApps(index, loc, apps, skipSettings).value
  {
    IndexAppsSpec(index, loc, apps, skipSettings);
  }

  /** An application under a host section of the datacenter. */
  predicate AppUnder(hosts: Fields, host: string, app: string, skipSettings: bool) {
    exists i, j | 0 <= i < |hosts| && hosts[i].1.VObj? && 0 <= j < |hosts[i].1.fields| ::
      hosts[i].0 == host && IsAppEntry(hosts[i].1.fields[j], skipSettings) && hosts[i].1.fields[j].0 == app
  }

  /** `app` is an application entry of the host section `apps`. */
  predicate InSection(apps: Fields, app: string, skipSettings: bool) {
    exists j | 0 <= j < |apps| :: IsAppEntry(apps[j], skipSettings) && apps[j].0 == app
  }

  /** No application of the host sections is registered in `index` at another
      location. */
  ghost predicate HostsAgree(index: map<string, Loc>, dc: string, hosts: Fields, skipSettings: bool) {
    forall host, app | AppUnder(hosts, host, app, skipSettings) :: app !in index || index[app] == Loc(dc, host)
  }

  /** No application appears under two different hosts. */
  ghost predicate HostsUnique(hosts: Fields, skipSettings: bool) {
    forall h1, h2, app | AppUnder(hosts, h1, app, skipSettings) && AppUnder(hosts, h2, app, skipSettings) :: h1 == h2
  }

  /** The applications under a list of host sections are those of its first
      section and those under the rest. */
  lemma AppUnderCons(hosts: Fields, host: string, app: string, skipSettings: bool)
    requires hosts != []
    ensures AppUnder(hosts, host, app, skipSettings) <==>
      (hosts[0].1.VObj? && hosts[0].0 == host && InSection(hosts[0].1.fields, app, skipSettings))
      || AppUnder(hosts[1..], host, app, skipSettings)
  {
    var rest := hosts[1..];
    if AppUnder(hosts, host, app, skipSettings) {
      var i, j :| 0 <= i < |hosts| && hosts[i].1.VObj? && 0 <= j < |hosts[i].1.fields|
        && hosts[i].0 == host && IsAppEntry(hosts[i].1.fields[j], skipSettings) && hosts[i].1.fields[j].0 == app;
      if i > 0 {
        assert hosts[i] == rest[i - 1];
      }
    }
    if AppUnder(rest, host, app, skipSettings) {
      var i, j :| 0 <= i < |rest| && rest[i].1.VObj? && 0 <= j < |rest[i].1.fields|
        && rest[i].0 == host && IsAppEntry(rest[i].1.fields[j], skipSettings) && rest[i].1.fields[j].0 == app;
      assert rest[i] == hosts[i + 1];
    }
    if hosts[0].1.VObj? && hosts[0].0 == host && InSection(hosts[0].1.fields, app, skipSettings) {
      var j :| 0 <= j < |hosts[0].1.fields| && IsAppEntry(hosts[0].1.fields[j], skipSettings)
        && hosts[0].1.fields[j].0 == app;
      assert hosts[0].1.fields[j].0 == app;
    }
  }

  /** Registering the first section's applications turns the conditions on the
      whole list into the same conditions on the rest, against the new index. */
  lemma HostsStep(index: map<string, Loc>, index': map<string, Loc>, dc: string, hosts: Fields, skipSettings: bool)
    requires hosts != [] && hosts[0].1.VObj?
    requires forall app | InSection(hosts[0].1.fields, app, skipSettings) ::
      (app !in index || index[app] == Loc(dc, hosts[0].0)) && app in index' && index'[app] == Loc(dc, hosts[0].0)
    requires Extends(index, index')
    requires forall n | n in index' :: n in index || InSection(hosts[0].1.fields, n, skipSettings)
    ensures HostsAgree(index, dc, hosts, skipSettings) && HostsUnique(hosts, skipSettings) <==>
      HostsAgree(index', dc, hosts[1..], skipSettings) && HostsUnique(hosts[1..], skipSettings)
  {
    var rest := hosts[1..];
    var h0, apps := hosts[0].0, hosts[0].1.fields;
    forall host, app
      ensures AppUnder(hosts, host, app, skipSettings) <==>
        (host == h0 && InSection(apps, app, skipSettings)) || AppUnder(rest, host, app, skipSettings)
    {
      AppUnderCons(hosts, host, app, skipSettings);
    }
    if HostsAgree(index, dc, hosts, skipSettings) && HostsUnique(hosts, skipSettings) {
      forall host, app | AppUnder(rest, host, app, skipSettings)
        ensures app !in index' || index'[app] == Loc(dc, host)
      {
        if InSection(apps, app, skipSettings) {
          assert AppUnder(hosts, h0, app, skipSettings) && AppUnder(hosts, host, app, skipSettings);
        }
      }
    }
    if HostsAgree(index', dc, rest, skipSettings) && HostsUnique(rest, skipSettings) {
      forall host, app | AppUnder(hosts, host, app, skipSettings)
        ensures app !in index || index[app] == Loc(dc, host)
      {
        if !(host == h0 && InSection(apps, app, skipSettings)) && app in index {
          assert index'[app] == index[app];
        }
      }
      forall h1, h2, app | AppUnder(hosts, h1, app, skipSettings) && AppUnder(hosts, h2, app, skipSettings)
        ensures h1 == h2
      {
        if AppUnder(rest, h1, app, skipSettings) && !AppUnder(rest, h2, app, skipSettings) {
          assert index'[app] == Loc(dc, h0);
        } else if AppUnder(rest, h2, app, skipSettings) && !AppUnder(rest, h1, app, skipSettings) {
          assert index'[app] == Loc(dc, h0);
        }
      }
    }
  }

  /** A datacenter's host sections, in order: the fold succeeds exactly when
      no application is registered elsewhere already and none appears under
      two hosts; it then registers every application at its host, keeps the
      earlier entries and adds nothing else. */
  lemma {:induction false} IndexHostsSpec(index: map<string, Loc>, dc: string, hosts: Fields, skipSettings: bool)
    ensures IndexHosts(index, dc, hosts, skipSettings).Ok? <==>
      HostsAgree(index, dc, hosts, skipSettings) && HostsUnique(hosts, skipSettings)
    ensures IndexHosts(index, dc, hosts, skipSettings).Ok? ==>
      var r := IndexHosts(index, dc, hosts, skipSettings).value;
      && Extends(index, r)
      && (forall host, app | AppUnder(hosts, host, app, skipSettings) :: app in r && r[app] == Loc(dc, host))
      && (forall n | n in r :: n in index || exists host :: AppUnder(hosts, host, n, skipSettings))
    decreases |hosts|
  {
    if hosts != [] {
      var rest := hosts[1..];
      forall host, app
        ensures AppUnder(hosts, host, app, skipSettings) <==>
          (hosts[0].1.VObj? && hosts[0].0 == host && InSection(hosts[0].1.fields, app, skipSettings))
          || AppUnder(rest, host, app, skipSettings)
      {
        AppUnderCons(hosts, host, app, skipSettings);
      }
      if !hosts[0].1.VObj? {
        IndexHostsSpec(index, dc, rest, skipSettings);
      } else {
        var h0, apps := hosts[0].0, hosts[0].1.fields;
        IndexAppsSpec(index, Loc(dc, h0), apps, skipSettings);
        var step := IndexApps(index, Loc(dc, h0), apps, skipSettings);
        if step.Err? {
          var i :| 0 <= i < |apps| && IsAppEntry(apps[i], skipSettings)
            && apps[i].0 in index && index[apps[i].0] != Loc(dc, h0);
          assert InSection(apps, apps[i].0, skipSettings);
          assert AppUnder(hosts, h0, apps[i].0, skipSettings);
        } else {
          var index' := step.value;
          HostsStep(index, index', dc, hosts, skipSettings);
          IndexHostsSpec(index', dc, rest, skipSettings);
          if IndexHosts(index, dc, hosts, skipSettings).Ok? {
            var r := IndexHosts(index, dc, hosts, skipSettings).value;
            assert r == IndexHosts(index', dc, rest, skipSettings).value;
            forall n | n in r ensures n in index || exists host :: AppUnder(hosts, host, n, skipSettings) {
              if n !in index' {
                var host :| AppUnder(rest, host, n, skipSettings);
              } else if n !in index {
                assert AppUnder(hosts, h0, n, skipSettings);
              }
            }
          }
        }
      }
    }
  }

  /** The host sections of a datacenter entry that is a directory whose
      deployments file is a mapping; none otherwise. */
  function SectionsOf(d: DcDir): Fields {
    if d.isDir && d.deploymentsFile.Some? && OrEmpty(d.deploymentsFile.value).VObj? then
      OrEmpty(d.deploymentsFile.value).fields
    else []
  }

  /** An application deployed in the `k`-th datacenter at `host`. */
  predicate AppAt(dirs: seq<DcDir>, k: int, host: string, app: string, skipSettings: bool) {
    0 <= k < |dirs| && AppUnder(SectionsOf(dirs[k]), host, app, skipSettings)
  }

  /** A datacenter entry the fold can read: skipped, or a mapping without the
      retired top-level `deployments` key. */
  predicate DcReadable(d: DcDir) {
    !d.isDir || d.deploymentsFile.None?
    || (OrEmpty(d.deploymentsFile.value).VObj?
        && !HasKey(OrEmpty(d.deploymentsFile.value).fields, "deployments"))
  }

  predicate AllReadable(dirs: seq<DcDir>) {
    forall k | 0 <= k < |dirs| :: DcReadable(dirs[k])
  }

  /** No deployed application is registered in `index` at another location. */
  ghost predicate DcsAgree(index: map<string, Loc>, dirs: seq<DcDir>, skipSettings: bool) {
    forall k, host, app | AppAt(dirs, k, host, app, skipSettings) :: app !in index || index[app] == Loc(dirs[k].name, host)
  }

  /** No application is deployed at two different (datacenter, host) pairs. */
  ghost predicate DcsUnique(dirs: seq<DcDir>, skipSettings: bool) {
    forall k1, h1, k2, h2, app | AppAt(dirs, k1, h1, app, skipSettings) && AppAt(dirs, k2, h2, app, skipSettings) ::
      Loc(dirs[k1].name, h1) == Loc(dirs[k2].name, h2)
  }

  /** Registering the first datacenter turns the conditions on the whole list
      into the same conditions on the rest, against the new index. */
  lemma DcsStep(index: map<string, Loc>, index': map<string, Loc>, dirs: seq<DcDir>, skipSettings: bool)
    requires dirs != []
    requires HostsAgree(index, dirs[0].name, SectionsOf(dirs[0]), skipSettings)
    requires HostsUnique(SectionsOf(dirs[0]), skipSettings)
    requires Extends(index, index')
    requires forall host, app | AppUnder(SectionsOf(dirs[0]), host, app, skipSettings) ::
      app in index' && index'[app] == Loc(dirs[0].name, host)
    requires forall n | n in index' :: n in index || exists host :: AppUnder(SectionsOf(dirs[0]), host, n, skipSettings)
    ensures DcsAgree(index, dirs, skipSettings) && DcsUnique(dirs, skipSettings) <==>
      DcsAgree(index', dirs[1..], skipSettings) && DcsUnique(dirs[1..], skipSettings)
  {
    var rest := dirs[1..];
    var f := SectionsOf(dirs[0]);
    forall k | 0 < k < |dirs| ensures dirs[k] == rest[k - 1] {
    }
    if DcsAgree(index, dirs, skipSettings) && DcsUnique(dirs, skipSettings) {
      forall k, host, app | AppAt(rest, k, host, app, skipSettings)
        ensures app !in index' || index'[app] == Loc(rest[k].name, host)
      {
        assert AppAt(dirs, k + 1, host, app, skipSettings);
        if app in index' && app !in index {
          var h :| AppUnder(f, h, app, skipSettings);
          assert AppAt(dirs, 0, h, app, skipSettings);
        } else if app in index {
          assert index'[app] == index[app];
        }
      }
      forall k1, h1, k2, h2, app | AppAt(rest, k1, h1, app, skipSettings) && AppAt(rest, k2, h2, app, skipSettings)
        ensures Loc(rest[k1].name, h1) == Loc(rest[k2].name, h2)
      {
        assert AppAt(dirs, k1 + 1, h1, app, skipSettings) && AppAt(dirs, k2 + 1, h2, app, skipSettings);
      }
    }
    if DcsAgree(index', rest, skipSettings) && DcsUnique(rest, skipSettings) {
      forall k, host, app | AppAt(dirs, k, host, app, skipSettings)
        ensures app !in index || index[app] == Loc(dirs[k].name, host)
      {
        if k > 0 {
          assert AppAt(rest, k - 1, host, app, skipSettings);
          if app in index {
            assert index'[app] == index[app];
          }
        }
      }
      forall k1, h1, k2, h2, app | AppAt(dirs, k1, h1, app, skipSettings) && AppAt(dirs, k2, h2, app, skipSettings)
        ensures Loc(dirs[k1].name, h1) == Loc(dirs[k2].name, h2)
      {
        if k1 > 0 {
          assert AppAt(rest, k1 - 1, h1, app, skipSettings);
        }
        if k2 > 0 {
          assert AppAt(rest, k2 - 1, h2, app, skipSettings);
        }
        if k1 == 0 && k2 > 0 {
          assert index'[app] == Loc(dirs[0].name, h1);
        } else if k2 == 0 && k1 > 0 {
          assert index'[app] == Loc(dirs[0].name, h2);
        }
      }
    }
  }

  /** A clash inside the first datacenter, or with the index, is a clash of
      the whole list. */
  lemma DcsFirstClash(index: map<string, Loc>, dirs: seq<DcDir>, skipSettings: bool)
    requires dirs != []
    requires !(HostsAgree(index, dirs[0].name, SectionsOf(dirs[0]), skipSettings)
               && HostsUnique(SectionsOf(dirs[0]), skipSettings))
    ensures !(DcsAgree(index, dirs, skipSettings) && DcsUnique(dirs, skipSettings))
  {
    var f := SectionsOf(dirs[0]);
    if !HostsAgree(index, dirs[0].name, f, skipSettings) {
      var host, app :| AppUnder(f, host, app, skipSettings) && app in index && index[app] != Loc(dirs[0].name, host);
      assert AppAt(dirs, 0, host, app, skipSettings);
    } else {
      var h1, h2, app :| AppUnder(f, h1, app, skipSettings) && AppUnder(f, h2, app, skipSettings) && h1 != h2;
      assert AppAt(dirs, 0, h1, app, skipSettings) && AppAt(dirs, 0, h2, app, skipSettings);
    }
  }

  /** The datacenters in order: the fold succeeds exactly when every entry is
      readable, no deployed application is registered elsewhere already and
      none is deployed at two locations; it then registers every application
      at its own (datacenter, host), keeps the earlier entries and adds
      nothing else. */
  lemma {:induction false} IndexDcsSpec(index: map<string, Loc>, dirs: seq<DcDir>, skipSettings: bool)
    ensures IndexDcs(index, dirs, skipSettings).Ok? <==>
      AllReadable(dirs) && DcsAgree(index, dirs, skipSettings) && DcsUnique(dirs, skipSettings)
    ensures IndexDcs(index, dirs, skipSettings).Ok? ==>
      var r := IndexDcs(index, dirs, skipSettings).value;
      && Extends(index, r)
      && (forall k, host, app | AppAt(dirs, k, host, app, skipSettings) :: app in r && r[app] == Loc(dirs[k].name, host))
      && (forall n | n in r :: n in index || exists k, host :: AppAt(dirs, k, host, n, skipSettings))
    decreases |dirs|
  {
    if dirs != [] {
      var d, rest := dirs[0], dirs[1..];
      forall k | 0 < k < |dirs| ensures dirs[k] == rest[k - 1] {
      }
      assert AllReadable(dirs) <==> DcReadable(d) && AllReadable(rest);
      if !DcReadable(d) {
        assert IndexDc(index, d, skipSettings).Err?;
      } else {
        IndexHostsSpec(index, d.name, SectionsOf(d), skipSettings);
        var step := IndexDc(index, d, skipSettings);
        assert step == IndexHosts(index, d.name, SectionsOf(d), skipSettings);
        if step.Err? {
          DcsFirstClash(index, dirs, skipSettings);
        } else {
          var index' := step.value;
          DcsStep(index, index', dirs, skipSettings);
          IndexDcsSpec(index', rest, skipSettings);
          if IndexDcs(index, dirs, skipSettings).Ok? {
            DcsResult(index, index', dirs, skipSettings);
          }
        }
      }
    }
  }

  /** What the first datacenter and the rest register make up what the whole
      list registers. */
  lemma DcsResult(index: map<string, Loc>, index': map<string, Loc>, dirs: seq<DcDir>, skipSettings: bool)
    requires dirs != [] && DcReadable(dirs[0])
    requires IndexHosts(index, dirs[0].name, SectionsOf(dirs[0]), skipSettings) == Ok(index')
    requires IndexDcs(index', dirs[1..], skipSettings).Ok?
    requires IndexHosts(index, dirs[0].name, SectionsOf(dirs[0]), skipSettings).Ok? ==>
      var r := IndexHosts(index, dirs[0].name, SectionsOf(dirs[0]), skipSettings).value;
      && Extends(index, r)
      && (forall host, app | AppUnder(SectionsOf(dirs[0]), host, app, skipSettings) :: app in r && r[app] == Loc(dirs[0].name, host))
      && (forall n | n in r :: n in index || exists host :: AppUnder(SectionsOf(dirs[0]), host, n, skipSettings))
    requires var r := IndexDcs(index', dirs[1..], skipSettings).value;
      && Extends(index', r)
      && (forall k, host, app | AppAt(dirs[1..], k, host, app, skipSettings) :: app in r && r[app] == Loc(dirs[1..][k].name, host))
      && (forall n | n in r :: n in index' || exists k, host :: AppAt(dirs[1..], k, host, n, skipSettings))
    ensures IndexDcs(index, dirs, skipSettings) == IndexDcs(index', dirs[1..], skipSettings)
    ensures var r := IndexDcs(index, dirs, skipSettings).value;
      && Extends(index, r)
      && (forall k, host, app | AppAt(dirs, k, host, app, skipSettings) :: app in r && r[app] == Loc(dirs[k].name, host))
      && (forall n | n in r :: n in index || exists k, host :: AppAt(dirs, k, host, n, skipSettings))
  {
    var rest := dirs[1..];
    var r := IndexDcs(index', rest, skipSettings).value;
    forall k, host, app | AppAt(dirs, k, host, app, skipSettings)
      ensures app in r && r[app] == Loc(dirs[k].name, host)
    {
      if k > 0 {
        assert dirs[k] == rest[k - 1];
        assert AppAt(rest, k - 1, host, app, skipSettings);
      }
    }
    forall n | n in r ensures n in index || exists k, host :: AppAt(dirs, k, host, n, skipSettings) {
      if n !in index' {
        var k, host :| AppAt(rest, k, host, n, skipSettings);
        assert dirs[k + 1] == rest[k];
        assert AppAt(dirs, k + 1, host, n, skipSettings);
      } else if n !in index {
        var host :| AppUnder(SectionsOf(dirs[0]), host, n, skipSettings);
        assert AppAt(dirs, 0, host, n, skipSettings);
      }
    }
  }

  /** A missing root gives the empty index. Otherwise the index builds exactly
      when every datacenter is readable and no application is deployed at two
      locations; it then maps every deployed application to where it is
      deployed, and holds nothing else. */
  lemma BuildIndexSpec(root: Option<seq<DcDir>>)
    ensures root.None? ==> BuildIndex(root) == Ok(map[])
    ensures root.Some? ==> (BuildIndex(root).Ok? <==> AllReadable(root.value) && DcsUnique(root.value, true))
    ensures root.Some? && BuildIndex(root).Ok? ==>
      forall k, host, app | AppAt(root.value, k, host, app, true) ::
        app in BuildIndex(root).value && BuildIndex(root).value[app] == Loc(root.value[k].name, host)
    ensures root.Some? && BuildIndex(root).Ok? ==>
      forall n | n in BuildIndex(root).value :: exists k, host :: AppAt(root.value, k, host, n, true)
  {
    if root.Some? {
      IndexDcsSpec(map[], root.value, true);
    }
  }

  /** One name deployed at two different locations makes the index fail. */
  lemma DuplicateAppRejected(dirs: seq<DcDir>, k1: int, host1: string, k2: int, host2: string, app: string)
    requires AppAt(dirs, k1, host1, app, true) && AppAt(dirs, k2, host2, app, true)
    requires Loc(dirs[k1].name, host1) != Loc(dirs[k2].name, host2)
    ensures BuildIndex(Some(dirs)).Err?
  {
    BuildIndexSpec(Some(dirs));
  }

  /** A datacenter still using the retired top-level `deployments` layout is
      rejected. */
  lemma LegacyLayoutRejected(index: map<string, Loc>, d: DcDir, skipSettings: bool)
    requires d.isDir && d.deploymentsFile.Some? && d.deploymentsFile.value.VObj?
    requires HasKey(d.deploymentsFile.value.fields, "deployments")
    ensures IndexDc(index, d, skipSettings) == Err(Exit(LegacySchema))
  {
  }

  // ---------------------------------------------------------------------------
  // The loops

  method IndexHostApps(index: map<string, Loc>, loc: Loc, apps: Fields, skipSettings: bool) returns (r: Result<map<string, Loc>>)
    ensures r == IndexApps(index, loc, apps, skipSettings)
  {
    var idx := index;
    var i := 0;
    while i < |apps|
      invariant 0 <= i <= |apps|
      invariant IndexApps(index, loc, apps, skipSettings) == IndexApps(idx, loc, apps[i..], skipSettings)
    {
      assert apps[i..][1..] == apps[i + 1..];
      var (name, def) := apps[i];
      if !(skipSettings && IsHostSetting(name)) && def.VObj? {
        if name in idx && idx[name] != loc {
          return Err(Exit(DuplicateApp(name, idx[name], loc)));
        }
        idx := idx[name := loc];
      }
      i := i + 1;
    }
    r := Ok(idx);
  }

  method IndexDatacenter(index: map<string, Loc>, d: DcDir, skipSettings: bool) returns (r: Result<map<string, Loc>>)
    ensures r == IndexDc(index, d, skipSettings)
  {
    if !d.isDir || d.deploymentsFile.None? {
      return Ok(index);
    }
    var data := OrEmpty(d.deploymentsFile.value);
    var legacy := PyIn("deployments", data);
    if legacy.Err? {
      return Err(legacy.error);
    }
    if legacy.value {
      return Err(Exit(LegacySchema));
    }
    if !data.VObj? {
      return Err(Raise(BadShape));
    }
    var hosts := data.fields;
    var idx := index;
    var i := 0;
    while i < |hosts|
      invariant 0 <= i <= |hosts|
      invariant IndexHosts(index, d.name, hosts, skipSettings) == IndexHosts(idx, d.name, hosts[i..], skipSettings)
    {
      assert hosts[i..][1..] == hosts[i + 1..];
      var (host, apps) := hosts[i];
      if apps.VObj? {
        var step := IndexHostApps(idx, Loc(d.name, host), apps.fields, skipSettings);
        if step.Err? {
          return step;
        }
        idx := step.value;
      }
      i := i + 1;
    }
    r := Ok(idx);
  }

  /** build_global_app_index over the entries of the deployments root, in the
      order the directory listing gives them. */
  method BuildGlobalAppIndex(root: Option<seq<DcDir>>) returns (r: Result<map<string, Loc>>)
    ensures r == BuildIndex(root)
  {
    if root.None? {
      return Ok(map[]);
    }
    var dirs := root.value;
    var idx: map<string, Loc> := map[];
    var i := 0;
    while i < |dirs|
      invariant 0 <= i <= |dirs|
      invariant IndexDcs(map[], dirs, true) == IndexDcs(idx, dirs[i..], true)
    {
      assert dirs[i..][1..] == dirs[i + 1..];
      var step := IndexDatacenter(idx, dirs[i], true);
      if step.Err? {
        return step;
      }
      idx := step.value;
      i := i + 1;
    }
    r := Ok(idx);
  }
}
