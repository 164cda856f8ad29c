/** The repository's per-datacenter topology and deployment files, read as
    already-parsed YAML (tools/deployment_loader.py). */
module DeploymentLoader {
  import opened Base
  import opened Values

  /** The parsed `deployments/<dc>/hosts.yaml` and `deployments/<dc>/deployments.yaml`
      of each datacenter; a datacenter without an entry has no such file. */
  datatype Repo = Repo(hostsFiles: map<string, Value>, deploymentFiles: map<string, Value>)

  /** What load_deployment returns: the host's `shared_cpus` and `log_dir`
      and the application's definition. */
  datatype Deployment = Deployment(sharedCpus: Value, logDir: Value, app: Value)

  /** load_datacenter: the host's entry in the datacenter's hosts file, which
      must exist and be a mapping. */
  function LoadDatacenter(repo: Repo, dc: string, host: string): (r: Result<Fields>)
    ensures r.Ok? <==>
      dc in repo.hostsFiles && OrEmpty(repo.hostsFiles[dc]).VObj?
      && Lookup(OrEmpty(repo.hostsFiles[dc]).fields, host).Some?
      && Lookup(OrEmpty(repo.hostsFiles[dc]).fields, host).value.VObj?
    ensures r.Ok? ==> Lookup(OrEmpty(repo.hostsFiles[dc]).fields, host) == Some(VObj(r.value))
  {
    if dc !in repo.hostsFiles then Err(Exit(FileMissing))
    else
      var data := OrEmpty(repo.hostsFiles[dc]);
      if !data.VObj? then Err(Raise(BadShape))
      else
        match Lookup(data.fields, host)
        case Some(VObj(fields)) => Ok(fields)
        case _ => Err(Exit(HostNotFound(host)))
  }

  /** load_deployment: the host's section of the datacenter's deployments file
      must be non-empty and hold a non-empty definition of the application.
      A missing file raises (the open fails), it is not a SystemExit. */
  function LoadDeployment(repo: Repo, dc: string, host: string, app: string): (r: Result<Deployment>)
    ensures r.Ok? ==> Truthy(r.value.app)
    ensures dc !in repo.deploymentFiles ==> r == Err(Raise(FileMissing))
  {
    if dc !in repo.deploymentFiles then Err(Raise(FileMissing))
    else
      var data := OrEmpty(repo.deploymentFiles[dc]);
      if !data.VObj? then Err(Raise(BadShape))
      else
        var hostCfg := OrEmpty(Lookup(data.fields, host).GetOr(VNull));
        if !Truthy(hostCfg) then Err(Exit(NoHostDeployments(host)))
        else if !hostCfg.VObj? then Err(Raise(BadShape))
        else
          var appDef := OrEmpty(Lookup(hostCfg.fields, app).GetOr(VNull));
          if !Truthy(appDef) then Err(Exit(NoAppDefinition(app)))
          else
            Ok(Deployment(
              Lookup(hostCfg.fields, "shared_cpus").GetOr(VStr("")),
              Lookup(hostCfg.fields, "log_dir").GetOr(VNull),
              appDef))
  }

  /** A deployment loads exactly when the host's section is a non-empty mapping
      holding a truthy entry for the application, which is then what is
      returned. */
  lemma LoadDeploymentSpec(repo: Repo, dc: string, host: string, app: string)
    requires dc in repo.deploymentFiles && repo.deploymentFiles[dc].VObj?
    ensures var hostCfg := Lookup(repo.deploymentFiles[dc].fields, host).GetOr(VNull);
      LoadDeployment(repo, dc, host, app).Ok? <==>
        hostCfg.VObj? && hostCfg.fields != [] && Truthy(Lookup(hostCfg.fields, app).GetOr(VNull))
    ensures var hostCfg := Lookup(repo.deploymentFiles[dc].fields, host).GetOr(VNull);
      LoadDeployment(repo, dc, host, app).Ok? ==>
        LoadDeployment(repo, dc, host, app).value.app == Lookup(hostCfg.fields, app).value
    ensures !Truthy(Lookup(repo.deploymentFiles[dc].fields, host).GetOr(VNull)) ==>
      LoadDeployment(repo, dc, host, app) == Err(Exit(NoHostDeployments(host)))
  {
  }
}
