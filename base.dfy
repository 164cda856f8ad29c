/** Option and Result wrappers, locations and the error kinds shared by every
    component of the configuration generator. */
module Base {

  datatype Option<+T> = None | Some(value: T) {
    function GetOr(default: T): T {
      match this
      case Some(v) => v
      case None => default
    }
  }

  /** A (datacenter, host) pair: where an application instance runs. */
  datatype Loc = Loc(dc: string, host: string)

  /** Why an operation failed. The message texts of the tools are not modelled,
      only the condition that produced them and the values they name. */
  datatype Reason =
    // CPU-set expressions and NUMA layout
    | CpuRangeReversed(start: int, end: int)
    | NotAnInteger
    | NumaNotPositive
    // host CPU partition and per-application CPU roles
    | CpuOutOfRange(cpu: int)
    | CpuSetOverlap
    | MissingCpuField(field: string)
    | MainLoopNotIsolated(cpu: int)
    | BusyCpuTaken(cpu: int, owner: string)
    | LogCpuNotShared(cpu: int)
    | AdminCpuNotShared(cpu: int)
    | DuplicateRoleCpus
    // NIC resolution and cross-application references
    | ListenNicUnset
    | NicNotFound
    | UnknownApp(app: string)
    | ShmAcrossHosts(app: string, key: string)
    | MissingRefKey(app: string, key: string)
    | CfgEnvsNotMapping
    | NoHostDeployments(host: string)
    | NoAppDefinition(app: string)
    | HostNotFound(host: string)
    | TopologyNotLoaded(app: string)
    // rendering and the rendered object
    | UnresolvedPlaceholders(names: seq<string>)
    | InvalidJson
    | RenderedNotObject
    | LoggingNotObject
    | EventLoopsNotList
    | InvalidCpuId
    | AdminLoopBusySpin
    | AdminCpuMismatch(cpu: int)
    | BusySpinNotIsolated(cpu: int)
    | NoAdminLoop
    | TemplateNameMissing
    | TemplateFileMissing(name: string)
    | CfgEnvsEmpty
    | CfgEnvsBadType
    | UnsupportedLayout
    // manifests and schema
    | LegacySchema
    | DuplicateApp(app: string, first: Loc, second: Loc)
    | ExpectedMapping
    | ExpectedList
    | ExpectedStringGotNull
    | ExpectedString
    | EmptyString
    | ExpectedInt
    | MissingRequiredVersions
    | EmptyRequiredVersions
    | TagNotRequired(tag: string)
    | EmptyNics
    | EmptyTemplates
    | MissingTagOrVersion
    | InvalidHostLevelKey(key: string)
    | HostNotInTopology(host: string)
    | DependsOnUnknown(apps: set<string>)
    | DependsOnMissing(apps: set<string>)
    | FileMissing
    | RegistryMissing
    | DeploymentsFileMissing(dc: string)
    | HostsFileMissing(dc: string)
    | DirectoryMissing
    | BadShape

  /** `Exit` is a SystemExit raised by the tools themselves; `Raise` stands for
      any other Python exception (ValueError, TypeError, AttributeError, OSError),
      which the per-application containment of a generation run does not catch. */
  datatype Error = Exit(reason: Reason) | Raise(reason: Reason)

  datatype Result<+T> = Ok(value: T) | Err(error: Error) {
    predicate IsFailure() { Err? }

    function PropagateFailure<U>(): Result<U>
      requires Err?
    {
      Err(error)
    }

    function Extract(): T
      requires Ok?
    {
      value
    }
  }

  /** The result of a check that returns nothing on success. */
  datatype Outcome = Pass | Fail(error: Error) {
    predicate IsFailure() { Fail? }

    function PropagateFailure<U>(): Result<U>
      requires Fail?
    {
      Err(error)
    }
  }

  function Check(cond: bool, reason: Reason): (r: Outcome)
    ensures r.Pass? <==> cond
    ensures r.Fail? ==> r.error == Exit(reason)
  {
    if cond then Pass else Fail(Exit(reason))
  }

  /** A non-empty set of integers has an element (the witness for picking one). */
  lemma NonEmptyHasMember(s: set<int>)
    requires s != {}
    ensures exists x :: x in s
  {
    if forall x :: x !in s {
      assert false;
    }
  }

  /** The smallest element of a non-empty set of integers: Python's
      `sorted(s)[0]`. */
  function SetMin(s: set<int>): (m: int)
    requires s != {}
    ensures m in s && forall x | x in s :: m <= x
  {
    MinExists(s);
    var m :| m in s && forall x | x in s :: m <= x;
    m
  }

  lemma MinExists(s: set<int>)
    requires s != {}
    ensures exists m :: m in s && forall x | x in s :: m <= x
    decreases |s|
  {
    NonEmptyHasMember(s);
    var y :| y in s;
    var rest := s - {y};
    if forall x | x in rest :: y <= x {
      forall x | x in s ensures y <= x {
        assert x == y || x in rest;
      }
    } else {
      MinExists(rest);
      var m :| m in rest && forall x | x in rest :: m <= x;
      forall x | x in s ensures m <= x {
        assert x == y || x in rest;
      }
    }
  }
}
