/** The replacement map of one application template: its `cfg_envs` with the
    three CPU roles imposed and `listen_nic` resolved to an IP address when the
    template uses it (tools/template_context.py). */
module TemplateContext {
  import opened Base
  import opened Text
  import opened Values
  import opened AppValidator

  // ---------------------------------------------------------------------------
  // First-match NIC search

  /** `nic.get("name") == name` on a NIC entry that is a dictionary. */
  predicate NicNamed(nic: Value, name: Value) {
    nic.VObj? && Lookup(nic.fields, "name").GetOr(VNull) == name
  }

  /** `nic.get("ip")`. */
  function IpOf(nic: Value): Value
    requires nic.VObj?
  {
    Lookup(nic.fields, "ip").GetOr(VNull)
  }

  /** Entry `i` is the first NIC called `name`, and every entry before it is a
      dictionary with another name. */
  predicate FirstNamed(nics: seq<Value>, name: Value, i: int) {
    0 <= i < |nics| && NicNamed(nics[i], name)
    && forall j | 0 <= j < i :: nics[j].VObj? && !NicNamed(nics[j], name)
  }

  /** `for nic in nics: if nic.get("name") == name: ip = nic.get("ip"); break`:
      the `ip` of the first NIC called `name`, `None` when no NIC is; an entry
      before the match that is not a dictionary raises. */
  function FindNicIp(nics: seq<Value>, name: Value): Result<Option<Value>> {
    if nics == [] then Ok(None)
    else if !nics[0].VObj? then Err(Raise(BadShape))
    else if NicNamed(nics[0], name) then Ok(Some(IpOf(nics[0])))
    else FindNicIp(nics[1..], name)
  }

  /** The search returns the address of the first NIC with the name, and only
      that. */
  lemma {:induction false} FindNicIpFirst(nics: seq<Value>, name: Value, i: int)
    requires FirstNamed(nics, name, i)
    ensures FindNicIp(nics, name) == Ok(Some(IpOf(nics[i])))
  {
    if i > 0 {
      assert FirstNamed(nics[1..], name, i - 1) by {
        forall j | 0 <= j < i - 1 ensures nics[1..][j].VObj? && !NicNamed(nics[1..][j], name) {
          assert nics[1..][j] == nics[j + 1];
        }
      }
      FindNicIpFirst(nics[1..], name, i - 1);
    }
  }

  /** A found address always comes from the first NIC with the name. */
  lemma {:induction false} FindNicIpFound(nics: seq<Value>, name: Value)
    requires FindNicIp(nics, name).Ok? && FindNicIp(nics, name).value.Some?
    ensures exists i :: FirstNamed(nics, name, i) && FindNicIp(nics, name).value.value == IpOf(nics[i])
  {
    if !NicNamed(nics[0], name) {
      FindNicIpFound(nics[1..], name);
      var i :| FirstNamed(nics[1..], name, i) && FindNicIp(nics[1..], name).value.value == IpOf(nics[1..][i]);
      assert FirstNamed(nics, name, i + 1) by {
        forall j | 0 <= j < i + 1 ensures nics[j].VObj? && !NicNamed(nics[j], name) {
          if j > 0 {
            assert nics[j] == nics[1..][j - 1];
          }
        }
      }
    } else {
      assert FirstNamed(nics, name, 0);
    }
  }

  /** Over a list of dictionaries, the search finds nothing exactly when no NIC
      has the name. */
  lemma {:induction false} FindNicIpNone(nics: seq<Value>, name: Value)
    requires forall j | 0 <= j < |nics| :: nics[j].VObj?
    ensures FindNicIp(nics, name) == Ok(None) <==> forall j | 0 <= j < |nics| :: !NicNamed(nics[j], name)
  {
    if nics != [] {
      assert forall j | 0 <= j < |nics| - 1 :: nics[1..][j] == nics[j + 1];
      FindNicIpNone(nics[1..], name);
      if forall j | 0 <= j < |nics[1..]| :: !NicNamed(nics[1..][j], name) {
        forall j | 0 <= j < |nics| ensures !NicNamed(nics[j], name) || j == 0 {
          if j > 0 {
            assert nics[j] == nics[1..][j - 1];
          }
        }
      }
    }
  }

  /** `host.get("nics", [])`, iterated. */
  function Nics(host: Fields): Result<seq<Value>> {
    match Iterate(Lookup(host, "nics").GetOr(VList([])))
    case Some(items) => Ok(items)
    case None => Err(Raise(BadShape))
  }

  // ---------------------------------------------------------------------------
  // build_template_replacements

  const ListenNicPlaceholder: string := "{{listen_nic}}"

  /** Whether the template uses `listen_nic`: the literal text `{{listen_nic}}`
      occurs in it (with no inner spaces). */
  predicate NeedsListenNic(templateText: string) {
    Contains(templateText, ListenNicPlaceholder)
  }

  /** The value stored under `listen_nic`: the raw env value when the template
      does not use it; otherwise the env value must be truthy and name a host
      NIC whose `ip` is truthy. */
  function ListenNicValue(templateText: string, env: Fields, host: Fields): Result<Value> {
    var nicName := Lookup(env, "listen_nic").GetOr(VNull);
    if !NeedsListenNic(templateText) then Ok(nicName)
    else if !Truthy(nicName) then Err(Exit(ListenNicUnset))
    else
      var nics :- Nics(host);
      var found :- FindNicIp(nics, nicName);
      var ip := found.GetOr(VNull);
      if !Truthy(ip) then Err(Exit(NicNotFound)) else Ok(ip)
  }

  /** `dict(env)` updated with `listen_nic`, `listen_port` and the three CPU
      roles, in that order. */
  function BuildTemplateReplacements(templateText: string, env: Fields, host: Fields, cpus: RoleCpus)
    : Result<Fields>
  {
    var listenNic :- ListenNicValue(templateText, env, host);
    Ok(Impose(env, listenNic, Lookup(env, "listen_port").GetOr(VNull), cpus))
  }

  function Impose(env: Fields, listenNic: Value, listenPort: Value, cpus: RoleCpus): Fields {
    var r := Put(env, "listen_nic", listenNic);
    var r := Put(r, "listen_port", listenPort);
    var r := Put(r, "log_cpu", VInt(cpus.log));
    var r := Put(r, "main_loop_cpu", VInt(cpus.main));
    Put(r, "admin_loop_cpu", VInt(cpus.admin))
  }

  lemma LookupImpose(env: Fields, listenNic: Value, listenPort: Value, cpus: RoleCpus, k: string)
    ensures Lookup(Impose(env, listenNic, listenPort, cpus), k) ==
      if k == "admin_loop_cpu" then Some(VInt(cpus.admin))
      else if k == "main_loop_cpu" then Some(VInt(cpus.main))
      else if k == "log_cpu" then Some(VInt(cpus.log))
      else if k == "listen_port" then Some(listenPort)
      else if k == "listen_nic" then Some(listenNic)
      else Lookup(env, k)
  {
    var r1 := Put(env, "listen_nic", listenNic);
    var r2 := Put(r1, "listen_port", listenPort);
    var r3 := Put(r2, "log_cpu", VInt(cpus.log));
    var r4 := Put(r3, "main_loop_cpu", VInt(cpus.main));
    LookupPut(env, "listen_nic", listenNic, k);
    LookupPut(r1, "listen_port", listenPort, k);
    LookupPut(r2, "log_cpu", VInt(cpus.log), k);
    LookupPut(r3, "main_loop_cpu", VInt(cpus.main), k);
    LookupPut(r4, "admin_loop_cpu", VInt(cpus.admin), k);
  }

  /** The keys the builder sets itself. */
  predicate Imposed(k: string) {
    k == "listen_nic" || k == "listen_port" || k == "log_cpu" || k == "main_loop_cpu" || k == "admin_loop_cpu"
  }

  /** A built map: every env key is kept with its value unless the builder sets
      it, the CPU roles are the arguments (overriding env), `listen_port` is the
      env value or None, and `listen_nic` is the resolved value. */
  lemma ReplacementsContents(templateText: string, env: Fields, host: Fields, cpus: RoleCpus, k: string)
    requires BuildTemplateReplacements(templateText, env, host, cpus).Ok?
    ensures var r := BuildTemplateReplacements(templateText, env, host, cpus).value;
      && (HasKey(env, k) ==> HasKey(r, k))
      && (!Imposed(k) ==> Lookup(r, k) == Lookup(env, k))
      && Lookup(r, "log_cpu") == Some(VInt(cpus.log))
      && Lookup(r, "main_loop_cpu") == Some(VInt(cpus.main))
      && Lookup(r, "admin_loop_cpu") == Some(VInt(cpus.admin))
      && Lookup(r, "listen_port") == Some(Lookup(env, "listen_port").GetOr(VNull))
      && Lookup(r, "listen_nic") == Some(ListenNicValue(templateText, env, host).value)
  {
    var listenNic := ListenNicValue(templateText, env, host).value;
    var port := Lookup(env, "listen_port").GetOr(VNull);
    LookupImpose(env, listenNic, port, cpus, k);
    LookupImpose(env, listenNic, port, cpus, "listen_nic");
    LookupImpose(env, listenNic, port, cpus, "listen_port");
    LookupImpose(env, listenNic, port, cpus, "log_cpu");
    LookupImpose(env, listenNic, port, cpus, "main_loop_cpu");
    LookupImpose(env, listenNic, port, cpus, "admin_loop_cpu");
  }

  /** A template using `{{listen_nic}}` with no truthy `listen_nic` in env is
      rejected. */
  lemma ListenNicRequired(templateText: string, env: Fields, host: Fields, cpus: RoleCpus)
    requires NeedsListenNic(templateText) && !Truthy(Lookup(env, "listen_nic").GetOr(VNull))
    ensures BuildTemplateReplacements(templateText, env, host, cpus) == Err(Exit(ListenNicUnset))
  {
  }

  /** When the template uses it, `listen_nic` becomes the IP of the first host
      NIC with the env's name, provided that IP is truthy. */
  lemma ListenNicResolved(templateText: string, env: Fields, host: Fields, cpus: RoleCpus, i: int)
    requires NeedsListenNic(templateText)
    requires Truthy(Lookup(env, "listen_nic").GetOr(VNull))
    requires Nics(host).Ok?
    requires FirstNamed(Nics(host).value, Lookup(env, "listen_nic").GetOr(VNull), i)
    requires Truthy(IpOf(Nics(host).value[i]))
    ensures BuildTemplateReplacements(templateText, env, host, cpus).Ok?
    ensures Lookup(BuildTemplateReplacements(templateText, env, host, cpus).value, "listen_nic")
         == Some(IpOf(Nics(host).value[i]))
  {
    FindNicIpFirst(Nics(host).value, Lookup(env, "listen_nic").GetOr(VNull), i);
    ReplacementsContents(templateText, env, host, cpus, "listen_nic");
  }

  /** When the template uses it and the host's NICs are dictionaries none of
      which has the env's name, the builder fails. */
  lemma ListenNicNotFound(templateText: string, env: Fields, host: Fields, cpus: RoleCpus)
    requires NeedsListenNic(templateText)
    requires Truthy(Lookup(env, "listen_nic").GetOr(VNull))
    requires Nics(host).Ok?
    requires forall j | 0 <= j < |Nics(host).value| :: Nics(host).value[j].VObj?
    requires forall j | 0 <= j < |Nics(host).value| ::
      !NicNamed(Nics(host).value[j], Lookup(env, "listen_nic").GetOr(VNull))
    ensures BuildTemplateReplacements(templateText, env, host, cpus) == Err(Exit(NicNotFound))
  {
    FindNicIpNone(Nics(host).value, Lookup(env, "listen_nic").GetOr(VNull));
  }

  /** When the template does not use it, the host is never consulted: the
      builder succeeds whatever the host holds, and `listen_nic` is the raw env
      value (None when absent). */
  lemma ListenNicUnused(templateText: string, env: Fields, host1: Fields, host2: Fields, cpus: RoleCpus)
    requires !NeedsListenNic(templateText)
    ensures BuildTemplateReplacements(templateText, env, host1, cpus).Ok?
    ensures BuildTemplateReplacements(templateText, env, host1, cpus)
         == BuildTemplateReplacements(templateText, env, host2, cpus)
    ensures Lookup(BuildTemplateReplacements(templateText, env, host1, cpus).value, "listen_nic")
         == Some(Lookup(env, "listen_nic").GetOr(VNull))
  {
    ReplacementsContents(templateText, env, host1, cpus, "listen_nic");
  }
}
