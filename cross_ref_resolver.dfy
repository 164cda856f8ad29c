/** Cross-application placeholders `{{ app.key }}`: which ones a template
    holds, and the text each resolves to (tools/cross_ref_resolver.py; the same
    loop is inline in tools/gen_config.py). */
module CrossRefResolver {
  import opened Base
  import opened Text
  import opened Values
  import opened DeploymentLoader
  import opened TemplateContext

  // ---------------------------------------------------------------------------
  // The pattern {{\s*([A-Za-z0-9_]+)\.([A-Za-z0-9_]+)\s*}}

  predicate IsWordChar(c: char) {
    ('A' <= c <= 'Z') || ('a' <= c <= 'z') || ('0' <= c <= '9') || c == '_'
  }

  /** A non-empty run of `[A-Za-z0-9_]`. */
  predicate IsWord(s: string) {
    |s| >= 1 && forall i | 0 <= i < |s| :: IsWordChar(s[i])
  }

  /** The end of the longest run of word characters starting at `i`. */
  function SpanWord(s: string, i: nat): (j: nat)
    requires i <= |s|
    ensures i <= j <= |s|
    ensures forall k | i <= k < j :: IsWordChar(s[k])
    ensures j == |s| || !IsWordChar(s[j])
    decreases |s| - i
  {
    if i < |s| && IsWordChar(s[i]) then SpanWord(s, i + 1) else i
  }

  /** The end of the longest run of whitespace starting at `i`. */
  function SpanSpace(s: string, i: nat): (j: nat)
    requires i <= |s|
    ensures i <= j <= |s|
    ensures forall k | i <= k < j :: IsSpace(s[k])
    ensures j == |s| || !IsSpace(s[j])
    decreases |s| - i
  {
    if i < |s| && IsSpace(s[i]) then SpanSpace(s, i + 1) else i
  }

  /** A match of the pattern: the two groups and where the match ends. */
  datatype RefMatch = RefMatch(app: string, key: string, end: nat)

  /** The match of the pattern starting exactly at `i`, if any. Every part of
      the pattern takes the longest run it can, and no shorter run could be
      followed by what comes next, so backtracking finds no other match. */
  function MatchAt(s: string, i: nat): (m: Option<RefMatch>)
    requires i <= |s|
    ensures m.Some? ==> i < m.value.end <= |s| && IsWord(m.value.app) && IsWord(m.value.key)
  {
    if !(i + 2 <= |s| && s[i] == '{' && s[i + 1] == '{') then None
    else
      var a := SpanSpace(s, i + 2);
      var b := SpanWord(s, a);
      if b == a || b == |s| || s[b] != '.' then None
      else
        var c := SpanWord(s, b + 1);
        if c == b + 1 then None
        else
          var d := SpanSpace(s, c);
          if d + 2 <= |s| && s[d] == '}' && s[d + 1] == '}' then
            Some(RefMatch(s[a..b], s[b + 1..c], d + 2))
          else None
  }

  /** `findall` from position `i`: matches scanned left to right, each search
      resuming where the previous match ended. */
  function FindAll(s: string, i: nat): (pairs: seq<(string, string)>)
    requires i <= |s|
    ensures forall j | 0 <= j < |pairs| :: IsWord(pairs[j].0) && IsWord(pairs[j].1)
    decreases |s| - i
  {
    if i == |s| then []
    else
      match MatchAt(s, i)
      case Some(m) => [(m.app, m.key)] + FindAll(s, m.end)
      case None => FindAll(s, i + 1)
  }

  /** `set(pattern.findall(template_text))`. */
  function RefPairs(text: string): (pairs: set<(string, string)>)
    ensures forall p | p in pairs :: IsWord(p.0) && IsWord(p.1)
  {
    set j | 0 <= j < |FindAll(text, 0)| :: FindAll(text, 0)[j]
  }

  /** The placeholder text for `app.key`, with optional whitespace inside the
      braces. */
  function Placeholder(w1: string, app: string, key: string, w2: string): string {
    "{{" + w1 + app + "." + key + w2 + "}}"
  }

  lemma {:induction false} SpanWordExact(s: string, i: nat, j: nat)
    requires i <= j <= |s|
    requires forall k | i <= k < j :: IsWordChar(s[k])
    requires j == |s| || !IsWordChar(s[j])
    ensures SpanWord(s, i) == j
    decreases j - i
  {
    if i < j {
      SpanWordExact(s, i + 1, j);
    }
  }

  lemma {:induction false} SpanSpaceExact(s: string, i: nat, j: nat)
    requires i <= j <= |s|
    requires forall k | i <= k < j :: IsSpace(s[k])
    requires j == |s| || !IsSpace(s[j])
    ensures SpanSpace(s, i) == j
    decreases j - i
  {
    if i < j {
      SpanSpaceExact(s, i + 1, j);
    }
  }

  /** The pattern matches at `i` when the text there is `{{`, spaces, a word,
      a dot, a word, spaces and `}}`. */
  lemma MatchAtExact(s: string, i: nat, a: nat, b: nat, c: nat, d: nat)
    requires i + 2 <= a < b && b + 1 < c <= d && d + 2 <= |s|
    requires s[i] == '{' && s[i + 1] == '{'
    requires forall k | i + 2 <= k < a :: IsSpace(s[k])
    requires forall k | a <= k < b :: IsWordChar(s[k])
    requires s[b] == '.'
    requires forall k | b + 1 <= k < c :: IsWordChar(s[k])
    requires forall k | c <= k < d :: IsSpace(s[k])
    requires s[d] == '}' && s[d + 1] == '}'
    ensures MatchAt(s, i) == Some(RefMatch(s[a..b], s[b + 1..c], d + 2))
  {
    WordNotSpace(s[a]);
    SpanSpaceExact(s, i + 2, a);
    SpanWordExact(s, a, b);
    if c < d {
      SpaceNotWord(s[c]);
    }
    SpanWordExact(s, b + 1, c);
    SpanSpaceExact(s, c, d);
    MatchAtSpans(s, i, a, b, c, d);
  }

  lemma WordNotSpace(ch: char)
    requires IsWordChar(ch)
    ensures !IsSpace(ch)
  {
  }

  lemma SpaceNotWord(ch: char)
    requires IsSpace(ch)
    ensures !IsWordChar(ch)
  {
  }

  lemma MatchAtSpans(s: string, i: nat, a: nat, b: nat, c: nat, d: nat)
    requires i + 2 <= a < b && b + 1 < c <= d && d + 2 <= |s|
    requires s[i] == '{' && s[i + 1] == '{' && s[b] == '.' && s[d] == '}' && s[d + 1] == '}'
    requires SpanSpace(s, i + 2) == a && SpanWord(s, a) == b
    requires SpanWord(s, b + 1) == c && SpanSpace(s, c) == d
    ensures MatchAt(s, i) == Some(RefMatch(s[a..b], s[b + 1..c], d + 2))
  {
  }

  lemma FindAllAtMatch(s: string, i: nat)
    requires i < |s| && MatchAt(s, i).Some?
    ensures FindAll(s, i) == [(MatchAt(s, i).value.app, MatchAt(s, i).value.key)] + FindAll(s, MatchAt(s, i).value.end)
  {
  }

  /** Where the parts of a placeholder sit in its text. */
  lemma PlaceholderLayout(w1: string, app: string, key: string, w2: string)
    ensures var s := Placeholder(w1, app, key, w2);
      var a := 2 + |w1|;
      var b := a + |app|;
      var c := b + 1 + |key|;
      var d := c + |w2|;
      && |s| == d + 2 && s[..2] == "{{" && s[2..a] == w1 && s[a..b] == app && s[b] == '.'
      && s[b + 1..c] == key && s[c..d] == w2 && s[d..] == "}}"
  {
    var aa := "{{" + w1;
    var bb := aa + app;
    var cc := bb + ".";
    var dd := cc + key;
    var ee := dd + w2;
    assert Placeholder(w1, app, key, w2) == ee + "}}";
  }

  /** A text that is exactly one placeholder yields exactly its pair. */
  lemma FindAllSingle(s: string, a: nat, b: nat, c: nat, d: nat)
    requires 2 <= a < b && b + 1 < c <= d && |s| == d + 2
    requires s[..2] == "{{" && Blank(s[2..a]) && IsWord(s[a..b]) && s[b] == '.'
    requires IsWord(s[b + 1..c]) && Blank(s[c..d]) && s[d..] == "}}"
    ensures FindAll(s, 0) == [(s[a..b], s[b + 1..c])]
  {
    SingleChars(s, a, b, c, d);
    MatchAtExact(s, 0, a, b, c, d);
    FindAllAtMatch(s, 0);
  }

  /** The slices of a single placeholder, read character by character. */
  lemma SingleChars(s: string, a: nat, b: nat, c: nat, d: nat)
    requires 2 <= a < b && b + 1 < c <= d && |s| == d + 2
    requires s[..2] == "{{" && Blank(s[2..a]) && IsWord(s[a..b]) && s[b] == '.'
    requires IsWord(s[b + 1..c]) && Blank(s[c..d]) && s[d..] == "}}"
    ensures s[0] == '{' && s[1] == '{' && s[d] == '}' && s[d + 1] == '}'
    ensures forall k | 2 <= k < a :: IsSpace(s[k])
    ensures forall k | a <= k < b :: IsWordChar(s[k])
    ensures forall k | b + 1 <= k < c :: IsWordChar(s[k])
    ensures forall k | c <= k < d :: IsSpace(s[k])
  {
    forall k | 2 <= k < a ensures IsSpace(s[k]) {
      assert s[k] == s[2..a][k - 2];
    }
    forall k | a <= k < b ensures IsWordChar(s[k]) {
      assert s[k] == s[a..b][k - a];
    }
    forall k | b + 1 <= k < c ensures IsWordChar(s[k]) {
      assert s[k] == s[b + 1..c][k - b - 1];
    }
    forall k | c <= k < d ensures IsSpace(s[k]) {
      assert s[k] == s[c..d][k - c];
    }
    assert s[0] == s[..2][0] && s[1] == s[..2][1];
    assert s[d] == s[d..][0] && s[d + 1] == s[d..][1];
  }

  /** A placeholder on its own is found, and it is the only pair found. */
  lemma PlaceholderFound(w1: string, app: string, key: string, w2: string)
    requires Blank(w1) && Blank(w2) && IsWord(app) && IsWord(key)
    ensures FindAll(Placeholder(w1, app, key, w2), 0) == [(app, key)]
    ensures RefPairs(Placeholder(w1, app, key, w2)) == {(app, key)}
  {
    var a := 2 + |w1|;
    var b := a + |app|;
    var c := b + 1 + |key|;
    PlaceholderLayout(w1, app, key, w2);
    FindAllSingle(Placeholder(w1, app, key, w2), a, b, c, c + |w2|);
    var found := FindAll(Placeholder(w1, app, key, w2), 0);
    assert found[0] == (app, key);
  }

  // ---------------------------------------------------------------------------
  // Resolving one reference

  /** The key `app.key` a reference is stored under. */
  function RefName(p: (string, string)): string {
    p.0 + "." + p.1
  }

  /** Distinct references have distinct names: neither part holds a dot. */
  lemma RefNameInjective(p: (string, string), q: (string, string))
    requires IsWord(p.0) && IsWord(p.1) && IsWord(q.0) && IsWord(q.1)
    requires RefName(p) == RefName(q)
    ensures p == q
  {
    assert '.' !in p.0 && '.' !in p.1 && '.' !in q.0 && '.' !in q.1;
    assert Join([p.0, p.1], '.') == RefName(p);
    assert Join([q.0, q.1], '.') == RefName(q);
    SplitJoin([p.0, p.1], '.');
    SplitJoin([q.0, q.1], '.');
  }

  /** ASCII lower case; references are ASCII words, so this is `str.lower`
      on them. */
  function Lower(s: string): (r: string)
    ensures |r| == |s|
  {
    if s == [] then []
    else LowerChar(s[0]) + Lower(s[1..])
  }

  function LowerChar(c: char): string {
    [if 'A' <= c <= 'Z' then (c as int + 32) as char else c]
  }

  /** Lowering works character by character. */
  lemma {:induction false} LowerAt(s: string, i: int)
    requires 0 <= i < |s|
    ensures Lower(s)[i] == LowerChar(s[i])[0]
    decreases i
  {
    if i > 0 {
      LowerAt(s[1..], i - 1);
    }
  }

  /** Keys that name shared memory: `"shm" in key.lower()`. */
  predicate IsShmKey(key: string) {
    Contains(Lower(key), "shm")
  }

  /** "shm" spelled in any mix of cases, starting at `i`. */
  predicate ShmAnyCaseAt(key: string, i: int) {
    0 <= i <= |key| - 3
    && (key[i] == 's' || key[i] == 'S')
    && (key[i + 1] == 'h' || key[i + 1] == 'H')
    && (key[i + 2] == 'm' || key[i + 2] == 'M')
  }

  /** The shared-memory test is case-insensitive: a key is a shared-memory key
      exactly when it spells "shm" in some mix of cases ("SHM", "Shm", ...). */
  lemma ShmKeyAnyCase(key: string)
    ensures IsShmKey(key) <==> exists i | 0 <= i <= |key| - 3 :: ShmAnyCaseAt(key, i)
  {
    var low := Lower(key);
    forall i | 0 <= i <= |key| - 3
      ensures OccursAt(low, "shm", i) <==> ShmAnyCaseAt(key, i)
    {
      LowerAt(key, i);
      LowerAt(key, i + 1);
      LowerAt(key, i + 2);
      assert low[i..i + 3] == [low[i], low[i + 1], low[i + 2]];
    }
  }

  /** The `cfg_envs` of a referenced application: its first template's when it
      has a non-empty template list, otherwise its own; an absent or empty one
      reads as an empty mapping, anything else that is not a mapping fails. */
  function RefCfgEnvs(appDef: Value): Result<Fields> {
    if !appDef.VObj? then Err(Raise(BadShape))
    else
      var templates := Lookup(appDef.fields, "templates").GetOr(VNull);
      var envs :-
        if templates.VList? && templates.items != [] then
          Get(templates.items[0], "cfg_envs", VNull)
        else
          Ok(Lookup(appDef.fields, "cfg_envs").GetOr(VNull));
      var envs := OrEmpty(envs);
      if envs.VObj? then Ok(envs.fields) else Err(Exit(CfgEnvsNotMapping))
  }

  /** Where the referenced application lives, and its loaded `cfg_envs`; the
      shared-memory locality rule is applied before anything is loaded. */
  function RefEnvs(here: Loc, appIndex: map<string, Loc>, repo: Repo, p: (string, string))
    : Result<(Loc, Fields)>
  {
    var (app, key) := p;
    if app !in appIndex then Err(Exit(UnknownApp(app)))
    else
      var there := appIndex[app];
      if IsShmKey(key) && there != here then Err(Exit(ShmAcrossHosts(app, key)))
      else
        var dep :- LoadDeployment(repo, there.dc, there.host, app);
        var envs :- RefCfgEnvs(dep.app);
        Ok((there, envs))
  }

  /** The text one reference resolves to: the referenced `cfg_envs` value as a
      string, except that a non-None `listen_nic` is replaced by the IP of the
      first NIC of that name on the referenced host. */
  function ResolveRef(here: Loc, appIndex: map<string, Loc>, repo: Repo, p: (string, string))
    : Result<string>
  {
    var (app, key) := p;
    var (there, envs) :- RefEnvs(here, appIndex, repo, p);
    if !HasKey(envs, key) then Err(Exit(MissingRefKey(app, key)))
    else
      var raw := Lookup(envs, key).value;
      if key == "listen_nic" && raw != VNull then
        var topo :- LoadDatacenter(repo, there.dc, there.host);
        var nics :- Nics(topo);
        var found :- FindNicIp(nics, VStr(PyStr(raw)));
        if found.None? || found.value == VNull then Err(Exit(NicNotFound))
        else Ok(PyStr(found.value))
      else Ok(PyStr(raw))
  }

  /** A reference to an application missing from the index fails. */
  lemma UnknownAppFails(here: Loc, appIndex: map<string, Loc>, repo: Repo, p: (string, string))
    requires p.0 !in appIndex
    ensures ResolveRef(here, appIndex, repo, p) == Err(Exit(UnknownApp(p.0)))
  {
  }

  /** A shared-memory key of an application on another host fails, whatever
      the repository holds: the rule is applied before any file is read. */
  lemma ShmAcrossHostsFails(here: Loc, appIndex: map<string, Loc>, repo1: Repo, repo2: Repo, p: (string, string))
    requires p.0 in appIndex && IsShmKey(p.1) && appIndex[p.0] != here
    ensures ResolveRef(here, appIndex, repo1, p) == Err(Exit(ShmAcrossHosts(p.0, p.1)))
    ensures ResolveRef(here, appIndex, repo1, p) == ResolveRef(here, appIndex, repo2, p)
  {
  }

  /** A key missing from the referenced `cfg_envs` fails; any key other than a
      non-None `listen_nic` resolves to its value's string form. */
  lemma PlainKeyResolves(here: Loc, appIndex: map<string, Loc>, repo: Repo, p: (string, string))
    requires RefEnvs(here, appIndex, repo, p).Ok?
    ensures var envs := RefEnvs(here, appIndex, repo, p).value.1;
      && (!HasKey(envs, p.1) ==> ResolveRef(here, appIndex, repo, p) == Err(Exit(MissingRefKey(p.0, p.1))))
      && (HasKey(envs, p.1) && (p.1 != "listen_nic" || Lookup(envs, p.1).value == VNull) ==>
            ResolveRef(here, appIndex, repo, p) == Ok(PyStr(Lookup(envs, p.1).value)))
  {
  }

  /** A non-None `listen_nic` resolves to the IP of the first NIC with that name
      on the referenced host, when that IP is not None. */
  lemma ListenNicRefResolves(here: Loc, appIndex: map<string, Loc>, repo: Repo, p: (string, string), i: int)
    requires p.1 == "listen_nic"
    requires RefEnvs(here, appIndex, repo, p).Ok?
    requires var (there, envs) := RefEnvs(here, appIndex, repo, p).value;
      && HasKey(envs, p.1) && Lookup(envs, p.1).value != VNull
      && LoadDatacenter(repo, there.dc, there.host).Ok?
      && Nics(LoadDatacenter(repo, there.dc, there.host).value).Ok?
      && FirstNamed(Nics(LoadDatacenter(repo, there.dc, there.host).value).value,
                    VStr(PyStr(Lookup(envs, p.1).value)), i)
      && IpOf(Nics(LoadDatacenter(repo, there.dc, there.host).value).value[i]) != VNull
    ensures var there := RefEnvs(here, appIndex, repo, p).value.0;
      ResolveRef(here, appIndex, repo, p)
      == Ok(PyStr(IpOf(Nics(LoadDatacenter(repo, there.dc, there.host).value).value[i])))
  {
    var (there, envs) := RefEnvs(here, appIndex, repo, p).value;
    FindNicIpFirst(Nics(LoadDatacenter(repo, there.dc, there.host).value).value,
                   VStr(PyStr(Lookup(envs, p.1).value)), i);
  }

  // ---------------------------------------------------------------------------
  // resolve_cross_app_placeholders

  /** `refs` holds exactly the resolutions of `pairs`, each under its
      `app.key` name. */
  predicate ResolvedAll(refs: map<string, string>, pairs: set<(string, string)>,
                        resolve: ((string, string)) -> Result<string>)
  {
    && (forall p | p in pairs :: resolve(p).Ok? && RefName(p) in refs && refs[RefName(p)] == resolve(p).value)
    && (forall k | k in refs :: exists p | p in pairs :: k == RefName(p))
  }

  /** Resolving one more reference extends the map by its entry. */
  lemma ResolvedAllStep(refs: map<string, string>, done: set<(string, string)>,
                        resolve: ((string, string)) -> Result<string>, p: (string, string))
    requires ResolvedAll(refs, done, resolve)
    requires forall q | q in done + {p} :: IsWord(q.0) && IsWord(q.1)
    requires resolve(p).Ok?
    ensures ResolvedAll(refs[RefName(p) := resolve(p).value], done + {p}, resolve)
  {
    var refs' := refs[RefName(p) := resolve(p).value];
    forall q | q in done + {p}
      ensures RefName(q) in refs' && refs'[RefName(q)] == resolve(q).value
    {
      if q != p && RefName(q) == RefName(p) {
        RefNameInjective(q, p);
      }
    }
    forall k | k in refs' ensures exists q | q in done + {p} :: k == RefName(q) {
      if k != RefName(p) {
        var q :| q in done && k == RefName(q);
        assert q in done + {p};
      }
    }
  }

  lemma SomePair(s: set<(string, string)>)
    requires s != {}
    ensures exists p :: p in s
  {
    if forall p :: p !in s {
      assert false;
    }
  }

  /** `for ref_app, ref_key in ref_pairs: cross_refs[f"{ref_app}.{ref_key}"] = ...`:
      resolves the pairs one by one, in no particular order, and stops at the
      first that fails. */
  method ResolveEach(pairs: set<(string, string)>, resolve: ((string, string)) -> Result<string>)
    returns (r: Result<map<string, string>>)
    requires forall p | p in pairs :: IsWord(p.0) && IsWord(p.1)
    ensures r.Ok? <==> forall p | p in pairs :: resolve(p).Ok?
    ensures r.Ok? ==> ResolvedAll(r.value, pairs, resolve)
    ensures r.Err? ==> exists p | p in pairs :: resolve(p) == Err(r.error)
  {
    var refs: map<string, string> := map[];
    var done: set<(string, string)> := {};
    while pairs - done != {}
      invariant done <= pairs
      invariant ResolvedAll(refs, done, resolve)
      decreases pairs - done
    {
      SomePair(pairs - done);
      var p :| p in pairs - done;
      var v := resolve(p);
      if v.Err? {
        assert p in pairs;
        return Err(v.error);
      }
      ResolvedAllStep(refs, done, resolve, p);
      refs := refs[RefName(p) := v.value];
      done := done + {p};
    }
    assert done == pairs by {
      forall q | q in pairs ensures q in done {
        assert q !in pairs - done;
      }
    }
    r := Ok(refs);
  }

  /** resolve_cross_app_placeholders: every distinct reference of the template
      resolved under its `app.key` name, or the failure of one of them. Its
      inputs are left as they are, so on success the result depends on them
      alone. */
  method ResolveCrossAppPlaceholders(here: Loc, templateText: string, appIndex: map<string, Loc>, repo: Repo)
    returns (r: Result<map<string, string>>)
    ensures r.Ok? <==> forall p | p in RefPairs(templateText) :: ResolveRef(here, appIndex, repo, p).Ok?
    ensures r.Ok? ==> forall p | p in RefPairs(templateText) ::
      RefName(p) in r.value && r.value[RefName(p)] == ResolveRef(here, appIndex, repo, p).value
    ensures r.Ok? ==> forall k | k in r.value :: exists p | p in RefPairs(templateText) :: k == RefName(p)
    ensures r.Err? ==> exists p | p in RefPairs(templateText) :: ResolveRef(here, appIndex, repo, p) == Err(r.error)
  {
    r := ResolveEach(RefPairs(templateText), p => ResolveRef(here, appIndex, repo, p));
  }
}
