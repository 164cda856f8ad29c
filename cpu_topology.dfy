/** CPU-set expressions ("0-3,8,10-11") and the CPU -> NUMA node map of a host
    (tools/cpu_topology.py; the same two functions are repeated in
    tools/gen_config.py). */
module CpuTopology {
  import opened Base
  import opened Text
  import opened Values

  // ---------------------------------------------------------------------------
  // CPU-set expressions

  /** The integers lo, lo+1, ..., hi-1. */
  function Interval(lo: int, hi: int): (s: set<int>)
    ensures forall x :: x in s <==> lo <= x < hi
    decreases hi - lo
  {
    if lo >= hi then {} else {lo} + Interval(lo + 1, hi)
  }

  /** The CPUs one stripped, non-empty token stands for: `a-b` (split at the
      first dash) is the inclusive range, anything else a single integer. */
  function TokenSet(part: string): Result<set<int>> {
    if '-' in part then
      var i := IndexOf(part, '-');
      RangeSet(ParseInt(part[..i]), ParseInt(part[i + 1..]))
    else
      match ParseInt(part)
      case Some(n) => Ok({n})
      case None => Err(Raise(NotAnInteger))
  }

  /** The range between the two parsed halves of `a-b`, inclusive. */
  function RangeSet(lhs: Option<int>, rhs: Option<int>): Result<set<int>> {
    match (lhs, rhs)
    case (Some(a), Some(b)) =>
      if a > b then Err(Raise(CpuRangeReversed(a, b))) else Ok(Interval(a, b + 1))
    case _ => Err(Raise(NotAnInteger))
  }

  /** What one comma-separated token adds: nothing when it is blank, otherwise
      the CPUs of the stripped token. */
  function TokenContribution(part: string): Result<set<int>> {
    var p := Strip(part);
    if p == [] then Ok({}) else TokenSet(p)
  }

  /** The union of the contributions of the comma-separated tokens, left to
      right; the first bad token fails. */
  function TokensSet(parts: seq<string>): Result<set<int>> {
    if parts == [] then Ok({})
    else
      var s :- TokenContribution(parts[0]);
      var rest :- TokensSet(parts[1..]);
      Ok(s + rest)
  }

  /** What `parse_cpu_set(expr)` returns or raises. */
  function CpuSetOf(expr: string): Result<set<int>> {
    var e := Strip(expr);
    if e == [] then Ok({}) else TokensSet(Split(e, ','))
  }

  /** `acc` joined to a result: the union on success, the error otherwise. */
  function UnionWith(acc: set<int>, r: Result<set<int>>): Result<set<int>> {
    match r
    case Ok(s) => Ok(acc + s)
    case Err(e) => Err(e)
  }

  /** parse_cpu_set: loops over the comma-separated tokens, adding each token's
      CPUs to the result set. */
  method ParseCpuSet(expr: string) returns (r: Result<set<int>>)
    ensures r == CpuSetOf(expr)
  {
    var e := Strip(expr);
    if e == [] {
      return Ok({});
    }
    var parts := Split(e, ',');
    var result: set<int> := {};
    assert CpuSetOf(expr) == TokensSet(parts);
    assert parts[0..] == parts;
    if TokensSet(parts).Ok? {
      assert {} + TokensSet(parts).value == TokensSet(parts).value;
    }
    var i := 0;
    while i < |parts|
      invariant 0 <= i <= |parts|
      invariant CpuSetOf(expr) == Then(Ok(result), TokensSet(parts[i..]))
    {
      ghost var rest := TokensSet(parts[i + 1..]);
      TokensSetCons(parts[i..]);
      assert parts[i..][0] == parts[i] && parts[i..][1..] == parts[i + 1..];
      var part := Strip(parts[i]);
      if part == [] {
        assert TokensSet(parts[i..]) == Then(Ok({}), rest);
        UnionEmptyLeft(rest);
        i := i + 1;
        continue;
      }
      var s := TokenSet(part);
      assert TokensSet(parts[i..]) == Then(s, rest);
      if s.Err? {
        return Err(s.error);
      }
      ThenAssoc(result, s.value, rest);
      result := result + s.value;
      i := i + 1;
    }
    assert parts[i..] == [];
    r := Ok(result);
  }

  lemma UnionEmptyLeft(r: Result<set<int>>)
    ensures Then(Ok({}), r) == r
  {
    if r.Ok? {
      assert {} + r.value == r.value;
    }
  }

  lemma ThenAssoc(a: set<int>, b: set<int>, r: Result<set<int>>)
    ensures Then(Ok(a), Then(Ok(b), r)) == Then(Ok(a + b), r)
  {
    if r.Ok? {
      assert a + (b + r.value) == (a + b) + r.value;
    }
  }

  lemma TokensSetCons(parts: seq<string>)
    requires parts != []
    ensures TokensSet(parts) == Then(TokenContribution(parts[0]), TokensSet(parts[1..]))
  {
  }

  /** An empty or whitespace-only expression is the empty set. */
  lemma BlankParsesEmpty(expr: string)
    requires Blank(expr)
    ensures CpuSetOf(expr) == Ok({})
  {
    StripEmptyIffBlank(expr);
  }

  /** A range token `a-b` with 0 <= a <= b stands for exactly a..b; with a > b
      it fails. */
  lemma RangeToken(a: nat, b: nat)
    ensures TokenSet(NatToString(a) + "-" + NatToString(b))
         == if a <= b then Ok(Interval(a, b + 1)) else Err(Raise(CpuRangeReversed(a, b)))
  {
    var sa, sb := NatToString(a), NatToString(b);
    var part := sa + "-" + sb;
    assert part[|sa|] == '-';
    assert forall j | 0 <= j < |sa| :: part[j] == sa[j] && IsDigit(sa[j]);
    IndexOfFirst(part, '-', |sa|);
    assert part[..|sa|] == sa && part[|sa| + 1..] == sb;
    ParseIntToString(a);
    ParseIntToString(b);
    RangeTokenAt(part, |sa|, a, b);
  }

  lemma RangeTokenAt(part: string, i: nat, a: int, b: int)
    requires i < |part| && part[i] == '-' && IndexOf(part, '-') == i
    requires ParseInt(part[..i]) == Some(a) && ParseInt(part[i + 1..]) == Some(b)
    ensures TokenSet(part) == if a <= b then Ok(Interval(a, b + 1)) else Err(Raise(CpuRangeReversed(a, b)))
  {
    assert '-' in part;
    assert TokenSet(part) == RangeSet(Some(a), Some(b));
  }

  /** Tokens may be processed in two halves: the result is the union of the
      halves' results, and the first failure wins. */
  lemma {:induction false} TokensSetConcat(ps: seq<string>, qs: seq<string>)
    ensures TokensSet(ps + qs) == Then(TokensSet(ps), TokensSet(qs))
  {
    if ps == [] {
      assert ps + qs == qs;
      if TokensSet(qs).Ok? {
        assert {} + TokensSet(qs).value == TokensSet(qs).value;
      }
    } else {
      assert (ps + qs)[1..] == ps[1..] + qs;
      assert (ps + qs)[0] == ps[0];
      TokensSetConcat(ps[1..], qs);
      var c := TokenContribution(ps[0]);
      var r, t := TokensSet(ps[1..]), TokensSet(qs);
      if c.Ok? && r.Ok? && t.Ok? {
        assert c.value + (r.value + t.value) == (c.value + r.value) + t.value;
      }
    }
  }

  /** The first result, then the second: their union, or the first error. */
  function Then(first: Result<set<int>>, second: Result<set<int>>): (r: Result<set<int>>)
    ensures r.Ok? <==> first.Ok? && second.Ok?
    ensures r.Ok? ==> r.value == first.value + second.value
    ensures first.Err? ==> r == first
  {
    if first.Err? then first else UnionWith(first.value, second)
  }

  /** A blank token between commas is skipped: `"1,,2"` parses as `"1,2"`. */
  lemma BlankTokenSkipped(ps: seq<string>, blank: string, qs: seq<string>)
    requires Blank(blank)
    ensures TokensSet(ps + [blank] + qs) == TokensSet(ps + qs)
  {
    StripEmptyIffBlank(blank);
    var tail := [blank] + qs;
    assert tail[0] == blank && tail[1..] == qs;
    assert TokenContribution(blank) == Ok({});
    if TokensSet(qs).Ok? {
      assert {} + TokensSet(qs).value == TokensSet(qs).value;
    }
    assert TokensSet(tail) == TokensSet(qs);
    assert ps + [blank] + qs == ps + tail;
    TokensSetConcat(ps, tail);
    TokensSetConcat(ps, qs);
  }

  /** The expression parses exactly when every token does, and then the result
      is the union of the tokens' CPU sets. */
  lemma {:induction false} TokensSetMembers(parts: seq<string>, x: int)
    ensures TokensSet(parts).Ok? <==> forall i | 0 <= i < |parts| :: TokenContribution(parts[i]).Ok?
    ensures TokensSet(parts).Ok? ==>
      (x in TokensSet(parts).value <==>
       exists i | 0 <= i < |parts| :: x in TokenContribution(parts[i]).value)
  {
    if parts != [] {
      TokensSetMembers(parts[1..], x);
      assert forall i | 1 <= i < |parts| :: parts[i] == parts[1..][i - 1];
    }
  }

  // ---------------------------------------------------------------------------
  // CPU -> NUMA node map, list form

  /** The id (default 0) and CPU set (default "") of one entry of `numa_nodes`. */
  function NodeEntry(node: Value): Result<(int, set<int>)> {
    var idv :- Get(node, "id", VInt(0));
    var id :- match AsInt(idv) case Some(i) => Ok(i) case None => Err(Raise(NotAnInteger));
    var cpusv :- Get(node, "cpus", VStr(""));
    var cpus :- CpuSetOf(PyStr(cpusv));
    Ok((id, cpus))
  }

  /** `acc` with every CPU of `cpus` mapped to `id`. */
  function Assign(acc: map<int, int>, cpus: set<int>, id: int): map<int, int> {
    acc + map c | c in cpus :: id
  }

  lemma AssignAt(acc: map<int, int>, cpus: set<int>, id: int, c: int)
    ensures c in Assign(acc, cpus, id) <==> c in acc || c in cpus
    ensures c in Assign(acc, cpus, id) ==> Assign(acc, cpus, id)[c] == if c in cpus then id else acc[c]
  {
  }

  /** The map after the list entries are applied in order to `acc`. */
  function NumaFromList(nodes: seq<Value>, acc: map<int, int>): Result<map<int, int>> {
    if nodes == [] then Ok(acc)
    else
      var entry :- NodeEntry(nodes[0]);
      NumaFromList(nodes[1..], Assign(acc, entry.1, entry.0))
  }

  /** The list-form loops: for each node, each of its CPUs is mapped to its id. */
  method NumaMapFromList(nodes: seq<Value>) returns (r: Result<map<int, int>>)
    ensures r == NumaFromList(nodes, map[])
  {
    var mapping: map<int, int> := map[];
    var k := 0;
    while k < |nodes|
      invariant 0 <= k <= |nodes|
      invariant NumaFromList(nodes, map[]) == NumaFromList(nodes[k..], mapping)
    {
      assert nodes[k..][0] == nodes[k] && nodes[k..][1..] == nodes[k + 1..];
      var entry := NodeEntry(nodes[k]);
      if entry.Err? {
        return Err(entry.error);
      }
      mapping := AssignAll(mapping, entry.value.1, entry.value.0);
      k := k + 1;
    }
    assert nodes[k..] == [];
    r := Ok(mapping);
  }

  /** The inner loop of the list form: every CPU of `cpus` is mapped to `id`. */
  method AssignAll(mapping: map<int, int>, cpus: set<int>, id: int) returns (m: map<int, int>)
    ensures m == Assign(mapping, cpus, id)
  {
    m := mapping;
    var todo := cpus;
    assert cpus - todo == {};
    assert mapping == Assign(mapping, {}, id);
    while todo != {}
      invariant todo <= cpus
      invariant m == Assign(mapping, cpus - todo, id)
      decreases todo
    {
      NonEmptyHasMember(todo);
      var cpu :| cpu in todo;
      AssignOneMore(mapping, cpus - todo, cpu, id);
      assert cpus - (todo - {cpu}) == (cpus - todo) + {cpu};
      m := m[cpu := id];
      todo := todo - {cpu};
    }
    assert cpus - todo == cpus;
  }

  lemma AssignOneMore(acc: map<int, int>, cpus: set<int>, c: int, id: int)
    ensures Assign(acc, cpus + {c}, id) == Assign(acc, cpus, id)[c := id]
  {
    AssignPointwise(acc, cpus + {c}, id, Assign(acc, cpus, id)[c := id]);
  }

  lemma AssignPointwise(acc: map<int, int>, cpus: set<int>, id: int, m: map<int, int>)
    requires m.Keys == acc.Keys + cpus
    requires forall c | c in m :: m[c] == if c in cpus then id else acc[c]
    ensures m == Assign(acc, cpus, id)
  {
    var a := Assign(acc, cpus, id);
    forall c ensures c in a <==> c in m {
      AssignAt(acc, cpus, id, c);
    }
    forall c | c in a ensures a[c] == m[c] {
      AssignAt(acc, cpus, id, c);
    }
  }

  /** The (id, CPU set) entries of the list, or the first entry's error. */
  function EntriesOf(nodes: seq<Value>): Result<seq<(int, set<int>)>> {
    Collect(nodes, NodeEntry)
  }

  /** `f` applied to each element in order, or the first failure. */
  function Collect<T, U>(xs: seq<T>, f: T -> Result<U>): Result<seq<U>> {
    if xs == [] then Ok([])
    else
      var y :- f(xs[0]);
      var rest :- Collect(xs[1..], f);
      Ok([y] + rest)
  }

  lemma {:induction false} CollectOk<T, U>(xs: seq<T>, f: T -> Result<U>)
    ensures Collect(xs, f).Ok? <==> forall i | 0 <= i < |xs| :: f(xs[i]).Ok?
    ensures Collect(xs, f).Ok? ==>
      |Collect(xs, f).value| == |xs|
      && forall i | 0 <= i < |xs| :: Collect(xs, f).value[i] == f(xs[i]).value
  {
    if xs != [] {
      var rest := xs[1..];
      CollectOk(rest, f);
      assert forall i | 1 <= i < |xs| :: rest[i - 1] == xs[i];
    }
  }

  /** The map after the entries are applied in order to `acc`. */
  function Layout(acc: map<int, int>, es: seq<(int, set<int>)>): map<int, int>
    decreases |es|
  {
    if es == [] then acc else Layout(Assign(acc, es[0].1, es[0].0), es[1..])
  }

  /** The list form fails with the first bad entry's error, and otherwise lays
      the entries out in order. */
  lemma {:induction false} NumaFromListLayout(nodes: seq<Value>, acc: map<int, int>)
    ensures NumaFromList(nodes, acc) == (var es :- EntriesOf(nodes); Ok(Layout(acc, es)))
  {
    if nodes != [] {
      var e := NodeEntry(nodes[0]);
      if e.Ok? {
        NumaFromListLayout(nodes[1..], Assign(acc, e.value.1, e.value.0));
        var rest := EntriesOf(nodes[1..]);
        if rest.Ok? {
          assert ([e.value] + rest.value)[0] == e.value;
          assert ([e.value] + rest.value)[1..] == rest.value;
        }
      }
    }
  }

  /** The entries succeed exactly when every node's entry does, and then the
      i-th entry is the i-th node's. */
  lemma {:induction false} EntriesOfOk(nodes: seq<Value>)
    ensures EntriesOf(nodes).Ok? <==> forall i | 0 <= i < |nodes| :: NodeEntry(nodes[i]).Ok?
    ensures EntriesOf(nodes).Ok? ==>
      |EntriesOf(nodes).value| == |nodes|
      && forall i | 0 <= i < |nodes| :: EntriesOf(nodes).value[i] == NodeEntry(nodes[i]).value
  {
    CollectOk(nodes, NodeEntry);
  }

  /** A node appended to the list overrides the earlier nodes on the CPUs it
      names and leaves the other CPUs alone. */
  lemma {:induction false} LayoutAppend(acc: map<int, int>, es: seq<(int, set<int>)>, e: (int, set<int>))
    ensures Layout(acc, es + [e]) == Assign(Layout(acc, es), e.1, e.0)
    decreases |es|
  {
    if es != [] {
      assert (es + [e])[0] == es[0] && (es + [e])[1..] == es[1..] + [e];
      LayoutAppend(Assign(acc, es[0].1, es[0].0), es[1..], e);
    }
  }

  /** Every CPU named by some entry maps to the id of the LAST entry naming it,
      and no other CPU is mapped. */
  lemma {:induction false} LayoutLastWins(es: seq<(int, set<int>)>, c: int)
    ensures c in Layout(map[], es) <==> exists i | 0 <= i < |es| :: c in es[i].1
    ensures forall i | 0 <= i < |es| && c in es[i].1 && (forall j | i < j < |es| :: c !in es[j].1)
              :: Layout(map[], es)[c] == es[i].0
    decreases |es|
  {
    if es != [] {
      var init, last := es[..|es| - 1], es[|es| - 1];
      assert es == init + [last];
      LayoutLastWins(init, c);
      LayoutAppend(map[], init, last);
      AssignAt(Layout(map[], init), last.1, last.0, c);
      assert forall i | 0 <= i < |init| :: init[i] == es[i];
    }
  }

  // ---------------------------------------------------------------------------
  // CPU -> NUMA node map, even-split form

  /** How many CPUs node `i` receives when every node gets `base` CPUs and
      the first `rem` nodes one more. */
  function NodeCount(base: nat, rem: nat, i: nat): nat {
    base + (if i < rem then 1 else 0)
  }

  /** The first CPU of node `i`: the CPUs of nodes 0..i-1 come before it. */
  function NodeStart(base: nat, rem: nat, i: nat): nat {
    if i == 0 then 0 else NodeStart(base, rem, i - 1) + NodeCount(base, rem, i - 1)
  }

  /** Closed form: node i starts after i full shares and one extra CPU for
      each earlier node below the remainder. */
  lemma {:induction false} NodeStartClosed(base: nat, rem: nat, i: nat)
    ensures NodeStart(base, rem, i) == i * base + (if i < rem then i else rem)
  {
    if i > 0 {
      NodeStartClosed(base, rem, i - 1);
      assert i * base == (i - 1) * base + base;
    }
  }

  lemma NodeStartStep(base: nat, rem: nat, i: nat)
    ensures NodeStart(base, rem, i + 1) == NodeStart(base, rem, i) + NodeCount(base, rem, i)
  {
  }

  /** With base = total / n and rem = total % n the n nodes together receive
      exactly `total` CPUs. */
  lemma NodeStartEnd(total: nat, n: nat)
    requires n > 0
    ensures NodeStart(total / n, total % n, n) == total
  {
    NodeStartClosed(total / n, total % n, n);
  }

  lemma {:induction false} NodeStartMonotone(base: nat, rem: nat, i: nat, j: nat)
    requires i <= j
    ensures NodeStart(base, rem, i) <= NodeStart(base, rem, j)
    decreases j - i
  {
    if i < j {
      NodeStartMonotone(base, rem, i + 1, j);
    }
  }

  /** The map after nodes 0..k-1 have been filled. */
  function EvenSplitMap(base: nat, rem: nat, k: nat): map<int, int> {
    if k == 0 then map[]
    else
      var lo := NodeStart(base, rem, k - 1);
      EvenSplitMap(base, rem, k - 1) + Block(lo, lo + NodeCount(base, rem, k - 1), k - 1)
  }

  /** The map sending each of lo, ..., hi-1 to `id`. */
  function Block(lo: int, hi: int, id: int): map<int, int>
    decreases hi - lo
  {
    if lo >= hi then map[] else Block(lo + 1, hi, id)[lo := id]
  }

  lemma {:induction false} BlockShape(lo: int, hi: int, id: int, c: int)
    ensures c in Block(lo, hi, id) <==> lo <= c < hi
    ensures c in Block(lo, hi, id) ==> Block(lo, hi, id)[c] == id
    decreases hi - lo
  {
    if lo < hi {
      BlockShape(lo + 1, hi, id, c);
    }
  }

  lemma BlockExtend(lo: int, hi: int, id: int)
    requires lo <= hi
    ensures Block(lo, hi + 1, id) == Block(lo, hi, id)[hi := id]
  {
    var a, b := Block(lo, hi + 1, id), Block(lo, hi, id)[hi := id];
    forall c ensures (c in a <==> c in b) && (c in a ==> a[c] == b[c]) {
      BlockShape(lo, hi + 1, id, c);
      BlockShape(lo, hi, id, c);
    }
    assert a == b;
  }

  /** The even split of `total` CPUs over `n` nodes: every node gets
      total / n CPUs and the first total % n nodes one more. */
  method EvenSplit(total: nat, n: nat) returns (mapping: map<int, int>)
    requires n > 0
    ensures mapping == EvenSplitMap(total / n, total % n, n)
  {
    mapping := FillNodes(total / n, total % n, n);
  }

  /** The even-split loops: a running CPU counter hands `NodeCount(i)` CPUs to
      each node `i` in turn. */
  method FillNodes(base: nat, rem: nat, n: nat) returns (mapping: map<int, int>)
    ensures mapping == EvenSplitMap(base, rem, n)
  {
    mapping := map[];
    var cpu := 0;
    var nodeId := 0;
    while nodeId < n
      invariant 0 <= nodeId <= n
      invariant cpu == NodeStart(base, rem, nodeId)
      invariant mapping == EvenSplitMap(base, rem, nodeId)
    {
      var count := base + (if nodeId < rem then 1 else 0);
      EvenSplitMapStep(base, rem, nodeId);
      mapping, cpu := FillNode(mapping, cpu, count, nodeId);
      nodeId := nodeId + 1;
    }
  }

  lemma EvenSplitMapStep(base: nat, rem: nat, k: nat)
    ensures NodeStart(base, rem, k + 1) == NodeStart(base, rem, k) + base + (if k < rem then 1 else 0)
    ensures EvenSplitMap(base, rem, k + 1) ==
      EvenSplitMap(base, rem, k) + Block(NodeStart(base, rem, k), NodeStart(base, rem, k + 1), k)
  {
  }

  /** The inner loop of the even split: the next `count` CPUs from `cpu` on
      go to node `nodeId`, and the counter moves past them. */
  method FillNode(mapping: map<int, int>, cpu: int, count: nat, nodeId: int)
    returns (m: map<int, int>, next: int)
    ensures m == mapping + Block(cpu, cpu + count, nodeId)
    ensures next == cpu + count
  {
    m, next := mapping, cpu;
    assert mapping + Block(cpu, cpu, nodeId) == mapping;
    var j := 0;
    while j < count
      invariant 0 <= j <= count
      invariant next == cpu + j
      invariant m == mapping + Block(cpu, cpu + j, nodeId)
    {
      BlockExtend(cpu, cpu + j, nodeId);
      UnionUpdate(mapping, Block(cpu, cpu + j, nodeId), next, nodeId);
      m := m[next := nodeId];
      next := next + 1;
      j := j + 1;
    }
  }

  lemma UnionUpdate(a: map<int, int>, b: map<int, int>, k: int, v: int)
    ensures (a + b)[k := v] == a + b[k := v]
  {
  }

  /** After k nodes, exactly the CPUs [0, NodeStart(k)) are mapped, each to the
      node whose block holds it. */
  lemma {:induction false} EvenSplitMapShape(base: nat, rem: nat, k: nat, c: int)
    ensures c in EvenSplitMap(base, rem, k) <==> 0 <= c < NodeStart(base, rem, k)
    ensures c in EvenSplitMap(base, rem, k) ==>
      var i := EvenSplitMap(base, rem, k)[c];
      0 <= i < k && NodeStart(base, rem, i) <= c < NodeStart(base, rem, i + 1)
  {
    if k > 0 {
      var prev := EvenSplitMap(base, rem, k - 1);
      var lo := NodeStart(base, rem, k - 1);
      var hi := NodeStart(base, rem, k);
      var block := Block(lo, hi, k - 1);
      assert EvenSplitMap(base, rem, k) == prev + block;
      EvenSplitMapShape(base, rem, k - 1, c);
      BlockShape(lo, hi, k - 1, c);
      assert c in block <==> lo <= c < hi;
      if c in block {
        assert (prev + block)[c] == k - 1;
      } else if c in prev {
        assert (prev + block)[c] == prev[c];
      }
    }
  }

  /** The even split of `total` CPUs over `n` nodes maps exactly the CPUs
      0..total-1. */
  lemma EvenSplitCovers(total: nat, n: nat)
    requires n > 0
    ensures forall c :: c in EvenSplitMap(total / n, total % n, n) <==> 0 <= c < total
  {
    var base: nat, rem: nat := total / n, total % n;
    NodeStartEnd(total, n);
    forall c ensures c in EvenSplitMap(base, rem, n) <==> 0 <= c < total {
      EvenSplitMapShape(base, rem, n, c);
    }
  }

  /** Node ids never decrease as CPU ids grow. */
  lemma EvenSplitMonotone(base: nat, rem: nat, n: nat, c1: int, c2: int)
    requires c1 in EvenSplitMap(base, rem, n) && c2 in EvenSplitMap(base, rem, n) && c1 <= c2
    ensures EvenSplitMap(base, rem, n)[c1] <= EvenSplitMap(base, rem, n)[c2]
  {
    var m := EvenSplitMap(base, rem, n);
    EvenSplitMapShape(base, rem, n, c1);
    EvenSplitMapShape(base, rem, n, c2);
    if m[c2] < m[c1] {
      NodeStartMonotone(base, rem, m[c2] + 1, m[c1]);
    }
  }

  /** Node i receives total / n CPUs, plus one when i < total % n. */
  lemma EvenSplitNodeSize(total: nat, n: nat, i: nat)
    requires n > 0 && i < n
    ensures var m := EvenSplitMap(total / n, total % n, n);
      |set c | c in m && m[c] == i| == total / n + (if i < total % n then 1 else 0)
  {
    var base: nat, rem: nat := total / n, total % n;
    var m := EvenSplitMap(base, rem, n);
    var lo, hi := NodeStart(base, rem, i), NodeStart(base, rem, i + 1);
    NodeStartMonotone(base, rem, i + 1, n);
    NodeStartEnd(total, n);
    var owned := set c | c in m && m[c] == i;
    forall c ensures c in owned <==> c in Interval(lo, hi) {
      EvenSplitMapShape(base, rem, n, c);
      if c in m && m[c] != i {
        BlocksDisjoint(base, rem, m[c], i, c);
      }
    }
    assert owned == Interval(lo, hi);
    IntervalSize(lo, hi);
  }

  /** The blocks of two different nodes have no CPU in common. */
  lemma BlocksDisjoint(base: nat, rem: nat, i: nat, j: nat, c: int)
    requires i != j
    requires NodeStart(base, rem, i) <= c < NodeStart(base, rem, i + 1)
    ensures !(NodeStart(base, rem, j) <= c < NodeStart(base, rem, j + 1))
  {
    if j < i {
      NodeStartMonotone(base, rem, j + 1, i);
    } else {
      NodeStartMonotone(base, rem, i + 1, j);
    }
  }

  lemma {:induction false} IntervalSize(lo: int, hi: int)
    requires lo <= hi
    ensures |Interval(lo, hi)| == hi - lo
    decreases hi - lo
  {
    if lo < hi {
      IntervalSize(lo + 1, hi);
      assert Interval(lo, hi) == {lo} + Interval(lo + 1, hi);
    }
  }

  // ---------------------------------------------------------------------------
  // build_cpu_numa_map_from_host

  /** The node count of the even-split form: `int(nodes or 1)`, so a missing,
      null or zero `numa_nodes` means one node. */
  function EvenSplitNodes(nodes: Value): Result<int> {
    match AsInt(if Truthy(nodes) then nodes else VInt(1))
    case Some(k) => Ok(k)
    case None => Err(Raise(NotAnInteger))
  }

  /** What `build_cpu_numa_map_from_host(host)` returns or raises. */
  function NumaMapOf(host: Value): Result<map<int, int>> {
    var nodes :- Get(host, "numa_nodes", VNull);
    if nodes.VList? then NumaFromList(nodes.items, map[])
    else
      var cpusv :- Get(host, "cpus", VInt(0));
      var total :- match AsInt(cpusv) case Some(t) => Ok(t) case None => Err(Raise(NotAnInteger));
      var n :- EvenSplitNodes(nodes);
      if total <= 0 || n <= 0 then Err(Raise(NumaNotPositive))
      else Ok(EvenSplitOf(total, n))
  }

  /** The even split of `total` CPUs over `n` nodes. */
  function EvenSplitOf(total: nat, n: nat): map<int, int>
    requires n > 0
  {
    EvenSplitMap(total / n, total % n, n)
  }

  method BuildCpuNumaMapFromHost(host: Value) returns (r: Result<map<int, int>>)
    ensures r == NumaMapOf(host)
  {
    var nodesR := Get(host, "numa_nodes", VNull);
    if nodesR.Err? {
      return Err(nodesR.error);
    }
    var nodes := nodesR.value;
    if nodes.VList? {
      r := NumaMapFromList(nodes.items);
      return;
    }
    var cpusv := Get(host, "cpus", VInt(0)).value;
    var total := AsInt(cpusv);
    if total.None? {
      return Err(Raise(NotAnInteger));
    }
    var n := EvenSplitNodes(nodes);
    if n.Err? {
      return Err(n.error);
    }
    if total.value <= 0 || n.value <= 0 {
      return Err(Raise(NumaNotPositive));
    }
    var m := EvenSplit(total.value, n.value);
    r := Ok(m);
  }

  /** The even-split form fails exactly when the CPU count or node count is not
      positive; a zero or missing node count means a single node. */
  lemma EvenSplitFormFailure(host: Value, total: int)
    requires host.VObj? && !Lookup(host.fields, "numa_nodes").GetOr(VNull).VList?
    requires AsInt(Lookup(host.fields, "cpus").GetOr(VInt(0))) == Some(total)
    requires !Truthy(Lookup(host.fields, "numa_nodes").GetOr(VNull))
    ensures NumaMapOf(host).Err? <==> total <= 0
    ensures total > 0 ==> NumaMapOf(host) == Ok(EvenSplitMap(total, 0, 1))
  {
  }

  /** Any even-split host: it fails exactly when the CPU count or the node
      count is not positive, and otherwise maps exactly the CPUs 0 .. cpus-1. */
  lemma EvenSplitForm(host: Value, total: int, n: int)
    requires host.VObj? && !Lookup(host.fields, "numa_nodes").GetOr(VNull).VList?
    requires AsInt(Lookup(host.fields, "cpus").GetOr(VInt(0))) == Some(total)
    requires EvenSplitNodes(Lookup(host.fields, "numa_nodes").GetOr(VNull)) == Ok(n)
    ensures NumaMapOf(host).Err? <==> total <= 0 || n <= 0
    ensures NumaMapOf(host).Err? ==> NumaMapOf(host).error == Raise(NumaNotPositive)
    ensures NumaMapOf(host).Ok? ==> forall c :: c in NumaMapOf(host).value <==> 0 <= c < total
  {
    if total > 0 && n > 0 {
      EvenSplitCovers(total, n);
    }
  }
}
