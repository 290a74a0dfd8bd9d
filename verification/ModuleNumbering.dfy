/** The dependency numbering of ns-3 modules in `ns3_module_scan` of ns3modulescan.py. */
module ModuleNumbering {
  import opened Sequences
  import opened Digraph
  import opened DependencyTables
  import opened WorklistOrders
  import Topsort

  datatype Module = Module(deps: seq<string>, headers: seq<string>)

  /** The two dictionaries filled, or the exception raised: by `topsort`, or by looking up what is no module. */
  datatype Numbering =
    | Numbered(precedences: map<string, nat>, headersMap: map<string, string>)
    | Cyclical
    | KeyError

  ghost predicate DependsOn(modules: map<string, Module>, m: string, dep: string) {
    m in modules && dep in modules[m].deps
  }

  /** An edge from each dependency to the modules that list it. */
  ghost function DependencyEdges(modules: map<string, Module>): set<(string, string)> {
    set m, d | m in modules && d in modules[m].deps :: (d, m)
  }

  ghost predicate AllAreModules(modules: map<string, Module>) {
    forall m, d :: DependsOn(modules, m, d) ==> d in modules
  }

  /** The (dependency, module) pairs, one for each entry of each module's list. */
  method DependencyPairs(modules: map<string, Module>) returns (graph: seq<(string, string)>)
    ensures Edges(graph) == DependencyEdges(modules)
  {
    graph := [];
    var rest := modules.Keys;
    while rest != {}
      invariant rest <= modules.Keys
      invariant forall d, m :: (d, m) in graph <==> m !in rest && DependsOn(modules, m, d)
    {
      var name :| name in rest;
      ghost var before := graph;
      var deps := modules[name].deps;
      for k := 0 to |deps|
        invariant forall d, m :: (d, m) in graph <==> (d, m) in before || (m == name && d in deps[..k])
      {
        graph := graph + [(deps[k], name)];
      }
      rest := rest - {name};
    }
    forall e ensures e in Edges(graph) <==> e in DependencyEdges(modules) {
      assert e == (e.0, e.1);
    }
  }

  /** The section of a module; every '-' of its name becomes '_', so two modules can share one. */
  function SectionName(name: string): string {
    "ns3_module_" + seq(|name|, i requires 0 <= i < |name| => if name[i] == '-' then '_' else name[i])
  }

  /** A section is the prefix and the name, with '_' for '-' and every other character as it is. */
  lemma SectionSpelling(name: string)
    ensures var s := SectionName(name);
            && |s| == 11 + |name| && s[..11] == "ns3_module_" && '-' !in s
            && forall i :: 0 <= i < |name| && name[i] != '-' ==> s[11 + i] == name[i]
    ensures forall i :: 0 <= i < |name| && name[i] == '-' ==> SectionName(name)[11 + i] == '_'
  {
    var s := SectionName(name);
    assert "ns3_module_" == ['n', 's', '3', '_', 'm', 'o', 'd', 'u', 'l', 'e', '_'];
    forall i | 0 <= i < |s| ensures s[i] != '-' {
      if i >= 11 {
        assert s[i] == if name[i - 11] == '-' then '_' else name[i - 11];
      } else {
        assert s[i] == "ns3_module_"[i] && "ns3_module_"[i] in "ns3_module_";
      }
    }
  }

  // ---- the two dictionaries as functions of the sorted modules ----

  function Precedences(order: seq<string>): map<string, nat> {
    if order == [] then map[]
    else Precedences(order[..|order| - 1])[SectionName(Last(order)) := |order| - 1]
  }

  function WithHeaders(table: map<string, string>, headers: seq<string>, section: string): map<string, string> {
    if headers == [] then table
    else WithHeaders(table, headers[..|headers| - 1], section)[Last(headers) := section]
  }

  function HeadersMap(modules: map<string, Module>, order: seq<string>): map<string, string>
    requires forall k :: 0 <= k < |order| ==> order[k] in modules
  {
    if order == [] then map[]
    else
      WithHeaders(HeadersMap(modules, order[..|order| - 1]), modules[Last(order)].headers, SectionName(Last(order)))
  }

  /** The last module of a section numbers it. */
  lemma {:induction false} LastModuleNumbers(order: seq<string>, k: nat)
    requires k < |order| && forall j :: k < j < |order| ==> SectionName(order[j]) != SectionName(order[k])
    ensures SectionName(order[k]) in Precedences(order) && Precedences(order)[SectionName(order[k])] == k
    decreases |order|
  {
    hide SectionName;
    if k == |order| - 1 {
    } else {
      LastModuleNumbers(order[..|order| - 1], k);
    }
  }

  lemma {:induction false} WithHeadersIn(table: map<string, string>, headers: seq<string>, section: string, h: string)
    ensures var r := WithHeaders(table, headers, section);
            if h in headers then h in r && r[h] == section
            else (h in r <==> h in table) && (h in table ==> r[h] == table[h])
    decreases |headers|
  {
    if headers == [] {
    } else {
      assert headers == headers[..|headers| - 1] + [Last(headers)];
      WithHeadersIn(table, headers[..|headers| - 1], section, h);
    }
  }

  /** A header belongs to the section of the last module that lists it, and only listed headers are in the table. */
  lemma {:induction false} LastListingWins(modules: map<string, Module>, order: seq<string>, h: string)
    requires forall k :: 0 <= k < |order| ==> order[k] in modules
    ensures h in HeadersMap(modules, order) <==> exists k :: 0 <= k < |order| && h in modules[order[k]].headers
    ensures forall k :: 0 <= k < |order| && h in modules[order[k]].headers
              && (forall j :: k < j < |order| ==> h !in modules[order[j]].headers)
              ==> h in HeadersMap(modules, order) && HeadersMap(modules, order)[h] == SectionName(order[k])
    decreases |order|
  {
    hide SectionName, WithHeaders;
    if order == [] {
    } else {
      var n := |order| - 1;
      assert forall k :: 0 <= k < n ==> order[..n][k] == order[k];
      LastListingWins(modules, order[..n], h);
      WithHeadersIn(HeadersMap(modules, order[..n]), modules[order[n]].headers, SectionName(order[n]), h);
      if h in modules[order[n]].headers {
      } else {
        assert h in HeadersMap(modules, order) <==> h in HeadersMap(modules, order[..n]);
      }
    }
  }

  ghost predicate SectionsDistinct(order: seq<string>) {
    forall j, k :: 0 <= j < k < |order| ==> SectionName(order[j]) != SectionName(order[k])
  }

  /** The numbering keeps the order of the dependency `d` of `m`. */
  ghost predicate Below(precedences: map<string, nat>, d: string, m: string) {
    && SectionName(d) in precedences && SectionName(m) in precedences
    && precedences[SectionName(d)] < precedences[SectionName(m)]
  }

  /**
   * With no shared section every dependency is numbered below its dependents; and a module that shares the section of
   * its dependency never is. `DependenciesBelowIff` has the exact condition.
   */
  lemma DependenciesBelow(modules: map<string, Module>, order: seq<string>)
    requires ParentsFirst(DependencyEdges(modules), order) && NoDup(order)
    requires Elems(order) == Nodes(DependencyEdges(modules))
    ensures SectionsDistinct(order) ==> forall m, d :: DependsOn(modules, m, d) ==> Below(Precedences(order), d, m)
    ensures forall m, d :: DependsOn(modules, m, d) && SectionName(d) == SectionName(m) ==>
                             !Below(Precedences(order), d, m)
  {
    hide SectionName, NoDup;
    var E := DependencyEdges(modules);
    if SectionsDistinct(order) {
      forall m, d | DependsOn(modules, m, d) ensures Below(Precedences(order), d, m) {
        var e := (d, m);
        assert e in E && e.0 in Nodes(E) && e.1 in Nodes(E);
        var j :| 0 <= j < |order| && order[j] == m;
        assert e.0 in order[..j];
        var k :| 0 <= k < j && order[..j][k] == d;
        LastModuleNumbers(order, j);
        LastModuleNumbers(order, k);
      }
    }
  }

  // ---- exactly when dependencies are numbered below their dependents ----

  /** The greatest depth of the modules of section `s` in the graph. */
  ghost predicate SectionDepth(E: set<(string, string)>, s: string, d: nat) {
    && (exists x :: x in Nodes(E) && SectionName(x) == s && IsDepth(E, x, d))
    && (forall x, k: nat :: x in Nodes(E) && SectionName(x) == s && IsDepth(E, x, k) ==> k <= d)
  }

  /** The section of every dependency is less deep than that of its dependent. */
  ghost predicate SectionsDeepen(modules: map<string, Module>) {
    forall m, d :: DependsOn(modules, m, d) ==>
      exists i: nat, j: nat ::
        && SectionDepth(DependencyEdges(modules), SectionName(d), i)
        && SectionDepth(DependencyEdges(modules), SectionName(m), j) && i < j
  }

  ghost predicate AllBelow(modules: map<string, Module>, order: seq<string>) {
    forall m, d :: DependsOn(modules, m, d) ==> Below(Precedences(order), d, m)
  }

  lemma SectionDepthUnique(E: set<(string, string)>, s: string, i: nat, j: nat)
    requires SectionDepth(E, s, i) && SectionDepth(E, s, j)
    ensures i == j
  {
    hide SectionName;
    var x :| x in Nodes(E) && SectionName(x) == s && IsDepth(E, x, i);
    var y :| y in Nodes(E) && SectionName(y) == s && IsDepth(E, y, j);
  }

  /** The last module of a section numbers it, and is its deepest. */
  lemma LastInSection(E: set<(string, string)>, order: seq<string>, x: string) returns (p: nat, d: nat)
    requires !Cyclic(E) && Possible(E, order) && x in Nodes(E)
    ensures p < |order| && SectionName(order[p]) == SectionName(x) && IsDepth(E, order[p], d)
    ensures SectionDepth(E, SectionName(x), d)
    ensures SectionName(x) in Precedences(order) && Precedences(order)[SectionName(x)] == p
  {
    hide SectionName, Cyclic, IsDepth, Nodes;
    assert x in Elems(order);
    p := LastWith(order, SectionName(x));
    LastModuleNumbers(order, p);
    assert order[p] in Elems(order);
    d := HasDepth(E, order[p]);
    forall y, k: nat | y in Nodes(E) && SectionName(y) == SectionName(x) && IsDepth(E, y, k) ensures k <= d {
      assert y in Elems(order);
      var j :| 0 <= j < |order| && order[j] == y;
      DepthAlong(E, order, j, p, k, d);
    }
  }

  lemma {:induction false} LastWith(order: seq<string>, s: string) returns (p: nat)
    requires exists k :: 0 <= k < |order| && SectionName(order[k]) == s
    ensures p < |order| && SectionName(order[p]) == s
    ensures forall j :: p < j < |order| ==> SectionName(order[j]) != s
    decreases |order|
  {
    hide SectionName;
    var n := |order| - 1;
    if SectionName(order[n]) == s {
      p := n;
    } else {
      p := LastWith(order[..n], s);
    }
  }

  /** In every possible order the number of the deeper section is the higher one. */
  lemma DeeperIsHigher(E: set<(string, string)>, order: seq<string>, x: string, y: string, i: nat, j: nat)
    requires !Cyclic(E) && Possible(E, order) && x in Nodes(E) && y in Nodes(E)
    requires SectionDepth(E, SectionName(x), i) && SectionDepth(E, SectionName(y), j) && i < j
    ensures Below(Precedences(order), x, y)
  {
    hide SectionName, Cyclic, IsDepth, Nodes, SectionDepth, Possible;
    var p, d := LastInSection(E, order, x);
    var q, e := LastInSection(E, order, y);
    SectionDepthUnique(E, SectionName(x), i, d);
    SectionDepthUnique(E, SectionName(y), j, e);
    if q <= p {
      DepthAlong(E, order, q, p, e, d);
    }
  }

  /** Between sections of one depth either can have the higher number. */
  lemma EqualDepthCanFail(E: set<(string, string)>, x: string, y: string, d: nat) returns (order: seq<string>)
    requires !Cyclic(E) && x in Nodes(E) && y in Nodes(E) && SectionName(x) != SectionName(y)
    requires SectionDepth(E, SectionName(x), d) && SectionDepth(E, SectionName(y), d)
    ensures Possible(E, order) && !Below(Precedences(order), x, y)
  {
    hide SectionName, Cyclic, IsDepth, Nodes, Possible;
    var z :| z in Nodes(E) && SectionName(z) == SectionName(x) && IsDepth(E, z, d);
    var p;
    order, p := CanComeLast(E, z, d);
    hide SectionDepth;
    var q, e := LastInSection(E, order, x);
    var r, f := LastInSection(E, order, y);
    SectionDepthUnique(E, SectionName(x), d, e);
    SectionDepthUnique(E, SectionName(y), d, f);
    assert r <= p && order[r] != order[p];
    LastNotBefore(order, p, q, SectionName(x));
  }

  lemma LastNotBefore(order: seq<string>, p: nat, q: nat, s: string)
    requires p < |order| && SectionName(order[p]) == s && s in Precedences(order) && Precedences(order)[s] == q
    ensures p <= q
  {
    hide SectionName;
    var l := LastWith(order, s);
    LastModuleNumbers(order, l);
  }

  /**
   * On an acyclic dependency graph every order that the worklist can give numbers all dependencies below their
   * dependents, if and only if the section of each dependency is less deep than the section of its dependent.
   */
  lemma DependenciesBelowIff(modules: map<string, Module>)
    requires !Cyclic(DependencyEdges(modules))
    ensures (forall order :: Possible(DependencyEdges(modules), order) ==> AllBelow(modules, order))
            <==> SectionsDeepen(modules)
  {
    hide SectionName, Cyclic, IsDepth, SectionDepth, Possible, Below, Precedences;
    var E := DependencyEdges(modules);
    if SectionsDeepen(modules) {
      forall order, m, d | Possible(E, order) && DependsOn(modules, m, d) ensures Below(Precedences(order), d, m) {
        BothAreNodes(modules, m, d);
        var i: nat, j: nat :| SectionDepth(E, SectionName(d), i) && SectionDepth(E, SectionName(m), j) && i < j;
        DeeperIsHigher(E, order, d, m, i, j);
      }
    } else {
      var m, d :| DependsOn(modules, m, d)
                  && !exists i: nat, j: nat ::
                       SectionDepth(E, SectionName(d), i) && SectionDepth(E, SectionName(m), j) && i < j;
      var order := SomeOrderFails(modules, m, d);
      assert !AllBelow(modules, order);
    }
  }

  lemma BothAreNodes(modules: map<string, Module>, m: string, d: string)
    requires DependsOn(modules, m, d)
    ensures d in Nodes(DependencyEdges(modules)) && m in Nodes(DependencyEdges(modules))
  {
    var e := (d, m);
    assert e in DependencyEdges(modules) && e.0 == d && e.1 == m;
  }

  lemma SomeOrderFails(modules: map<string, Module>, m: string, d: string) returns (order: seq<string>)
    requires !Cyclic(DependencyEdges(modules)) && DependsOn(modules, m, d)
    requires !exists i: nat, j: nat ::
               SectionDepth(DependencyEdges(modules), SectionName(d), i)
               && SectionDepth(DependencyEdges(modules), SectionName(m), j) && i < j
    ensures Possible(DependencyEdges(modules), order) && !Below(Precedences(order), d, m)
  {
    hide SectionName, Cyclic, IsDepth, SectionDepth, Possible;
    var E := DependencyEdges(modules);
    BothAreNodes(modules, m, d);
    var rel;
    order, rel := SomeOrder(E, {});
    var p, i := LastInSection(E, order, d);
    var q, j := LastInSection(E, order, m);
    if i > j {
      DeeperIsHigher(E, order, m, d, j, i);
    } else if SectionName(d) != SectionName(m) {
      order := EqualDepthCanFail(E, d, m, i);
    }
  }

  const INVERTED: map<string, Module> :=
    map["a-b" := Module([], []), "a_b" := Module(["d"], []), "c" := Module(["a-b"], []), "d" := Module([], [])]

  lemma InvertedEdges()
    ensures DependencyEdges(INVERTED) == {("d", "a_b"), ("a-b", "c")} && DependsOn(INVERTED, "c", "a-b")
  {
    assert INVERTED["a_b"].deps == ["d"] && INVERTED["c"].deps == ["a-b"];
    assert INVERTED["a-b"].deps == [] && INVERTED["d"].deps == [];
  }

  lemma InvertedOrder(E: set<(string, string)>, order: seq<string>)
    requires E == {("d", "a_b"), ("a-b", "c")} && order == ["a-b", "d", "c", "a_b"]
    ensures Possible(E, order)
  {
    assert Nodes(E) == Elems(order) by {
      assert ("a-b", "c") in E && ("d", "a_b") in E;
    }
    assert order[..1] == ["a-b"] && order[..2] == ["a-b", "d"];
    assert Topsort.FifoOrder(E, order, [-1, -1, 0, 1]);
  }

  /**
   * `a-b` and `a_b` share a section although neither depends on the other: that section takes the number of `a_b`,
   * and `c`, which depends on `a-b`, gets a lower one.
   */
  lemma SharedSectionInverts()
    ensures var order := ["a-b", "d", "c", "a_b"];
            && DependsOn(INVERTED, "c", "a-b") && Possible(DependencyEdges(INVERTED), order)
            && !Below(Precedences(order), "a-b", "c")
  {
    var order := ["a-b", "d", "c", "a_b"];
    InvertedEdges();
    InvertedOrder(DependencyEdges(INVERTED), order);
    hide SectionName, Precedences, DependencyEdges, Possible;
    SharedSectionIff("a-b", "a_b");
    SharedSectionIff("c", "a_b");
    LastModuleNumbers(order, 2);
    LastModuleNumbers(order, 3);
  }

  const HARMLESS: map<string, Module> :=
    map["a-b" := Module([], []), "a_b" := Module([], []), "c" := Module(["a-b", "a_b"], [])]

  lemma HarmlessEdges()
    ensures DependencyEdges(HARMLESS) == {("a-b", "c"), ("a_b", "c")}
  {
    assert HARMLESS["c"].deps == ["a-b", "a_b"] && HARMLESS["a-b"].deps == [] && HARMLESS["a_b"].deps == [];
    assert ["a-b", "a_b"][0] == "a-b" && ["a-b", "a_b"][1] == "a_b";
  }

  lemma HarmlessOrder(E: set<(string, string)>, order: seq<string>)
    requires E == {("a-b", "c"), ("a_b", "c")} && order == ["a-b", "a_b", "c"]
    ensures Possible(E, order)
  {
    assert Nodes(E) == Elems(order) by {
      assert ("a-b", "c") in E && ("a_b", "c") in E;
    }
    assert order[..2] == ["a-b", "a_b"];
    assert Topsort.FifoOrder(E, order, [-1, -1, 1]);
  }

  /** `c` depends on both modules of a shared section, and both are numbered below it. */
  lemma SharedSectionHarmless()
    ensures var order := ["a-b", "a_b", "c"];
            && Possible(DependencyEdges(HARMLESS), order) && !SectionsDistinct(order) && AllBelow(HARMLESS, order)
  {
    var order := ["a-b", "a_b", "c"];
    HarmlessEdges();
    HarmlessOrder(DependencyEdges(HARMLESS), order);
    SharedSectionIff("a-b", "a_b");
    SharedSectionIff("c", "a_b");
    hide SectionName, Precedences, Possible;
    LastModuleNumbers(order, 1);
    LastModuleNumbers(order, 2);
    assert SectionName(order[0]) == SectionName(order[1]);
    forall m, d | DependsOn(HARMLESS, m, d) ensures Below(Precedences(order), d, m) {
      assert (d, m) in DependencyEdges(HARMLESS);
    }
  }

  // ---- shared sections ----

  predicate SameButDashes(a: string, b: string) {
    |a| == |b| && forall i :: 0 <= i < |a| ==> a[i] == b[i] || {a[i], b[i]} <= {'-', '_'}
  }

  /** Two modules share a section exactly when their names differ in '-' and '_' only. */
  lemma SharedSectionIff(a: string, b: string)
    ensures SectionName(a) == SectionName(b) <==> SameButDashes(a, b)
  {
    var prefix, s, t := "ns3_module_", SectionName(a), SectionName(b);
    assert s[|prefix|..] == t[|prefix|..] <==> s == t by {
      assert s == prefix + s[|prefix|..] && t == prefix + t[|prefix|..];
    }
    if SameButDashes(a, b) {
      assert forall i :: 0 <= i < |a| ==> s[|prefix|..][i] == t[|prefix|..][i];
    }
    if s == t {
      forall i | 0 <= i < |a| ensures a[i] == b[i] || {a[i], b[i]} <= {'-', '_'} {
        assert s[|prefix| + i] == t[|prefix| + i];
      }
    }
  }

  /**
   * The numbering fails exactly when modules depend on themselves through others, or else when a dependency is no
   * module. Otherwise the modules that have or are a dependency are numbered in a worklist order, each behind its
   * dependencies, and each header goes to the section of the last module listing it.
   */
  method NumberModules(modules: map<string, Module>) returns (r: Numbering, ghost order: seq<string>)
    ensures r.Cyclical? <==> Cyclic(DependencyEdges(modules))
    ensures r.KeyError? <==> !Cyclic(DependencyEdges(modules)) && !AllAreModules(modules)
    ensures r.Numbered? ==>
              && Possible(DependencyEdges(modules), order)
              && ParentsFirst(DependencyEdges(modules), order)
              && (forall k :: 0 <= k < |order| ==> order[k] in modules)
              && r == Numbered(Precedences(order), HeadersMap(modules, order))
  {
    hide Cyclic, BehindCycle, ParentClosed, Tables, Topsort.FifoOrder, SectionName, NoDup, Precedences, HeadersMap;
    hide ParentsFirst;
    var graph := DependencyPairs(modules);
    ghost var E := DependencyEdges(modules);
    var sorted := Topsort.Topsort(graph);
    order := sorted.answer;
    match sorted
    case CycleError(_, _, _) =>
      r := Cyclical;
    case Sorted(answer) =>
      NobodyIsBehind(E);
      assert Elems(answer) == Nodes(E);
      NodesAreModules(modules);
      r := FillTables(modules, answer);
  }

  /** The loop over the sorted modules. */
  method FillTables(modules: map<string, Module>, order: seq<string>) returns (r: Numbering)
    ensures r.KeyError? <==> exists k :: 0 <= k < |order| && order[k] !in modules
    ensures !r.KeyError? ==> r == Numbered(Precedences(order), HeadersMap(modules, order))
  {
    hide SectionName;
    var precedences: map<string, nat> := map[];
    var headersMap: map<string, string> := map[];
    for prec := 0 to |order|
      invariant forall k :: 0 <= k < prec ==> order[k] in modules
      invariant precedences == Precedences(order[..prec]) && headersMap == HeadersMap(modules, order[..prec])
    {
      assert order[..prec + 1][..prec] == order[..prec] && Last(order[..prec + 1]) == order[prec];
      var sectionName := SectionName(order[prec]);
      if order[prec] !in modules {
        return KeyError;
      }
      var headers := modules[order[prec]].headers;
      for i := 0 to |headers|
        invariant headersMap == WithHeaders(HeadersMap(modules, order[..prec]), headers[..i], sectionName)
      {
        assert headers[..i + 1][..i] == headers[..i];
        headersMap := headersMap[headers[i] := sectionName];
      }
      assert headers[..|headers|] == headers;
      precedences := precedences[sectionName := prec];
    }
    assert order[..|order|] == order;
    r := Numbered(precedences, headersMap);
  }

  lemma NodesAreModules(modules: map<string, Module>)
    ensures AllAreModules(modules) <==> forall x :: x in Nodes(DependencyEdges(modules)) ==> x in modules
  {
    var E := DependencyEdges(modules);
    forall m, d | DependsOn(modules, m, d) ensures d in Nodes(E) {
      assert (d, m) in E && (d, m).0 == d;
    }
    forall x | x in Nodes(E) ensures x in modules || exists m :: DependsOn(modules, m, x) {
      if e :| e in E && e.0 == x {
        assert DependsOn(modules, e.1, x);
      }
    }
  }

  lemma NobodyIsBehind<T(!new)>(E: set<(T, T)>)
    ensures !Cyclic(E) ==> forall x :: !BehindCycle(E, x)
  {
    forall x | BehindCycle(E, x) ensures Cyclic(E) {
      BehindIsCyclic(E, x);
    }
  }
}
