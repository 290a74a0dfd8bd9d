/** The records of the walk over the type graph, told by walks from type to type and by the text of their labels. */
module TypeWalks {
  import opened Sequences
  import opened TypeGraph

  // ---- the text of a path ----

  lemma OneItem(item: string)
    ensures PathString([]) == "" && PathString([item]) == "/" + item
  {
    assert [item][..0] == [];
    assert "" + "/" + item == "/" + item;
  }

  /** The items stand in order, each behind its slash. */
  lemma {:induction false} PathConcat(a: seq<string>, b: seq<string>)
    ensures PathString(a + b) == PathString(a) + PathString(b)
    decreases |b|
  {
    if b == [] {
      assert a + b == a;
      assert PathString(a) + "" == PathString(a);
    } else {
      var n := |b| - 1;
      assert (a + b)[..|a| + n] == a + b[..n] && (a + b)[|a| + n] == b[n];
      PathConcat(a, b[..n]);
      assert PathString(a) + PathString(b[..n]) + "/" + b[n] == PathString(a) + (PathString(b[..n]) + "/" + b[n]);
    }
  }

  // ---- from type to type ----

  /**
   * A pointer attribute leads to its type under its name and a container to its items under its name and "/[i]"; a
   * type leads to each registered child, and across an aggregation either way, under "$" and the printed name.
   */
  ghost predicate Leads(g: Graph, t: TypeId, step: string, u: TypeId) {
    || Pointer(step, u) in g.reg.attributes(t)
    || (exists name :: Container(name, u) in g.reg.attributes(t) && step == name + "/[i]")
    || (step == "$" + g.reg.typeLabel(u)
        && ((u in g.reg.registered && g.reg.isChildOf(u, t)) || (t, u) in g.aggregates || (u, t) in g.aggregates))
  }

  lemma {:induction false} AttributeEdgesIff(attributes: seq<Attribute>, step: string, u: TypeId)
    ensures Edge(step, u) in AttributeEdges(attributes)
            <==> || Pointer(step, u) in attributes
                 || exists name :: Container(name, u) in attributes && step == name + "/[i]"
    decreases |attributes|
  {
    if attributes == [] {
    } else {
      var n := |attributes| - 1;
      assert attributes == attributes[..n] + [attributes[n]];
      AttributeEdgesIff(attributes[..n], step, u);
    }
  }

  lemma {:induction false} ChildEdgesIff(reg: Registry, t: TypeId, registered: seq<TypeId>, step: string, u: TypeId)
    ensures Edge(step, u) in ChildEdges(reg, t, registered)
            <==> u in registered && reg.isChildOf(u, t) && step == "$" + reg.typeLabel(u)
    decreases |registered|
  {
    if registered == [] {
    } else {
      var n := |registered| - 1;
      assert registered == registered[..n] + [registered[n]];
      ChildEdgesIff(reg, t, registered[..n], step, u);
    }
  }

  lemma {:induction false} AggregateEdgesIff(reg: Registry, t: TypeId, aggregates: seq<(TypeId, TypeId)>,
                                             step: string, u: TypeId)
    ensures Edge(step, u) in AggregateEdges(reg, t, aggregates)
            <==> ((t, u) in aggregates || (u, t) in aggregates) && step == "$" + reg.typeLabel(u)
    decreases |aggregates|
  {
    if aggregates == [] {
    } else {
      var n := |aggregates| - 1;
      assert aggregates == aggregates[..n] + [aggregates[n]];
      AggregateEdgesIff(reg, t, aggregates[..n], step, u);
    }
  }

  lemma EdgesIff(g: Graph, t: TypeId, step: string, u: TypeId)
    ensures Edge(step, u) in Edges(g, t) <==> Leads(g, t, step, u)
  {
    hide AttributeEdges, ChildEdges, AggregateEdges;
    AttributeEdgesIff(g.reg.attributes(t), step, u);
    ChildEdgesIff(g.reg, t, g.reg.registered, step, u);
    AggregateEdgesIff(g.reg, t, g.aggregates, step, u);
  }

  /** A walk from type to type and its labels. */
  ghost predicate IsLabelledWalk(g: Graph, types: seq<TypeId>, labels: seq<string>) {
    |types| == |labels| + 1 && forall i :: 0 <= i < |labels| ==> Leads(g, types[i], labels[i], types[i + 1])
  }

  lemma {:induction false} PathIsWalk(g: Graph, t: TypeId, p: seq<nat>)
    requires ValidPath(g, t, p)
    ensures IsLabelledWalk(g, Types(g, t, p), Labels(g, t, p))
    ensures Types(g, t, p)[0] == t && Last(Types(g, t, p)) == End(g, t, p)
    decreases |p|
  {
    hide Edges, Leads;
    if p == [] {
    } else {
      var e := Edges(g, t)[p[0]];
      assert e in Edges(g, t) && e == Edge(e.step, e.target);
      EdgesIff(g, t, e.step, e.target);
      PathIsWalk(g, e.target, p[1..]);
    }
  }

  lemma {:induction false} WalkIsPath(g: Graph, types: seq<TypeId>, labels: seq<string>) returns (p: seq<nat>)
    requires IsLabelledWalk(g, types, labels)
    ensures ValidPath(g, types[0], p) && Types(g, types[0], p) == types && Labels(g, types[0], p) == labels
    decreases |labels|
  {
    hide Edges, Leads;
    if labels == [] {
      p := [];
    } else {
      assert Leads(g, types[0], labels[0], types[0 + 1]);
      EdgesIff(g, types[0], labels[0], types[1]);
      var k :| 0 <= k < |Edges(g, types[0])| && Edges(g, types[0])[k] == Edge(labels[0], types[1]);
      forall i | 0 <= i < |labels| - 1 ensures Leads(g, types[1..][i], labels[1..][i], types[1..][i + 1]) {
        assert Leads(g, types[i + 1], labels[i + 1], types[i + 1 + 1]);
      }
      var rest := WalkIsPath(g, types[1..], labels[1..]);
      p := [k] + rest;
      assert p[1..] == rest;
      assert types == [types[0]] + types[1..] && labels == [labels[0]] + labels[1..];
    }
  }

  /** `r` is the last type of a walk from `t` that meets no type twice, and the text of its labels. */
  ghost predicate RecordsWalk(g: Graph, t: TypeId, r: (TypeId, string)) {
    exists types: seq<TypeId>, labels: seq<string> ::
      && IsLabelledWalk(g, types, labels) && NoDup(types)
      && types[0] == t && Last(types) == r.0 && PathString(labels) == r.1
  }

  lemma RecordIsWalk(g: Graph, t: TypeId, p: seq<nat>)
    requires SimplePath(g, t, {}, p)
    ensures RecordsWalk(g, t, RecordOf(g, t, [], p))
  {
    hide Leads, Edges;
    PathIsWalk(g, t, p);
    assert [] + Labels(g, t, p) == Labels(g, t, p);
  }

  lemma WalkIsRecord(g: Graph, t: TypeId, r: (TypeId, string)) returns (p: seq<nat>)
    requires RecordsWalk(g, t, r)
    ensures SimplePath(g, t, {}, p) && RecordOf(g, t, [], p) == r
  {
    hide Leads, Edges, NoDup, PathString;
    var types: seq<TypeId>, labels: seq<string> :|
      && IsLabelledWalk(g, types, labels) && NoDup(types)
      && types[0] == t && Last(types) == r.0 && PathString(labels) == r.1;
    p := WalkIsPath(g, types, labels);
    PathIsWalk(g, t, p);
    assert [] + Labels(g, t, p) == Labels(g, t, p);
  }
}
