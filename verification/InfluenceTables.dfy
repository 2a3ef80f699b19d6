/** The taint analysis asks finished dependence graphs which branch influences which call. Here those
    answers are collected from the graphs, and its stored branch lists get their meaning along paths. */
module InfluenceTables {
  import opened Wrappers
  import opened ControlFlow
  import opened Chains
  import opened ControlDependence
  import opened DependenceGraph
  import opened TaintRules

  /** Every table lists exactly the influences, as defined by paths, of its function. */
  ghost predicate Faithful(cfgs: map<FuncId, Function>, answers: Answers) {
    forall f :: f in answers ==> f in cfgs && forall a, b :: (a, b) in answers[f] <==> Influences(cfgs[f], a, b)
  }

  lemma InfluencesInside(f: Function, a: Block, b: Block)
    requires Influences(f, a, b)
    ensures a in f.blocks && b in f.blocks
  {
    var p :| Via(ControlRelation(f), p, b, a);
    assert (p[0], p[1]) in ControlRelation(f);
    assert (p[|p| - 2], p[|p| - 2 + 1]) in ControlRelation(f);
  }

  method TabulateBlock(g: Graph, f: Function, a: Block) returns (row: set<(Block, Block)>)
    requires g.Built(f) && f.WellFormed() && a in f.blocks
    ensures forall x, b :: (x, b) in row <==> x == a && b in f.blocks && Influences(f, a, b)
  {
    hide Graph.Built, Influences;
    row := {};
    for j := 0 to |f.blocks|
      invariant forall x, b :: (x, b) in row <==> x == a && b in f.blocks[..j] && Influences(f, a, b)
    {
      var b := f.blocks[j];
      assert b in f.blocks && f.blocks[..j + 1] == f.blocks[..j] + [b];
      g.HasNode(f, b);
      var r := g.Influenced(f, Some(a), Some(b));
      if r { row := row + {(a, b)}; }
    }
    assert f.blocks[..|f.blocks|] == f.blocks;
  }

  /** The answers of one finished graph. */
  method Tabulate(g: Graph, f: Function) returns (table: set<(Block, Block)>)
    requires g.Built(f) && f.WellFormed()
    ensures forall a, b :: (a, b) in table <==> Influences(f, a, b)
  {
    hide Graph.Built, Influences;
    table := {};
    for i := 0 to |f.blocks|
      invariant forall a, b :: (a, b) in table <==> a in f.blocks[..i] && b in f.blocks && Influences(f, a, b)
    {
      assert f.blocks[..i + 1] == f.blocks[..i] + [f.blocks[i]];
      var row := TabulateBlock(g, f, f.blocks[i]);
      table := table + row;
    }
    assert f.blocks[..|f.blocks|] == f.blocks;
    forall a, b | Influences(f, a, b) ensures a in f.blocks && b in f.blocks { InfluencesInside(f, a, b); }
  }

  /** The answers of all graphs there are. */
  method TabulateAll(order: seq<FuncId>, graphs: map<FuncId, Graph>, cfgs: map<FuncId, Function>)
    returns (answers: Answers)
    requires forall f :: f in order <==> f in graphs
    requires forall f :: f in graphs ==> f in cfgs && cfgs[f].WellFormed() && graphs[f].Built(cfgs[f])
    ensures answers.Keys == graphs.Keys && Faithful(cfgs, answers)
  {
    hide Graph.Built, Influences;
    answers := map[];
    for i := 0 to |order|
      invariant forall f :: f in answers <==> f in order[..i]
      invariant Faithful(cfgs, answers)
    {
      var f := order[i];
      assert f in order && order[..i + 1] == order[..i] + [f];
      var table := Tabulate(graphs[f], cfgs[f]);
      answers := answers[f := table];
    }
    assert order[..|order|] == order;
    assert answers.Keys == graphs.Keys by {
      forall f ensures f in answers <==> f in graphs { assert f in order <==> f in graphs; }
    }
  }

  /** A branch influences an instruction of its own function exactly when, along the paths of that function,
      its block influences the instruction's; never without a graph. */
  lemma InfluencedMeans(P: Program, cfgs: map<FuncId, Function>, answers: Answers, b: Value, v: Value)
    requires Faithful(cfgs, answers)
    ensures Influenced(P, answers, b, v) <==>
      && b in P.insts && v in P.insts && P.insts[b].fn == P.insts[v].fn && P.insts[b].fn in answers
      && Influences(cfgs[P.insts[b].fn], P.insts[b].block, P.insts[v].block)
  {
  }

  /** What a stored branch list says after the lists of several seeds: each of its branches is on one of
      them, unless it was listed before, and influences, along the paths of their function, the block of
      a listed call. */
  lemma StoredBranchesInfluence(P: Program, cfgs: map<FuncId, Function>, answers: Answers, brs: seq<Value>,
                                calls: seq<Value>,
                                stored: map<FileLine, seq<Value>>, before: seq<Value>, lists: seq<seq<Value>>,
                                loc: FileLine, b: Value)
    requires Faithful(cfgs, answers) && AllControlling(P, answers, brs, calls, stored) && ListedFrom(before, lists, brs)
    requires loc in stored && b in stored[loc]
    ensures b in before || OnSomeList(lists, b)
    ensures exists c ::
      c in calls && b in P.insts && c in P.insts && P.insts[b].fn == P.insts[c].fn && P.insts[b].fn in cfgs
      && Influences(cfgs[P.insts[b].fn], P.insts[b].block, P.insts[c].block)
  {
    assert Controlling(P, answers, brs, calls, stored[loc]);
    var c :| c in calls && Influenced(P, answers, b, c);
    assert (P.insts[b].block, P.insts[c].block) in answers[P.insts[b].fn];
  }
}
