/** The lists of dangerous operations: pointer accesses, and calls that may reach a listed function. */
module DangerousOps {
  import opened Wrappers
  import opened TaintRules
  import opened Indexes

  datatype Operation = Operation(fn: FuncId, loc: FileLine)

  /** A call or invoke: its callee, or what alias analysis lets an indirect one reach. */
  datatype CallSite = Direct(callee: FuncId) | Indirect(targets: set<FuncId>)

  /** op is the function and location of a dangerous instruction of s. */
  ghost predicate Arises(P: Program, s: seq<Value>, dangerous: set<Value>, op: Operation) {
    exists v :: v in s && v in P.insts && v in dangerous && P.insts[v].fn == op.fn && P.insts[v].dbg == Some(op.loc)
  }

  lemma RecordedSnoc(P: Program, s: seq<Value>, dangerous: set<Value>, v: Value)
    requires v in P.insts
    ensures forall op :: (Arises(P, s + [v], dangerous, op)
      <==> Arises(P, s, dangerous, op) || (v in dangerous && P.insts[v].fn == op.fn && P.insts[v].dbg == Some(op.loc)))
  {
  }

  ghost predicate Distinct(ops: seq<Operation>) {
    forall i, j :: 0 <= i < j < |ops| ==> ops[i] != ops[j]
  }

  ghost function Locations(ops: seq<Operation>): set<FileLine> {
    set op | op in ops :: op.loc
  }

  /** The list holds each recorded operation once, and `located` its locations besides the earlier ones. */
  ghost predicate Lists(P: Program, s: seq<Value>, dangerous: set<Value>, ops: seq<Operation>, located: set<FileLine>,
                        earlier: set<FileLine>)
  {
    && Distinct(ops)
    && (forall op :: op in ops <==> Arises(P, s, dangerous, op))
    && located == earlier + Locations(ops)
  }

  lemma ListNothing(P: Program, dangerous: set<Value>, located: set<FileLine>)
    ensures Lists(P, [], dangerous, [], located, located)
  {
  }

  /** One instruction: its operation is put in front when it is dangerous, located and not listed yet. */
  lemma ListOne(P: Program, s: seq<Value>, dangerous: set<Value>, ops: seq<Operation>, located: set<FileLine>,
                earlier: set<FileLine>, v: Value)
    requires Lists(P, s, dangerous, ops, located, earlier) && v in P.insts
    ensures
      var op := if P.insts[v].dbg.Some? then Operation(P.insts[v].fn, P.insts[v].dbg.value) else Operation(0, ("", 0));
      if v in dangerous && P.insts[v].dbg.Some? && op !in ops then
        Lists(P, s + [v], dangerous, [op] + ops, located + {op.loc}, earlier)
      else Lists(P, s + [v], dangerous, ops, located, earlier)
  {
    RecordedSnoc(P, s, dangerous, v);
    if v in dangerous && P.insts[v].dbg.Some? {
      var op := Operation(P.insts[v].fn, P.insts[v].dbg.value);
      assert forall o :: o in [op] + ops <==> o == op || o in ops;
      assert Locations([op] + ops) == Locations(ops) + {op.loc} by {
        forall o | o == op || o in ops ensures o.loc in Locations([op] + ops) { assert o in [op] + ops; }
      }
    }
  }

  class DangerOpLabel {
    const P: Analysable
    const sites: map<Value, CallSite>
    const danFuncs: set<FuncId>
    var ptrOps: seq<Operation>
    var funcOps: seq<Operation>
    /** The keys of the two location maps the taint analysis looks up. */
    var ptrLocs: set<FileLine>
    var funcLocs: set<FileLine>

    constructor (P: Analysable, sites: map<Value, CallSite>, danFuncs: set<FuncId>)
      ensures this.P == P && this.sites == sites && this.danFuncs == danFuncs
      ensures ptrOps == [] && funcOps == [] && ptrLocs == {} && funcLocs == {}
    {
      this.P, this.sites, this.danFuncs := P, sites, danFuncs;
      ptrOps, funcOps, ptrLocs, funcLocs := [], [], {}, {};
    }

    predicate Intrinsic(f: FuncId) {
      f in P.funcs && P.funcs[f].intrinsic
    }

    /** A call to a listed function, intrinsics passed over, or an indirect one that may reach a listed function. */
    predicate MayCallListed(v: Value) {
      v in sites &&
      match sites[v]
      case Direct(f) => !Intrinsic(f) && f in danFuncs
      case Indirect(fs) => exists f :: f in fs && f in danFuncs
    }

    /** v may run the listed function f: it calls f, which is no intrinsic, or may reach it indirectly. */
    ghost predicate MayRun(v: Value, f: FuncId) {
      && v in sites && f in danFuncs
      && (sites[v] == Direct(f) ==> !(f in P.funcs && P.funcs[f].intrinsic))
      && (sites[v] == Direct(f) || (sites[v].Indirect? && f in sites[v].targets))
    }

    lemma MayCallMeans(v: Value)
      ensures MayCallListed(v) <==> exists f :: MayRun(v, f)
    {
      if v in sites && sites[v].Direct? && MayCallListed(v) { assert MayRun(v, sites[v].callee); }
      if v in sites && sites[v].Indirect? {
        if f :| f in sites[v].targets && f in danFuncs { assert MayRun(v, f); }
      }
    }

    ghost function DangerousPtrs(): set<Value> {
      set v | v in P.insts && P.IsKind(v, Gep)
    }

    ghost function DangerousCalls(): set<Value> {
      set v | v in P.insts && !P.IsKind(v, Gep) && exists f :: MayRun(v, f)
    }

    ghost predicate Holds(s: seq<Value>, ptr0: set<FileLine>, func0: set<FileLine>)
      reads this
    {
      && Lists(P, s, DangerousPtrs(), ptrOps, ptrLocs, ptr0)
      && Lists(P, s, DangerousCalls(), funcOps, funcLocs, func0)
    }

    method Visit(v: Value, ghost s: seq<Value>, ghost ptr0: set<FileLine>, ghost func0: set<FileLine>)
      requires Holds(s, ptr0, func0) && v in P.insts
      modifies this
      ensures Holds(s + [v], ptr0, func0)
    {
      MayCallMeans(v);
      ListOne(P, s, DangerousPtrs(), ptrOps, ptrLocs, ptr0, v);
      ListOne(P, s, DangerousCalls(), funcOps, funcLocs, func0, v);
      var dbg := P.insts[v].dbg;
      if dbg.Some? {
        var op := Operation(P.insts[v].fn, dbg.value);
        if P.IsKind(v, Gep) {
          if op !in ptrOps { ptrOps, ptrLocs := [op] + ptrOps, ptrLocs + {op.loc}; }
        } else if MayCallListed(v) {
          if op !in funcOps { funcOps, funcLocs := [op] + funcOps, funcLocs + {op.loc}; }
        }
      }
    }

    method VisitBody(body: seq<Value>, ghost s: seq<Value>, ghost ptr0: set<FileLine>, ghost func0: set<FileLine>)
      requires Holds(s, ptr0, func0) && InProgram(P, body)
      modifies this
      ensures Holds(s + body, ptr0, func0)
    {
      assert s + body[..0] == s;
      for j := 0 to |body|
        invariant Holds(s + body[..j], ptr0, func0)
      {
        var v := body[j];
        assert v in body;
        Visit(v, s + body[..j], ptr0, func0);
        assert s + body[..j + 1] == s + body[..j] + [v];
      }
      assert body[..|body|] == body;
    }

    /** Over the whole module, from cleared lists: each list holds exactly the operations of its dangerous
        instructions, once each, and each location map gains exactly their locations. */
    method FindDangerousOp(order: seq<FuncId>)
      requires forall f :: f in order ==> f in P.funcs
      requires ptrOps == [] && funcOps == []
      modifies this
      ensures Lists(P, Layout(P, order), DangerousPtrs(), ptrOps, ptrLocs, old(ptrLocs))
      ensures Lists(P, Layout(P, order), DangerousCalls(), funcOps, funcLocs, old(funcLocs))
    {
      ghost var ptr0, func0 := ptrLocs, funcLocs;
      ListNothing(P, DangerousPtrs(), ptr0);
      ListNothing(P, DangerousCalls(), func0);
      for i := 0 to |order|
        invariant Holds(Layout(P, order[..i]), ptr0, func0)
      {
        var f := order[i];
        assert f in order && order[..i + 1][..i] == order[..i];
        assert InProgram(P, P.funcs[f].body);
        VisitBody(P.funcs[f].body, Layout(P, order[..i]), ptr0, func0);
      }
      assert order[..|order|] == order;
    }
  }

  /** The line map has instructions for every recorded operation, so looking its location up succeeds. */
  lemma RecordedIsIndexed(P: Program, s: seq<Value>, dangerous: set<Value>, op: Operation,
                          lineMap: map<FileLine, seq<Value>>)
    requires InProgram(P, s) && LineIndexed(P, s, lineMap) && Arises(P, s, dangerous, op)
    ensures op.loc in lineMap && lineMap[op.loc] != []
    ensures forall v :: v in lineMap[op.loc] <==> v in s && P.insts[v].dbg == Some(op.loc)
  {
    AtLineMembers(P, s, op.loc);
    var v :| v in s && v in P.insts && v in dangerous && P.insts[v].fn == op.fn && P.insts[v].dbg == Some(op.loc);
    assert v in AtLine(P, s, op.loc);
  }
}
