/** The final count: dangerous operations that a corrupted branch dominates. */
module FinalCount {
  import opened ControlFlow
  import opened DominatorSets
  import opened TaintRules
  import opened Indexes
  import opened DangerousOps

  function UpTo(s: seq<Value>, x: Value): (r: seq<Value>)
    ensures r <= s
    ensures x in s ==> r != [] && r[|r| - 1] == x && x !in r[..|r| - 1]
    ensures x !in s ==> r == s
  {
    if s == [] then [] else if s[0] == x then [x] else [s[0]] + UpTo(s[1..], x)
  }

  function InBlock(P: Program, s: seq<Value>, b: Block): seq<Value> {
    if s == [] then []
    else (if s[0] in P.insts && P.insts[s[0]].block == b then [s[0]] else []) + InBlock(P, s[1..], b)
  }

  lemma {:induction false} InBlockMembers(P: Program, s: seq<Value>, b: Block)
    ensures forall v :: v in InBlock(P, s, b) <==> v in s && v in P.insts && P.insts[v].block == b
  {
    if s != [] {
      assert s == [s[0]] + s[1..];
      InBlockMembers(P, s[1..], b);
    }
  }

  /** Stopping at x inside its own block is stopping at x in the whole body. */
  lemma {:induction false} StopInBlock(P: Program, s: seq<Value>, x: Value, b: Block)
    requires x in P.insts && P.insts[x].block == b
    ensures UpTo(InBlock(P, s, b), x) == InBlock(P, UpTo(s, x), b)
  {
    if s == [] {
    } else if s[0] == x {
      assert UpTo(s, x)[1..] == [];
    } else {
      StopInBlock(P, s[1..], x, b);
      assert UpTo(s, x) == [s[0]] + UpTo(s[1..], x) && UpTo(s, x)[1..] == UpTo(s[1..], x);
      var rest := InBlock(P, s[1..], b);
      if s[0] in P.insts && P.insts[s[0]].block == b {
        assert InBlock(P, s, b) == [s[0]] + rest && ([s[0]] + rest)[1..] == rest;
      } else {
        assert InBlock(P, s, b) == rest;
      }
    }
  }

  /** v stands in one of these blocks, no later than op when it shares op's block. */
  ghost predicate Before(P: Program, body: seq<Value>, blocks: set<Block>, op: Value, v: Value) {
    && v in body && v in P.insts && op in P.insts && P.insts[v].block in blocks
    && (P.insts[v].block == P.insts[op].block ==> v in UpTo(body, op))
  }

  /** What one dominating block contributes, cut off at the operation. */
  lemma CutOff(P: Program, body: seq<Value>, b: Block, op: Value, v: Value)
    requires op in P.insts
    ensures v in UpTo(InBlock(P, body, b), op) <==> Before(P, body, {b}, op, v)
  {
    InBlockMembers(P, body, b);
    if b == P.insts[op].block {
      StopInBlock(P, body, op, b);
      InBlockMembers(P, UpTo(body, op), b);
      assert v in UpTo(body, op) ==> v in body;
    }
  }

  /** How many entries of the list lie in the set. */
  ghost function CountIn(ops: seq<Operation>, chosen: set<Operation>): nat {
    if ops == [] then 0 else CountIn(ops[..|ops| - 1], chosen) + (if ops[|ops| - 1] in chosen then 1 else 0)
  }

  lemma {:induction false} CountInMonotone(ops: seq<Operation>, s: set<Operation>, t: set<Operation>)
    requires forall op :: op in ops && op in s ==> op in t
    ensures CountIn(ops, s) <= CountIn(ops, t)
  {
    if ops != [] {
      var init, last := ops[..|ops| - 1], ops[|ops| - 1];
      assert ops == init + [last] && last in ops;
      CountInMonotone(init, s, t);
    }
  }

  class Verdict {
    const P: Analysable
    const lineMap: map<FileLine, seq<Value>>
    const cfgs: map<FuncId, Function>
    const preds: map<FuncId, Preds>
    const corrupted: set<Value>
    const ordered: seq<Value>
    /** Dominator sets, computed once per function. */
    var dominatorMap: map<FuncId, Doms>

    constructor (P: Analysable, lineMap: map<FileLine, seq<Value>>, cfgs: map<FuncId, Function>,
                 preds: map<FuncId, Preds>,
                 corrupted: set<Value>, ordered: seq<Value>)
      ensures this.P == P && this.lineMap == lineMap && this.cfgs == cfgs && this.preds == preds
      ensures this.corrupted == corrupted && this.ordered == ordered && dominatorMap == map[]
    {
      this.P, this.lineMap, this.cfgs, this.preds, this.corrupted, this.ordered :=
        P, lineMap, cfgs, preds, corrupted, ordered;
      dominatorMap := map[];
    }

    /** Functions with a body have a control-flow graph, and their instructions stand in its blocks. */
    ghost predicate Placed() {
      forall f :: f in P.funcs && P.funcs[f].body != [] ==> InGraph(f)
    }

    ghost predicate InGraph(f: FuncId)
      requires f in P.funcs
    {
      && f in cfgs && f in preds && cfgs[f].WellFormed() && PredsOf(cfgs[f], preds[f])
      && forall v :: v in P.funcs[f].body ==> v in P.insts && P.insts[v].block in cfgs[f].blocks
    }

    /** Every set in the cache is one that the dominator worklist computes. */
    ghost predicate Cached(cache: map<FuncId, Doms>) {
      forall f :: f in cache ==>
        f in cfgs && f in preds && cfgs[f].WellFormed() && Computed(cfgs[f], preds[f], cache[f])
    }

    /** The lookups for op succeed: the location's first instruction stands in a function with a graph. */
    ghost predicate Resolves(op: Operation) {
      && op.loc in lineMap && lineMap[op.loc] != []
      && var v := lineMap[op.loc][0];
         v in P.insts && P.insts[v].fn in P.funcs && v in P.funcs[P.insts[v].fn].body && InGraph(P.insts[v].fn)
    }

    /** They do for every recorded operation, with the line map of the same module. */
    lemma RecordedResolves(order: seq<FuncId>, dangerous: set<Value>, op: Operation)
      requires Placed() && (forall f :: f in order ==> f in P.funcs) && InProgram(P, Layout(P, order))
      requires LineIndexed(P, Layout(P, order), lineMap) && Arises(P, Layout(P, order), dangerous, op)
      ensures Resolves(op)
    {
      RecordedIsIndexed(P, Layout(P, order), dangerous, op, lineMap);
      var v := lineMap[op.loc][0];
      assert v in lineMap[op.loc];
      LayoutOf(P, order, v);
    }

    ghost function Target(op: Operation): Value
      requires Resolves(op)
    {
      lineMap[op.loc][0]
    }

    /** op lies in the function it was recorded in, and on every path from that function's entry to it
        stands a block with a corrupted branch that comes no later than op. */
    ghost predicate PathVulnerable(op: Operation)
      requires Resolves(op)
    {
      var v := Target(op);
      var f := P.insts[v].fn;
      f == op.fn && exists b :: P.IsKind(b, Branch) && b in corrupted && OnEveryPath(f, v, b)
    }

    ghost predicate OnEveryPath(f: FuncId, v: Value, b: Value)
      requires f in P.funcs && InGraph(f) && v in P.funcs[f].body
    {
      && b in P.funcs[f].body && b in P.insts && cfgs[f].Dominates(P.insts[b].block, P.insts[v].block)
      && (P.insts[b].block == P.insts[v].block ==> b in UpTo(P.funcs[f].body, v))
    }

    /** op is reachable, and no orphan block leads into a reachable block of its function. */
    ghost predicate Regular(op: Operation)
      requires Resolves(op)
    {
      var v := Target(op);
      var f := P.insts[v].fn;
      NoOrphanInto(cfgs[f], preds[f]) && cfgs[f].Reachable(P.insts[v].block)
    }

    ghost predicate Tainted(f: FuncId) {
      exists u :: u in corrupted && u in P.insts && P.insts[u].fn == f
    }

    /** What the code tests: the names match, and a corrupted branch stands among the instructions that
        the computed sets make dominating. Such a branch also makes the function one that holds taint. */
    ghost predicate SetVulnerable(op: Operation, cache: map<FuncId, Doms>)
      requires Resolves(op)
    {
      var v := Target(op);
      var f := P.insts[v].fn;
      && f == op.fn && f in cache && P.insts[v].block in cache[f]
      && exists b ::
        P.IsKind(b, Branch) && b in corrupted && Before(P, P.funcs[f].body, cache[f][P.insts[v].block], v, b)
    }

    /** The cache already holds whatever the verdict on op reads. */
    ghost predicate Decided(op: Operation, cache: map<FuncId, Doms>)
      requires Resolves(op)
    {
      P.insts[Target(op)].fn == op.fn && Tainted(op.fn) ==> op.fn in cache
    }

    ghost predicate Grows(cache: map<FuncId, Doms>, cache': map<FuncId, Doms>) {
      forall f :: f in cache ==> f in cache' && cache'[f] == cache[f]
    }

    ghost predicate AllResolve(ops: seq<Operation>) {
      forall op :: op in ops ==> Resolves(op)
    }

    ghost function SetVulnerables(ops: seq<Operation>, cache: map<FuncId, Doms>): set<Operation>
      requires AllResolve(ops)
    {
      set op | op in ops && SetVulnerable(op, cache)
    }

    ghost function PathVulnerables(ops: seq<Operation>): set<Operation>
      requires AllResolve(ops)
    {
      set op | op in ops && PathVulnerable(op)
    }

    ghost function Regulars(ops: seq<Operation>): set<Operation>
      requires AllResolve(ops)
    {
      set op | op in ops && Regular(op)
    }

    method HasTaintedBranch(list: seq<Value>) returns (flag: bool)
      ensures flag <==> exists v :: v in list && P.IsKind(v, Branch) && v in corrupted
    {
      flag := false;
      for j := 0 to |list|
        invariant flag <==> exists v :: v in list[..j] && P.IsKind(v, Branch) && v in corrupted
      {
        var v := list[j];
        assert list[..j + 1] == list[..j] + [v];
        if P.IsKind(v, Branch) && v in corrupted { flag := true; }
      }
      assert list[..|list|] == list;
    }

    /** Walks the given blocks; the source meets them in the order of a std::set of pointers. */
    method CollectDominating(f: FuncId, blocks: seq<Block>, doms: set<Block>, op: Value)
      returns (flag: bool, subset: seq<Value>)
      requires op in P.insts && f in P.funcs && forall d :: d in doms ==> d in blocks
      ensures forall v :: v in subset <==> Before(P, P.funcs[f].body, doms, op, v)
      ensures flag <==> exists v :: v in subset && P.IsKind(v, Branch) && v in corrupted
    {
      flag, subset := false, [];
      for i := 0 to |blocks|
        invariant forall v :: v in subset <==> Before(P, P.funcs[f].body, doms * (set b | b in blocks[..i]), op, v)
        invariant flag <==> exists v :: v in subset && P.IsKind(v, Branch) && v in corrupted
      {
        var b := blocks[i];
        assert blocks[..i + 1] == blocks[..i] + [b];
        if b in doms {
          var list := UpTo(InBlock(P, P.funcs[f].body, b), op);
          forall v ensures v in list <==> Before(P, P.funcs[f].body, {b}, op, v) {
            CutOff(P, P.funcs[f].body, b, op, v);
          }
          var more := HasTaintedBranch(list);
          flag, subset := flag || more, subset + list;
        }
      }
      assert blocks[..|blocks|] == blocks;
      assert doms * (set b | b in blocks) == doms by {
        forall d | d in doms ensures d in (set b | b in blocks) { assert d in blocks; }
      }
    }

    method GetFeasiblePath(dominating: seq<Value>) returns (feasible: bool)
      ensures feasible <==> exists v :: v in ordered && v in dominating
    {
      for i := 0 to |ordered|
        invariant forall k :: 0 <= k < i ==> ordered[k] !in dominating
      {
        var v := ordered[i];
        assert v in ordered;
        if v in dominating { return true; }
      }
      return false;
    }

    method HoldsTaint(f: FuncId) returns (r: bool)
      requires Elements(ordered) == corrupted
      ensures r <==> Tainted(f)
    {
      for i := 0 to |ordered|
        invariant forall k :: 0 <= k < i ==> !(ordered[k] in P.insts && P.insts[ordered[k]].fn == f)
      {
        var u := ordered[i];
        assert u in Elements(ordered);
        if u in P.insts && P.insts[u].fn == f { return true; }
      }
      assert forall u :: u in corrupted ==> u in Elements(ordered);
      return false;
    }

    method DominatorsOf(f: FuncId) returns (doms: Doms)
      requires f in P.funcs && InGraph(f) && Cached(dominatorMap)
      modifies this`dominatorMap
      ensures Cached(dominatorMap) && Grows(old(dominatorMap), dominatorMap) && f in dominatorMap
      ensures dominatorMap[f] == doms
    {
      hide Computed;
      if f !in dominatorMap {
        var analysis := new DominatorAnalysis();
        analysis.ComputeDominators(cfgs[f], preds[f]);
        dominatorMap := dominatorMap[f := analysis.dominators];
      }
      doms := dominatorMap[f];
    }

    lemma InBody(f: FuncId, b: Value)
      requires f in P.funcs && b in P.funcs[f].body
      ensures b in P.insts && P.insts[b].fn == f
    {
    }

    /** A corrupted branch of the body makes the function a tainted one. */
    lemma BranchTaints(op: Operation, cache: map<FuncId, Doms>)
      requires Resolves(op)
      ensures SetVulnerable(op, cache) || PathVulnerable(op) ==> Tainted(op.fn)
    {
      var v := Target(op);
      var f := P.insts[v].fn;
      forall b | P.IsKind(b, Branch) && b in corrupted && b in P.funcs[f].body ensures Tainted(f) { InBody(f, b); }
    }

    /** A verdict once reached does not depend on what the cache gains later. */
    lemma StaysDecided(op: Operation, cache: map<FuncId, Doms>, cache': map<FuncId, Doms>)
      requires Resolves(op) && Decided(op, cache) && Grows(cache, cache')
      ensures Decided(op, cache') && (SetVulnerable(op, cache) <==> SetVulnerable(op, cache'))
    {
      BranchTaints(op, cache');
    }

    lemma DominatingBranch(f: FuncId, v: Value, doms: Doms)
      requires f in P.funcs && InGraph(f) && v in P.funcs[f].body && Computed(cfgs[f], preds[f], doms)
      ensures forall b :: Before(P, P.funcs[f].body, doms[P.insts[v].block], v, b) ==> OnEveryPath(f, v, b)
      ensures NoOrphanInto(cfgs[f], preds[f]) && cfgs[f].Reachable(P.insts[v].block) ==>
        forall b :: OnEveryPath(f, v, b) ==> Before(P, P.funcs[f].body, doms[P.insts[v].block], v, b)
    {
    }

    /** What the computed sets say along paths. */
    lemma SetsAlongPaths(op: Operation, cache: map<FuncId, Doms>)
      requires Resolves(op) && Cached(cache) && Decided(op, cache)
      ensures SetVulnerable(op, cache) ==> PathVulnerable(op)
      ensures PathVulnerable(op) && Regular(op) ==> SetVulnerable(op, cache)
    {
      var v := Target(op);
      var f := P.insts[v].fn;
      BranchTaints(op, cache);
      if f == op.fn && f in cache { DominatingBranch(f, v, cache[f]); }
    }

    /** One operation, judged exactly by the computed sets. A raised flag is never taken back by the path
        check, because the ordered list holds every corrupted value. */
    method Judge(op: Operation) returns (r: bool)
      requires Resolves(op) && Cached(dominatorMap) && Elements(ordered) == corrupted
      modifies this`dominatorMap
      ensures Cached(dominatorMap) && Grows(old(dominatorMap), dominatorMap) && Decided(op, dominatorMap)
      ensures r <==> SetVulnerable(op, dominatorMap)
    {
      var v := lineMap[op.loc][0];
      var f := P.insts[v].fn;
      var tainted := HoldsTaint(f);
      if !tainted || f != op.fn {
        BranchTaints(op, dominatorMap);
        return false;
      }
      var doms := DominatorsOf(f);
      var flag, subset := CollectDominating(f, cfgs[f].blocks, doms[P.insts[v].block], v);
      if !flag { return false; }
      var feasible := GetFeasiblePath(subset);
      assert feasible by {
        var b :| b in subset && P.IsKind(b, Branch) && b in corrupted;
        assert b in Elements(ordered);
      }
      return feasible;
    }

    /** `counted` holds exactly the vulnerable ones among the operations seen so far. */
    ghost predicate Tallied(seen: seq<Operation>, counted: set<Operation>, cache: map<FuncId, Doms>)
      requires AllResolve(seen)
    {
      && (forall op :: op in counted ==> op in seen)
      && (forall op :: op in seen ==> Decided(op, cache) && (op in counted <==> SetVulnerable(op, cache)))
    }

    lemma TallyOne(seen: seq<Operation>, counted: set<Operation>, cache: map<FuncId, Doms>, cache': map<FuncId, Doms>,
                   op: Operation)
      requires AllResolve(seen + [op]) && AllResolve(seen) && Resolves(op)
      requires Tallied(seen, counted, cache) && Grows(cache, cache') && Decided(op, cache')
      ensures
        var counted' := if SetVulnerable(op, cache') then counted + {op} else counted;
        && Tallied(seen + [op], counted', cache')
        && CountIn(seen + [op], counted') == CountIn(seen, counted) + (if SetVulnerable(op, cache') then 1 else 0)
    {
      forall o | o in seen ensures Decided(o, cache') && (o in counted <==> SetVulnerable(o, cache')) {
        StaysDecided(o, cache, cache');
      }
      var counted' := if SetVulnerable(op, cache') then counted + {op} else counted;
      assert (seen + [op])[..|seen|] == seen;
      CountInMonotone(seen, counted, counted');
      CountInMonotone(seen, counted', counted);
    }

    method JudgeNext(op: Operation, rv: nat, ghost seen: seq<Operation>, ghost counted: set<Operation>)
      returns (rv': nat, ghost counted': set<Operation>)
      requires Cached(dominatorMap) && Elements(ordered) == corrupted && AllResolve(seen + [op]) && AllResolve(seen)
      requires Resolves(op)
      requires Tallied(seen, counted, dominatorMap) && rv == CountIn(seen, counted)
      modifies this`dominatorMap
      ensures Cached(dominatorMap) && Tallied(seen + [op], counted', dominatorMap)
      ensures rv' == CountIn(seen + [op], counted')
    {
      ghost var cache := dominatorMap;
      var vulnerable := Judge(op);
      TallyOne(seen, counted, cache, dominatorMap, op);
      rv' := if vulnerable then rv + 1 else rv;
      counted' := if SetVulnerable(op, dominatorMap) then counted + {op} else counted;
    }

    lemma TallyDone(ops: seq<Operation>, counted: set<Operation>, cache: map<FuncId, Doms>)
      requires AllResolve(ops) && Tallied(ops, counted, cache) && Cached(cache)
      ensures counted == SetVulnerables(ops, cache)
      ensures CountIn(ops, PathVulnerables(ops) * Regulars(ops)) <= CountIn(ops, counted)
      ensures CountIn(ops, counted) <= CountIn(ops, PathVulnerables(ops))
      ensures (forall op :: op in ops ==> Regular(op)) ==> CountIn(ops, counted) == CountIn(ops, PathVulnerables(ops))
    {
      forall op | op in ops
        ensures op in counted ==> op in PathVulnerables(ops)
        ensures op in PathVulnerables(ops) * Regulars(ops) ==> op in counted
      {
        SetsAlongPaths(op, cache);
      }
      CountInMonotone(ops, counted, PathVulnerables(ops));
      CountInMonotone(ops, PathVulnerables(ops) * Regulars(ops), counted);
      if forall op :: op in ops ==> Regular(op) { assert PathVulnerables(ops) * Regulars(ops) == PathVulnerables(ops); }
    }

    method CountAll(ops: seq<Operation>) returns (rv: nat)
      requires AllResolve(ops) && Cached(dominatorMap) && Elements(ordered) == corrupted
      modifies this`dominatorMap
      ensures Cached(dominatorMap) && rv == CountIn(ops, SetVulnerables(ops, dominatorMap))
      ensures CountIn(ops, PathVulnerables(ops) * Regulars(ops)) <= rv <= CountIn(ops, PathVulnerables(ops))
      ensures (forall op :: op in ops ==> Regular(op)) ==> rv == CountIn(ops, PathVulnerables(ops))
    {
      rv := 0;
      ghost var counted: set<Operation> := {};
      for i := 0 to |ops|
        invariant AllResolve(ops[..i]) && Cached(dominatorMap)
        invariant Tallied(ops[..i], counted, dominatorMap) && rv == CountIn(ops[..i], counted)
      {
        var op := ops[i];
        assert op in ops && ops[..i + 1] == ops[..i] + [op];
        rv, counted := JudgeNext(op, rv, ops[..i], counted);
      }
      assert ops[..|ops|] == ops;
      TallyDone(ops, counted, dominatorMap);
    }

    /** The reported number is exactly that of the operations vulnerable by the computed sets. It never
        exceeds the number of operations with a corrupted branch on every path to them, and never falls
        below the number of regular ones among these. */
    method GetDominators(ops: seq<Operation>, ghost order: seq<FuncId>, ghost dangerous: set<Value>) returns (rv: nat)
      requires Placed() && Cached(dominatorMap) && Elements(ordered) == corrupted
      requires (forall f :: f in order ==> f in P.funcs) && InProgram(P, Layout(P, order))
      requires LineIndexed(P, Layout(P, order), lineMap)
      requires forall op :: op in ops ==> Arises(P, Layout(P, order), dangerous, op)
      modifies this`dominatorMap
      ensures Cached(dominatorMap) && AllResolve(ops)
      ensures rv == CountIn(ops, SetVulnerables(ops, dominatorMap))
      ensures CountIn(ops, PathVulnerables(ops) * Regulars(ops)) <= rv <= CountIn(ops, PathVulnerables(ops))
      ensures (forall op :: op in ops ==> Regular(op)) ==> rv == CountIn(ops, PathVulnerables(ops))
    {
      forall op | op in ops ensures Resolves(op) { RecordedResolves(order, dangerous, op); }
      rv := CountAll(ops);
    }
  }
}
