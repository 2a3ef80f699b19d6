/** The interprocedural taint analysis: a recursive walk over an explicit call stack. */
module Taint {
  import opened Wrappers
  import opened TaintRules
  import opened TaintWalks

  /** Corrupted arguments by operand position. */
  type CorruptedArgs = map<nat, Value>

  class ConAnalysis {
    const P: Analysable
    const influence: Answers
    const danPtrOps: set<FileLine>
    const danFuncOps: set<FileLine>

    var corrupted: set<Value>
    var ordered: seq<Value>
    var ptr: map<Value, seq<GepIndex>>
    var brs: seq<Value>
    var calls: seq<Value>
    var memo: map<FuncId, EnterExit>
    var callStack: seq<(FuncId, Option<Value>)>
    var interPtr: map<FileLine, seq<Value>>
    var interFunc: map<FileLine, seq<Value>>
    var aborted: bool

    ghost var fr: Frames
    /** The branches listed before the current seed. */
    ghost var earlier: set<Value>
    /** The corrupted set at each function's recorded entry and at its last exit. */
    ghost var enterSet: map<FuncId, set<Value>>
    ghost var exitSet: map<FuncId, set<Value>>

    constructor (P: Analysable, influence: Answers, danPtrOps: set<FileLine>, danFuncOps: set<FileLine>)
      ensures this.P == P && this.influence == influence && this.danPtrOps == danPtrOps && this.danFuncOps == danFuncOps
      ensures Inv() && callStack == [] && !aborted
    {
      this.P, this.influence, this.danPtrOps, this.danFuncOps := P, influence, danPtrOps, danFuncOps;
      corrupted, ordered, ptr, brs, calls, memo, callStack := {}, [], map[], [], [], map[], [];
      interPtr, interFunc, aborted := map[], map[], false;
      fr, enterSet, exitSet, earlier := Frames({}, {}), map[], map[], {};
    }

    // ----- what every step keeps

    /** The list, the pointer table, the memo and the branch list fit the corrupted set. */
    ghost predicate Consistent()
      reads this`corrupted, this`ordered, this`ptr, this`fr, this`memo, this`enterSet, this`exitSet, this`brs
      reads this`earlier
    {
      && Enumerates(P, fr, ordered, corrupted, ptr) && Remembers(memo, enterSet, exitSet, corrupted)
      && BranchesListed(P, fr, brs, corrupted, earlier)
    }

    /** Everything a walk needs and keeps. */
    ghost predicate Inv()
      reads this`corrupted, this`ordered, this`ptr, this`fr, this`memo, this`enterSet, this`exitSet
      reads this`brs, this`calls, this`interPtr, this`interFunc, this`earlier
    {
      Consistent() && ListsSites(P, influence, brs, calls, interPtr, interFunc)
    }

    ghost function Where(): Setting {
      Setting(P, influence, danPtrOps, danFuncOps)
    }

    ghost function Now(): Snap
      reads this`corrupted, this`ptr, this`memo, this`brs, this`calls, this`interPtr, this`interFunc
    {
      Snap(corrupted, ptr, memo, brs, calls, interPtr, interFunc)
    }

    ghost function OnStack(): set<FuncId>
      reads this`callStack
    {
      set e | e in callStack :: e.0
    }

    /** add2CrptList. */
    method Add(v: Value)
      requires Consistent() && Justified(P, fr, corrupted, v) && BranchExcused(P, fr, brs, v)
      modifies this`corrupted, this`ordered
      ensures Consistent()
      ensures corrupted == old(corrupted) + {v}
      ensures ordered == if v in old(corrupted) then old(ordered) else old(ordered) + [v]
    {
      if v !in corrupted {
        EnumeratesAppend(P, fr, ordered, corrupted, ptr, v);
        RemembersMore(memo, enterSet, exitSet, corrupted, corrupted + {v});
        BranchesKept(P, fr, brs, corrupted, earlier, v);
        assert v !in ordered by { assert v in ordered ==> v in Elements(ordered); }
        ordered := ordered + [v];
        corrupted := corrupted + {v};
      }
    }

    /** Records the index of the corrupted GEP g under key; aborts when the index has another shape. */
    method RecordIndex(g: Value, key: Value)
      requires Enumerates(P, fr, ordered, corrupted, ptr) && P.IsKind(g, Gep) && g in corrupted
      requires P.Index(g).Some? ==> RecordedUnder(P, fr, key, g)
      modifies this`ptr, this`aborted
      ensures Enumerates(P, fr, ordered, corrupted, ptr)
      ensures aborted <==> old(aborted) || P.Index(g).None?
      ensures ptr == if P.Index(g).Some? then Recording(P, old(ptr), g, key) else old(ptr)
    {
      var idx := P.Index(g);
      if idx.None? {
        aborted := true;
      } else {
        var list := if key in ptr then ptr[key] else [];
        assert Recorded(P, fr, corrupted, key, idx.value);
        ptr := ptr[key := list + [idx.value]];
      }
    }

    // ----- entering a function

    method FindFrame(f: FuncId, ins: Value) returns (k: nat)
      requires f in P.funcs && ins in P.funcs[f].body
      ensures k < |P.funcs[f].body| && P.funcs[f].body[k] == ins && ins !in P.funcs[f].body[..k]
    {
      k := 0;
      while P.funcs[f].body[k] != ins
        invariant k < |P.funcs[f].body| && ins !in P.funcs[f].body[..k]
        decreases |P.funcs[f].body| - k
      {
        assert P.funcs[f].body[..k + 1] == P.funcs[f].body[..k] + [P.funcs[f].body[k]];
        assert P.funcs[f].body[..|P.funcs[f].body|] == P.funcs[f].body;
        k := k + 1;
      }
    }

    /** Starts at a frame instruction: after it when it is a call, else at it, seeding it. */
    method EnterFrame(f: FuncId, ins: Value) returns (start: nat, rv: bool)
      requires Consistent() && f in P.funcs && ins in P.funcs[f].body
      requires P.IsCall(ins) || ins in fr.seeds
      modifies this`corrupted, this`ordered, this`ptr, this`aborted
      ensures Consistent() && old(corrupted) <= corrupted && (old(aborted) ==> aborted)
      ensures rv ==> TaintIn(P, f, corrupted)
      ensures start <= |P.funcs[f].body| && corrupted == old(corrupted) + (if P.IsCall(ins) then {} else {ins})
      ensures P.IsCall(ins) ==>
        start > 0 && P.funcs[f].body[start - 1] == ins && ins !in P.funcs[f].body[..start - 1] && !rv
      ensures !P.IsCall(ins) ==>
        && start < |P.funcs[f].body| && P.funcs[f].body[start] == ins && ins !in P.funcs[f].body[..start]
        && (rv <==> ins !in old(corrupted))
      ensures
        var recorded := P.IsKind(ins, Gep) && ins !in old(corrupted);
        && (aborted <==> old(aborted) || (recorded && P.Index(ins).None?))
        && ptr == if recorded && P.Index(ins).Some? then Recording(P, old(ptr), ins, P.insts[ins].operands[0])
          else old(ptr)
      ensures !aborted ==> Now() == Seeded(P, ins, old(Now()))
    {
      hide Enumerates, Remembers, BranchesListed, ListsSites;
      rv := false;
      start := FindFrame(f, ins);
      assert ins in P.insts && P.insts[ins].fn == f;
      if P.IsCall(ins) {
        start := start + 1;
      } else if ins !in corrupted {
        Add(ins);
        if P.IsKind(ins, Gep) { RecordIndex(ins, P.insts[ins].operands[0]); }
        rv := true;
      }
    }

    method CopyPointers(from: Value, formal: Value, ghost f: FuncId, ghost k: nat, ghost site: Value)
      requires Enumerates(P, fr, ordered, corrupted, ptr) && from in ptr && from in P.insts
      requires Passes(P, site, f, k, from, formal)
      modifies this`ptr
      ensures Enumerates(P, fr, ordered, corrupted, ptr) && ptr == old(ptr)[formal := old(ptr)[from]]
    {
      forall r | r in ptr[from] ensures Recorded(P, fr, corrupted, formal, r) {
        HandedOn(P, fr, corrupted, site, f, k, from, formal, r);
      }
      ptr := ptr[formal := ptr[from]];
    }

    /** One formal: corrupted if its actual is, with the actual's recorded indices handed on. */
    method PassOne(f: FuncId, k: nat, args: CorruptedArgs, ghost site: Value)
      requires Consistent() && f in P.funcs && k < |P.funcs[f].args|
      requires k in args ==>
        P.Calls(site, f) && k < |P.insts[site].operands| && P.insts[site].operands[k] == args[k] && args[k] in P.insts
      modifies this`corrupted, this`ordered, this`ptr
      ensures Consistent()
      ensures corrupted == old(corrupted)
        + (if k in args && args[k] in old(corrupted) then {P.funcs[f].args[k]} else {})
      ensures ptr == if k in args && args[k] in old(ptr) then old(ptr)[P.funcs[f].args[k] := old(ptr)[args[k]]]
        else old(ptr)
    {
      hide Enumerates, Remembers, BranchesListed, ListsSites;
      var formal := P.funcs[f].args[k];
      if k in args {
        assert Passes(P, site, f, k, args[k], formal);
        if args[k] in corrupted && formal !in corrupted { Add(formal); }
        if args[k] in ptr { CopyPointers(args[k], formal, f, k, site); }
      }
    }

    /** Corrupts the formals whose actuals are corrupted; gives up at the first one when nothing is
        left to walk. */
    method PassArguments(f: FuncId, args: CorruptedArgs, atEnd: bool, ghost site: Value) returns (early: bool)
      requires Consistent() && f in P.funcs
      requires forall k :: 0 <= k < |P.funcs[f].args| ==> P.funcs[f].args[k] !in P.insts
      requires forall k :: k in args ==>
        P.Calls(site, f) && k < |P.insts[site].operands| && P.insts[site].operands[k] == args[k] && args[k] in P.insts
      modifies this`corrupted, this`ordered, this`ptr
      ensures Consistent() && old(corrupted) <= corrupted
      ensures early <==> atEnd && exists k :: k in args && k < |P.funcs[f].args|
      ensures !early ==>
        corrupted == old(corrupted) + PassedFormals(P.funcs[f].args, args, old(corrupted), |P.funcs[f].args|)
      ensures !early ==> ptr == PassedPointers(P.funcs[f].args, args, old(ptr), |P.funcs[f].args|)
      ensures early ==> corrupted == old(corrupted) && ptr == old(ptr)
      ensures !early ==> Now() == Passed(P, f, args, old(Now()))
    {
      hide Program.WellFormed, Enumerates, Remembers, BranchesListed, ListsSites;
      var formals := P.funcs[f].args;
      for k := 0 to |formals|
        invariant Consistent()
        invariant corrupted == old(corrupted) + PassedFormals(formals, args, old(corrupted), k)
        invariant ptr == PassedPointers(formals, args, old(ptr), k)
        invariant forall v :: v in P.insts ==> (v in corrupted <==> v in old(corrupted))
        invariant atEnd ==> corrupted == old(corrupted) && ptr == old(ptr) && forall j :: j in args ==> j >= k
      {
        if k in args && atEnd { return true; }
        PassOne(f, k, args, site);
      }
      return false;
    }

    // ----- control dependence

    method InfluencedByLocal(local: seq<Value>, v: Value) returns (r: bool)
      requires v in P.insts && forall b :: b in local ==> b in P.insts
      ensures r <==> InfluencedBySome(P, influence, local, v)
    {
      for i := 0 to |local|
        invariant forall k :: 0 <= k < i ==> !Influenced(P, influence, local[k], v)
      {
        var b := local[i];
        assert b in local;
        if Influenced(P, influence, b, v) { return true; }
      }
      return false;
    }

    /** The corrupted branches that influence some corrupted call of their function. */
    method CtrlDepBranches() returns (list: seq<Value>)
      requires ListsSites(P, influence, brs, calls, interPtr, interFunc)
      ensures NoDuplicates(list)
      ensures forall b :: b in list <==> b in brs && InfluencesSome(P, influence, b, calls)
    {
      list := [];
      for i := 0 to |calls|
        invariant NoDuplicates(list)
        invariant forall b :: b in list <==> b in brs && InfluencesSome(P, influence, b, calls[..i])
      {
        var call := calls[i];
        assert call in calls && calls[..i + 1] == calls[..i] + [call];
        ghost var before := list;
        for j := 0 to |brs|
          invariant NoDuplicates(list)
          invariant forall b :: b in list <==> b in before || (b in brs[..j] && Influenced(P, influence, b, call))
        {
          var br := brs[j];
          assert br in brs && brs[..j + 1] == brs[..j] + [br];
          if Influenced(P, influence, br, call) && br !in list { list := list + [br]; }
        }
        assert brs[..|brs|] == brs;
      }
      assert calls[..|calls|] == calls;
    }

    /** A dangerous operation under cross-function control only is stored with its branches. */
    method NoteDangerous(v: Value, ctrlDep: bool, within: bool)
      requires ListsSites(P, influence, brs, calls, interPtr, interFunc) && v in P.insts
      modifies this`interPtr, this`interFunc
      ensures ListsSites(P, influence, brs, calls, interPtr, interFunc)
      ensures Noted(Where(), ctrlDep && !within, v, old(Now()), Now())
    {
      var loc := P.insts[v].dbg;
      if loc.Some? && ctrlDep && !within {
        if loc.value in danPtrOps {
          var list := CtrlDepBranches();
          assert BranchList(Where(), Now(), list);
          interPtr := interPtr[loc.value := list];
        } else if loc.value in danFuncOps {
          var list := CtrlDepBranches();
          assert BranchList(Where(), Now(), list);
          interFunc := interFunc[loc.value := list];
        }
      }
    }

    // ----- single instructions

    /** The first half of a GEP step: any recorded index equal to its own corrupts it. */
    method MatchIndices(v: Value)
      requires Consistent() && P.IsKind(v, Gep) && |P.insts[v].operands| > 0
      modifies this`corrupted, this`ordered
      ensures Consistent()
      ensures corrupted == old(corrupted) + (if IndexMatched(P, ptr, v) then {v} else {})
    {
      var ops := P.insts[v].operands;
      var idx := P.Index(v);
      if ops[0] in ptr && idx.Some? {
        var list := ptr[ops[0]];
        for i := 0 to |list|
          invariant Consistent()
          invariant corrupted == old(corrupted) + (if idx.value in list[..i] then {v} else {})
        {
          var r := list[i];
          assert r in ptr[ops[0]] && list[..i + 1] == list[..i] + [r];
          if r == idx.value {
            assert Recorded(P, fr, corrupted, ops[0], r);
            ghost var g :| g in corrupted && P.IsKind(g, Gep) && P.Index(g) == Some(r) && RecordedVia(P, fr, ops[0], g);
            SameIndexMeans(P, v, g);
            assert MatchesIndex(P, fr, v, corrupted);
            Add(v);
          }
        }
        assert list[..|list|] == list;
      }
    }

    /** The operand loop of a GEP: the first corrupted operand adds it and records its index, after
        which the rest of the loop has nothing to do. */
    method GepOperands(v: Value)
      requires Consistent() && P.IsKind(v, Gep) && !aborted
      modifies this`corrupted, this`ordered, this`ptr, this`aborted
      ensures Consistent()
      ensures corrupted == old(corrupted) + (if HasOperand(P, v, old(corrupted)) then {v} else {})
      ensures
        var recorded := v !in old(corrupted) && HasOperand(P, v, old(corrupted));
        && (aborted <==> recorded && P.Index(v).None?)
        && ptr == if recorded && P.Index(v).Some? then Recording(P, old(ptr), v, P.insts[v].operands[1]) else old(ptr)
    {
      var found := CorruptedOperand(P, v, corrupted);
      if found && v !in corrupted { AddGep(v); }
    }

    /** A GEP: matched against the indices recorded for its base, then tainted through its operands. */
    method GepStep(v: Value)
      requires Consistent() && P.IsKind(v, Gep) && !aborted
      modifies this`corrupted, this`ordered, this`ptr, this`aborted
      ensures Consistent()
      ensures corrupted == old(corrupted)
        + (if IndexMatched(P, old(ptr), v) || HasOperand(P, v, old(corrupted)) then {v} else {})
      ensures
        var recorded := !IndexMatched(P, old(ptr), v) && v !in old(corrupted) && HasOperand(P, v, old(corrupted));
        && (aborted <==> recorded && P.Index(v).None?)
        && ptr == if recorded && P.Index(v).Some? then Recording(P, old(ptr), v, P.insts[v].operands[1]) else old(ptr)
      ensures !aborted ==> Now() == GepEffect(P, v, old(Now()))
    {
      hide Enumerates, Remembers, BranchesListed, ListsSites;
      MatchIndices(v);
      GepOperands(v);
    }

    method AddGep(v: Value)
      requires Consistent() && P.IsKind(v, Gep) && v !in corrupted && HasOperand(P, v, corrupted)
      modifies this`corrupted, this`ordered, this`ptr, this`aborted
      ensures Consistent() && corrupted == old(corrupted) + {v}
      ensures aborted <==> old(aborted) || P.Index(v).None?
      ensures ptr == if P.Index(v).Some? then Recording(P, old(ptr), v, P.insts[v].operands[1]) else old(ptr)
    {
      hide Program.WellFormed, Enumerates, Remembers, BranchesListed, ListsSites;
      Add(v);
      var ops := P.insts[v].operands;
      RecordIndex(v, if |ops| > 1 then ops[1] else v);
    }

    method ListBranch(v: Value)
      requires ListsSites(P, influence, brs, calls, interPtr, interFunc) && P.IsKind(v, Branch)
      modifies this`brs
      ensures ListsSites(P, influence, brs, calls, interPtr, interFunc)
      ensures brs == if v in old(brs) then old(brs) else old(brs) + [v]
    {
      if v !in brs {
        ControllingGrows(P, influence, brs, calls, brs + [v], calls, interPtr);
        ControllingGrows(P, influence, brs, calls, brs + [v], calls, interFunc);
        brs := brs + [v];
      }
    }

    /** A branch that its condition corrupts is listed as well. */
    method AddBranch(v: Value)
      requires Consistent() && ListsSites(P, influence, brs, calls, interPtr, interFunc)
      requires P.IsKind(v, Branch) && v !in corrupted && Justified(P, fr, corrupted, v)
      modifies this`corrupted, this`ordered, this`brs
      ensures Consistent() && ListsSites(P, influence, brs, calls, interPtr, interFunc)
      ensures corrupted == old(corrupted) + {v} && brs == if v in old(brs) then old(brs) else old(brs) + [v]
    {
      hide Program.WellFormed, Enumerates, Remembers, BranchesListed, ListsSites;
      EnumeratesAppend(P, fr, ordered, corrupted, ptr, v);
      RemembersMore(memo, enterSet, exitSet, corrupted, corrupted + {v});
      BranchesKept(P, fr, brs, corrupted, earlier, v);
      ordered, corrupted := ordered + [v], corrupted + {v};
      ListBranch(v);
    }

    method AddTarget(v: Value)
      requires Consistent() && P.IsKind(v, Store) && v in corrupted && |P.insts[v].operands| > 1
      modifies this`corrupted, this`ordered
      ensures Consistent() && corrupted == old(corrupted) + {P.insts[v].operands[1]}
    {
      assert StoreTarget(P, P.insts[v].operands[1], v);
      OperandExcused(P, fr, brs, v, 1);
      Add(P.insts[v].operands[1]);
    }

    /** Any other instruction: tainted by its first corrupted operand; stores also taint their target. */
    method PlainStep(v: Value, local: seq<Value>) returns (rv: bool, local': seq<Value>)
      requires Consistent() && ListsSites(P, influence, brs, calls, interPtr, interFunc) && v in P.insts && !P.IsCall(v)
      requires !P.IsKind(v, Gep)
      requires P.IsKind(v, Store) ==> |P.insts[v].operands| > 1
      modifies this`corrupted, this`ordered, this`brs
      ensures Consistent() && ListsSites(P, influence, brs, calls, interPtr, interFunc)
      ensures corrupted == PlainEffect(P, old(corrupted), v)
      ensures rv <==> Fresh(P, old(corrupted), v)
      ensures Now() == PlainSnap(P, v, old(Now()))
      ensures local' == if rv && P.IsKind(v, Branch) then local + [v] else local
    {
      hide Program.WellFormed, Enumerates, Remembers, BranchesListed, ListsSites;
      rv, local' := false, local;
      var found := CorruptedOperand(P, v, corrupted);
      if found && v !in corrupted {
        if P.IsKind(v, Branch) {
          AddBranch(v);
          local' := local' + [v];
        } else {
          Add(v);
          if P.IsKind(v, Store) { AddTarget(v); }
        }
        rv := true;
      }
    }

    // ----- calls

    /** The cycle check over the explicit stack. */
    method IsOnStack(f: FuncId) returns (found: bool)
      ensures found <==> f in OnStack()
    {
      for i := 0 to |callStack|
        invariant forall k :: 0 <= k < i ==> callStack[k].0 != f
      {
        if callStack[i].0 == f {
          assert callStack[i] in callStack;
          return true;
        }
      }
      return false;
    }

    /** The enter/exit test. It compares sizes only; a skip still means that the corrupted set is the
        very set of the callee's recorded entry and of its last exit. */
    method EnterCallee(callee: FuncId) returns (skip: bool)
      requires Remembers(memo, enterSet, exitSet, corrupted)
      modifies this`memo, this`enterSet, this`exitSet
      ensures Remembers(memo, enterSet, exitSet, corrupted) && callee in memo
      ensures skip <==> callee in old(memo) && old(memo)[callee] == EnterExit(|corrupted|, |corrupted|)
      ensures skip ==> memo == old(memo) && enterSet == old(enterSet) && exitSet == old(exitSet)
      ensures skip ==> corrupted == enterSet[callee] == exitSet[callee]
      ensures !skip ==> memo == Entered(old(memo), callee, |corrupted|)
      ensures (skip <==> MemoMatches(old(Now()), callee)) && (skip ==> Now() == old(Now()))
      ensures !skip ==>
        Now() == old(Now()).(memo := Entered(old(Now()).memo, callee, |old(Now()).corrupted|))
      ensures !skip && memo != old(memo) ==> enterSet[callee] == corrupted
    {
      if callee in memo {
        var val := memo[callee];
        if val.enterVal == val.exitVal {
          if val.enterVal < |corrupted| {
            memo := memo[callee := val.(enterVal := |corrupted|)];
            enterSet := enterSet[callee := corrupted];
          } else {
            Smaller(enterSet[callee], corrupted);
            SameSizeSameSet(enterSet[callee], corrupted);
            SameSizeSameSet(exitSet[callee], corrupted);
            return true;
          }
        }
      } else {
        memo := memo[callee := EnterExit(|corrupted|, 0)];
        enterSet, exitSet := enterSet[callee := corrupted], exitSet[callee := {}];
      }
      return false;
    }

    /** The operands that carry corruption into a call. */
    method GatherArguments(v: Value) returns (args: CorruptedArgs)
      requires v in P.insts
      ensures Carried(P, v, corrupted, ptr, args)
    {
      args := map[];
      var ops := P.insts[v].operands;
      for i := 0 to |ops|
        invariant forall k: nat :: k in args <==> k < i && ops[k] in P.insts && (ops[k] in corrupted || ops[k] in ptr)
        invariant forall k :: k in args ==> args[k] == ops[k]
      {
        var o := ops[i];
        if o in P.insts && (o in corrupted || o in ptr) { args := args[i := o]; }
      }
    }

    lemma BodylessJustified(v: Value, f: FuncId, args: CorruptedArgs)
      requires Enumerates(P, fr, ordered, corrupted, ptr) && P.Calls(v, f) && f in P.funcs && P.funcs[f].body == []
      requires args != map[]
      requires forall k :: k in args ==>
        k < |P.insts[v].operands| && args[k] == P.insts[v].operands[k] && args[k] in P.insts
          && (args[k] in corrupted || args[k] in ptr)
      ensures BodylessCall(P, fr, v, corrupted)
    {
      var k :| k in args;
      var o := args[k];
      assert o in P.insts[v].operands;
      if o !in corrupted { PointerKey(P, fr, corrupted, ptr, o); }
    }

    method PushCall(v: Value)
      requires ListsSites(P, influence, brs, calls, interPtr, interFunc) && P.IsCall(v)
      modifies this`calls
      ensures ListsSites(P, influence, brs, calls, interPtr, interFunc)
      ensures calls == Listing(old(calls), v)
    {
      if v !in calls {
        ControllingGrows(P, influence, brs, calls, brs, calls + [v], interPtr);
        ControllingGrows(P, influence, brs, calls, brs, calls + [v], interFunc);
        calls := calls + [v];
      }
    }

    /** One call instruction: passed over, absorbed as external, skipped by the enter/exit test, or
        analysed with the callee pushed. */
    method CallStep(v: Value, ctrlDep: bool, within: bool)
      requires Inv() && P.IsCall(v)
      modifies this
      ensures Inv() && fr == old(fr) && earlier == old(earlier)
      ensures old(corrupted) <= corrupted && callStack == old(callStack)
      ensures PassedOver(P, v, old(OnStack())) ==> Now() == old(Now())
      ensures !aborted ==> CallMade(Where(), old(OnStack()), ctrlDep || within, v, old(Now()), Now())
      decreases |P.funcs.Keys - OnStack()|, 2
    {
      hide Enumerates, Remembers, BranchesListed, ListsSites;
      var callee := P.insts[v].kind.callee;
      if callee.None? { return; }
      var f := callee.value;
      if P.funcs[f].intrinsic { return; }
      var cycle := IsOnStack(f);
      if cycle { return; }
      var args := GatherArguments(v);
      EnterOrSkip(v, f, args, ctrlDep || within);
    }

    /** A corrupted argument of a function without body corrupts the call itself. */
    method AbsorbExternal(v: Value, f: FuncId, args: CorruptedArgs)
      requires Consistent() && P.Calls(v, f) && f in P.funcs && P.funcs[f].body == [] && args != map[]
      requires Carried(P, v, corrupted, ptr, args)
      modifies this`corrupted, this`ordered
      ensures Consistent() && corrupted == old(corrupted) + {v}
      ensures Now() == old(Now()).(corrupted := old(Now()).corrupted + {v})
    {
      BodylessJustified(v, f, args);
      Add(v);
    }

    method EnterOrSkip(v: Value, f: FuncId, args: CorruptedArgs, flag: bool)
      requires Inv() && P.Calls(v, f) && f in P.funcs && f !in OnStack()
      requires Carried(P, v, corrupted, ptr, args)
      modifies this
      ensures Inv() && fr == old(fr) && earlier == old(earlier)
      ensures old(corrupted) <= corrupted && callStack == old(callStack)
      ensures !aborted ==> CallWith(Where(), old(OnStack()), flag, v, f, args, old(Now()), Now())
      decreases |P.funcs.Keys - OnStack()|, 1, 0
    {
      hide Program.WellFormed, Enumerates, Remembers, BranchesListed, ListsSites, Now, MemoMatches, Entered, CallTrace;
      if P.funcs[f].body == [] && args != map[] {
        AbsorbExternal(v, f, args);
        return;
      }
      ghost var s := Now();
      var skip := EnterCallee(f);
      if !skip { AnalyseCallee(v, f, args, flag, s); }
    }

    lemma StackPushed(stack: seq<(FuncId, Option<Value>)>, f: FuncId)
      requires callStack == [(f, None)] + stack
      ensures OnStack() == (set e | e in stack :: e.0) + {f}
    {
    }

    method PushCallee(v: Value, f: FuncId, flag: bool)
      requires Inv() && P.IsCall(v) && f in P.funcs && f !in OnStack()
      modifies this`callStack, this`calls
      ensures Inv() && callStack == [(f, None)] + old(callStack)
      ensures |P.funcs.Keys - OnStack()| < old(|P.funcs.Keys - OnStack()|)
      ensures OnStack() == old(OnStack()) + {f}
      ensures Now() == old(Now()).(calls := if flag then Listing(old(Now()).calls, v) else old(Now()).calls)
    {
      hide Program.WellFormed, Enumerates, Remembers, BranchesListed, ListsSites;
      PushShrinks(P.funcs.Keys, OnStack(), f);
      ghost var stack := callStack;
      callStack := [(f, None)] + callStack;
      StackPushed(stack, f);
      if flag { PushCall(v); }
    }

    method CorruptCall(v: Value, f: FuncId)
      requires Consistent() && P.Calls(v, f) && TaintIn(P, f, corrupted)
      modifies this`corrupted, this`ordered
      ensures Consistent() && corrupted == old(corrupted) + {v}
    {
      assert CalleeReturn(P, v, corrupted);
      Add(v);
    }

    method LeaveCallee(f: FuncId)
      requires Remembers(memo, enterSet, exitSet, corrupted)
      modifies this`memo, this`exitSet, this`enterSet
      ensures Remembers(memo, enterSet, exitSet, corrupted) && memo == Left(old(memo), f, |corrupted|)
      ensures f in exitSet && exitSet[f] == corrupted
    {
      var enterVal := if f in memo then memo[f].enterVal else 0;
      if f !in memo { enterSet := enterSet[f := {}]; }
      memo := memo[f := EnterExit(enterVal, |corrupted|)];
      exitSet := exitSet[f := corrupted];
    }

    method Settle(v: Value, f: FuncId, addFuncRet: bool)
      requires Consistent() && P.Calls(v, f) && (addFuncRet ==> TaintIn(P, f, corrupted))
      modifies this`corrupted, this`ordered, this`memo, this`enterSet, this`exitSet
      ensures Consistent() && corrupted == old(corrupted) + (if addFuncRet then {v} else {})
      ensures memo == Left(old(memo), f, |corrupted|) && f in exitSet && exitSet[f] == corrupted
    {
      hide Program.WellFormed, Enumerates, Remembers, BranchesListed, ListsSites;
      if addFuncRet { CorruptCall(v, f); }
      LeaveCallee(f);
    }

    /** Corrupts the call when its callee says so, records the exit, and pops. */
    method PopCallee(v: Value, f: FuncId, addFuncRet: bool)
      requires Inv() && P.Calls(v, f) && (addFuncRet ==> TaintIn(P, f, corrupted)) && callStack != []
      modifies this`corrupted, this`ordered, this`callStack, this`memo, this`enterSet, this`exitSet
      ensures Inv() && callStack == old(callStack)[1..]
      ensures corrupted == old(corrupted) + (if addFuncRet then {v} else {})
      ensures Now() == Leaving(v, f, addFuncRet, old(Now())) && f in exitSet && exitSet[f] == corrupted
    {
      hide Program.WellFormed, Enumerates, Remembers, BranchesListed, ListsSites;
      callStack := callStack[1..];
      Settle(v, f, addFuncRet);
    }

    /** Pushes f, analyses it, takes over its verdict, and pops it again. */
    method AnalyseCallee(v: Value, f: FuncId, args: CorruptedArgs, flag: bool, ghost s: Snap)
      requires Inv() && P.Calls(v, f) && f in P.funcs && f !in OnStack()
      requires forall k :: k in args ==>
        k < |P.insts[v].operands| && P.insts[v].operands[k] == args[k] && args[k] in P.insts
      requires P.funcs[f].body == [] ==> args == map[]
      requires Now() == s.(memo := Entered(s.memo, f, |s.corrupted|))
      modifies this
      ensures Inv() && fr == old(fr) && earlier == old(earlier)
      ensures old(corrupted) <= corrupted && callStack == old(callStack)
      ensures f in exitSet && exitSet[f] == corrupted
      ensures !aborted ==> exists trace :: CallTrace(Where(), old(OnStack()), flag, v, f, args, s, Now(), trace)
      decreases |P.funcs.Keys - OnStack()|, 0
    {
      hide Program.WellFormed, Enumerates, Remembers, BranchesListed, ListsSites;
      hide Walked, EntryWalk, CallTrace, Entered, Leaving, Listing, Now, Inv, OnStack, TaintIn;
      ghost var onStack := OnStack();
      PushCallee(v, f, flag);
      ghost var pushed := Now();
      var addFuncRet;
      ghost var trace;
      addFuncRet, trace := IntraDataflow(f, None, args, flag, v);
      ghost var last := Now();
      PopCallee(v, f, addFuncRet);
      if !aborted { CalleeTraced(Where(), onStack, flag, v, f, args, s, pushed, trace, last, addFuncRet); }
    }

    // ----- the function walk

    /** The control-dependence part of a step. */
    method Inspect(v: Value, local: seq<Value>, ctrlDep: bool) returns (influenced: bool)
      requires ListsSites(P, influence, brs, calls, interPtr, interFunc) && v in P.insts
      requires forall b :: b in local ==> b in P.insts
      modifies this`interPtr, this`interFunc
      ensures ListsSites(P, influence, brs, calls, interPtr, interFunc)
      ensures influenced <==> InfluencedBySome(P, influence, local, v)
      ensures Noted(Where(), ctrlDep && !influenced, v, old(Now()), Now())
    {
      influenced := InfluencedByLocal(local, v);
      NoteDangerous(v, ctrlDep, influenced);
    }

    /** A GEP or plain instruction. */
    method DataStep(v: Value, local: seq<Value>) returns (tainted: bool, local': seq<Value>)
      requires Inv() && v in P.insts && !P.IsCall(v) && !aborted
      modifies this`corrupted, this`ordered, this`ptr, this`brs, this`aborted
      ensures Inv() && old(corrupted) <= corrupted
      ensures !aborted ==>
        Now() == if P.IsKind(v, Gep) then GepEffect(P, v, old(Now())) else PlainSnap(P, v, old(Now()))
      ensures (tainted <==> Fresh(P, old(corrupted), v)) && (tainted ==> v in corrupted)
      ensures local' == if tainted && P.IsKind(v, Branch) then local + [v] else local
    {
      hide Enumerates, Remembers, BranchesListed, ListsSites;
      tainted, local' := false, local;
      if P.IsKind(v, Gep) {
        GepStep(v);
      } else {
        tainted, local' := PlainStep(v, local);
      }
    }

    /** One instruction of the forward walk. */
    method StepInstruction(v: Value, local: seq<Value>, ctrlDep: bool) returns (tainted: bool, local': seq<Value>)
      requires Inv() && v in P.insts && !aborted && forall b :: b in local ==> b in P.insts
      modifies this
      ensures Inv() && fr == old(fr) && earlier == old(earlier)
      ensures old(corrupted) <= corrupted && callStack == old(callStack)
      ensures !aborted ==>
        Stepped(Where(), old(OnStack()), ctrlDep, InfluencedBySome(P, influence, local, v), v, old(Now()), Now())
      ensures (tainted <==> Fresh(P, old(corrupted), v)) && (tainted ==> v in corrupted)
      ensures local' == if tainted && P.IsKind(v, Branch) then local + [v] else local
      decreases |P.funcs.Keys - OnStack()|, 3, 1
    {
      hide Program.WellFormed, Enumerates, Remembers, BranchesListed, ListsSites, InfluencedBySome, HasOperand;
      hide Noted, CallMade, GepEffect, PlainSnap, Now;
      ghost var onStack := OnStack();
      var influenced := Inspect(v, local, ctrlDep);
      ghost var noted := Now();
      if P.IsCall(v) {
        CallStep(v, ctrlDep, influenced);
        tainted, local' := false, local;
      } else {
        tainted, local' := DataStep(v, local);
      }
      if !aborted {
        assert Acted(Where(), onStack, ctrlDep || influenced, v, noted, Now());
        assert NotedThenActed(Where(), onStack, ctrlDep && !influenced, ctrlDep || influenced, v, old(Now()), Now());
      }
    }

    lemma FormalsAreNoInstructions(f: FuncId)
      requires f in P.funcs
      ensures forall k :: 0 <= k < |P.funcs[f].args| ==> P.funcs[f].args[k] !in P.insts
    {
      forall k | 0 <= k < |P.funcs[f].args| ensures P.funcs[f].args[k] !in P.insts {
        var a := P.funcs[f].args[k];
        assert a in P.funcs[f].args;
      }
    }

    /** What comes before the walk: the frame instruction, then the formals. */
    method Begin(f: FuncId, ins: Option<Value>, args: CorruptedArgs, ghost site: Value)
      returns (i: nat, rv: bool, early: bool)
      requires Consistent() && f in P.funcs
      requires ins.Some? ==> ins.value in P.funcs[f].body && (P.IsCall(ins.value) || ins.value in fr.seeds)
      requires forall k :: k in args ==>
        P.Calls(site, f) && k < |P.insts[site].operands| && P.insts[site].operands[k] == args[k] && args[k] in P.insts
      modifies this`corrupted, this`ordered, this`ptr, this`aborted
      ensures Consistent() && old(corrupted) <= corrupted && i <= |P.funcs[f].body| && (rv ==> TaintIn(P, f, corrupted))
      ensures early ==> i == |P.funcs[f].body| && args != map[]
      ensures ins.None? ==> i == 0 && !rv && aborted == old(aborted)
      ensures ins.Some? && !P.IsCall(ins.value) ==> ins.value in corrupted && (ins.value !in old(corrupted) ==> rv)
      ensures ins.Some? ==>
        var body, p := P.funcs[f].body, if P.IsCall(ins.value) then i - 1 else i;
        && 0 <= p < |body| && body[p] == ins.value && ins.value !in body[..p]
        && (rv <==> !P.IsCall(ins.value) && ins.value !in old(Now()).corrupted)
      ensures !early && !aborted ==>
        Now() == Passed(P, f, args, if ins.Some? then Seeded(P, ins.value, old(Now())) else old(Now()))
    {
      hide Program.WellFormed, Enumerates, Remembers, BranchesListed, ListsSites, Seeded, Passed;
      i, rv := 0, false;
      FormalsAreNoInstructions(f);
      if ins.Some? { i, rv := EnterFrame(f, ins.value); }
      ghost var entered := corrupted;
      early := PassArguments(f, args, i == |P.funcs[f].body|, site);
      if rv { TaintInGrows(P, f, entered, corrupted); }
    }

    method WalkOne(f: FuncId, i: nat, ghost start: nat, local: seq<Value>, ctrlDep: bool, rv: bool,
                   ghost trace: seq<Snap>)
      returns (rv': bool, local': seq<Value>, ghost trace': seq<Snap>)
      requires Inv() && f in P.funcs && start <= i < |P.funcs[f].body| && !aborted
      requires (forall b :: b in local ==> b in P.insts) && (rv ==> TaintIn(P, f, corrupted))
      requires WalkState(Where(), OnStack(), ctrlDep, P.funcs[f].body[start..], trace, i - start, local, rv, Now())
      modifies this
      ensures Inv() && fr == old(fr) && earlier == old(earlier)
      ensures old(corrupted) <= corrupted && callStack == old(callStack)
      ensures (forall b :: b in local' ==> b in P.insts) && (rv' ==> TaintIn(P, f, corrupted))
      ensures trace' == trace + [Now()]
      ensures !aborted ==>
        WalkState(Where(), OnStack(), ctrlDep, P.funcs[f].body[start..], trace', i - start + 1, local', rv', Now())
      decreases |P.funcs.Keys - OnStack()|, 4
    {
      hide Enumerates, Remembers, BranchesListed, ListsSites, Stepped, Walked, InfluencedBySome, WalkState;
      var v := P.funcs[f].body[i];
      ghost var onStack, before, now := OnStack(), corrupted, Now();
      assert v == P.funcs[f].body[start..][i - start];
      var tainted;
      tainted, local' := StepInstruction(v, local, ctrlDep);
      trace' := trace + [Now()];
      if rv { TaintInGrows(P, f, before, corrupted); }
      rv' := rv || tainted;
      if !aborted {
        WalkStateStep(Where(), onStack, ctrlDep, P.funcs[f].body[start..], trace, i - start, local, rv, now, tainted,
                      local', Now());
      }
    }

    /** The forward walk from `start`, with the state before and after each instruction. It is positive
        exactly when some plain instruction was corrupted by its operands. */
    method WalkBody(f: FuncId, start: nat, ctrlDep: bool) returns (rv: bool, ghost trace: seq<Snap>)
      requires Inv() && f in P.funcs && start <= |P.funcs[f].body|
      modifies this
      ensures Inv() && fr == old(fr) && earlier == old(earlier) && (old(aborted) ==> aborted)
      ensures old(corrupted) <= corrupted && callStack == old(callStack)
      ensures rv ==> TaintIn(P, f, corrupted)
      ensures !aborted ==>
        var body := P.funcs[f].body[start..];
        && Walked(Where(), old(OnStack()), ctrlDep, body, trace, |body|)
        && trace[0] == old(Now()) && trace[|body|] == Now()
        && (rv <==> AnyFresh(P, body, trace, |body|))
        && FormalsFollowed(P, old(OnStack()), body, trace)
      decreases |P.funcs.Keys - OnStack()|, 5
    {
      hide Program.WellFormed, Enumerates, Remembers, BranchesListed, ListsSites, Stepped, FormalsFollowed;
      rv, trace := false, [Now()];
      var i := start;
      var local: seq<Value> := [];
      ghost var body := P.funcs[f].body[start..];
      while i < |P.funcs[f].body| && !aborted
        invariant start <= i <= |P.funcs[f].body| && Inv() && fr == old(fr) && earlier == old(earlier)
        invariant old(corrupted) <= corrupted && callStack == old(callStack) && (old(aborted) ==> aborted)
        invariant forall b :: b in local ==> b in P.insts
        invariant rv ==> TaintIn(P, f, corrupted)
        invariant |trace| > 0 && trace[0] == old(Now())
        invariant !aborted ==> WalkState(Where(), old(OnStack()), ctrlDep, body, trace, i - start, local, rv, Now())
        decreases |P.funcs[f].body| - i
      {
        rv, local, trace := WalkOne(f, i, start, local, ctrlDep, rv, trace);
        i := i + 1;
      }
      if !aborted { AllFormalsFollowed(Where(), old(OnStack()), ctrlDep, body, trace); }
    }

    /** intraDataflowAnalysis. A positive result means corruption inside f, or corrupted arguments
        with nothing of f left to walk. From a callee's start the walk begins with the arguments passed to
        the formals, and the result says whether it corrupted a plain instruction; from a frame
        instruction it begins there, and a seed that was clean counts as well. Either way the formal of every
        called, unskipped function is corrupted whenever its actual is. */
    method IntraDataflow(f: FuncId, ins: Option<Value>, args: CorruptedArgs, ctrlDep: bool, ghost site: Value)
      returns (rv: bool, ghost trace: seq<Snap>)
      requires Inv() && f in P.funcs
      requires ins.Some? ==> ins.value in P.funcs[f].body && (P.IsCall(ins.value) || ins.value in fr.seeds)
      requires forall k :: k in args ==>
        P.Calls(site, f) && k < |P.insts[site].operands| && P.insts[site].operands[k] == args[k] && args[k] in P.insts
      modifies this
      ensures Inv() && fr == old(fr) && earlier == old(earlier)
      ensures old(corrupted) <= corrupted && callStack == old(callStack)
      ensures rv ==> TaintIn(P, f, corrupted) || (args != map[] && (ins.None? ==> P.funcs[f].body == []))
      ensures ins.Some? && !P.IsCall(ins.value) ==> ins.value in corrupted && (ins.value !in old(corrupted) ==> rv)
      ensures ins.None? && !aborted && (P.funcs[f].body == [] ==> args == map[]) ==>
        EntryWalk(Where(), old(OnStack()), ctrlDep, f, args, old(Now()), trace, Now(), rv)
        && FormalsFollowed(P, old(OnStack()), P.funcs[f].body, trace)
      ensures ins.Some? && !aborted && args == map[] ==>
        exists p :: FrameEnded(Where(), old(OnStack()), ctrlDep, f, ins.value, old(Now()), p, trace, Now(), rv)
      decreases |P.funcs.Keys - OnStack()|, 6
    {
      hide Program.WellFormed, Enumerates, Remembers, BranchesListed, ListsSites, Walked, AnyFresh, Seeded;
      hide Now, Passed, FormalsFollowed;
      ghost var onStack := OnStack();
      var i, early;
      i, rv, early := Begin(f, ins, args, site);
      if early { return true, []; }
      ghost var begun, seeded := corrupted, rv;
      var walked;
      walked, trace := WalkBody(f, i, ctrlDep);
      if rv { TaintInGrows(P, f, begun, corrupted); }
      rv := rv || walked;
      assert P.funcs[f].body[0..] == P.funcs[f].body;
      if ins.Some? && !aborted && args == map[] {
        FrameWalked(Where(), onStack, ctrlDep, f, ins.value, old(Now()), i, seeded, trace, walked, Now(), rv);
      }
    }

    // ----- getCorruptedIRs

    ghost predicate FrameList(frames: seq<(FuncId, Value)>) {
      forall k :: 0 <= k < |frames| ==> frames[k].0 in P.funcs && frames[k].1 in P.funcs[frames[k].0].body
    }

    ghost function FramesOf(frames: seq<(FuncId, Value)>): Frames {
      Frames(set k | 0 <= k < |frames| && !P.IsCall(frames[k].1) :: frames[k].1,
             set k | 0 <= k < |frames| - 1 :: (frames[k + 1].1, frames[k].0))
    }

    function StackOf(frames: seq<(FuncId, Value)>): seq<(FuncId, Option<Value>)> {
      seq(|frames|, k requires 0 <= k < |frames| => (frames[k].0, Some(frames[k].1)))
    }

    method ClearTables()
      modifies this`ordered, this`corrupted, this`ptr, this`memo, this`enterSet, this`exitSet
      ensures ordered == [] && corrupted == {} && ptr == map[] && memo == map[] && enterSet == map[] && exitSet == map[]
    {
      ordered, corrupted, ptr, memo := [], {}, map[], map[];
      enterSet, exitSet := map[], map[];
    }

    method Reset(frames: seq<(FuncId, Value)>)
      requires FrameList(frames)
      modifies this`callStack, this`ordered, this`corrupted, this`ptr, this`memo, this`enterSet, this`exitSet, this`fr
      modifies this`earlier
      ensures Consistent() && fr == FramesOf(frames) && corrupted == {} && earlier == Elements(brs)
      ensures callStack == StackOf(frames) && Now() == Cleared(old(Now()))
    {
      hide Program.WellFormed, Enumerates, Remembers, BranchesListed, ListsSites, FramesOf, FrameList, Elements;
      ClearTables();
      callStack := StackOf(frames);
      fr, earlier := FramesOf(frames), Elements(brs);
      NothingYet(P, fr, brs);
    }

    /** The stack holds the frames from number k outward. */
    ghost predicate Aligned(frames: seq<(FuncId, Value)>, k: nat, stack: seq<(FuncId, Option<Value>)>)
    {
      && k + |stack| == |frames|
      && forall j :: 0 <= j < |stack| ==> stack[j] == (frames[k + j].0, Some(frames[k + j].1))
    }

    lemma FrameFacts(frames: seq<(FuncId, Value)>, k: nat)
      requires k < |frames|
      ensures !P.IsCall(frames[k].1) ==> frames[k].1 in FramesOf(frames).seeds
      ensures k + 1 < |frames| ==> (frames[k + 1].1, frames[k].0) in FramesOf(frames).resumes
    {
    }

    lemma AlignedNext(frames: seq<(FuncId, Value)>, k: nat, stack: seq<(FuncId, Option<Value>)>)
      requires Aligned(frames, k, stack) && stack != []
      ensures k < |frames| && stack[0] == (frames[k].0, Some(frames[k].1))
      ensures Aligned(frames, k + 1, stack[1..]) && |stack[1..]| == |stack| - 1
      ensures |stack| > 1 ==> k + 1 < |frames| && stack[1..][0] == (frames[k + 1].0, Some(frames[k + 1].1))
      ensures |stack| == 1 ==> k + 1 == |frames|
    {
    }

    /** The caller's frame instruction v is corrupted by the frame of f, just popped. */
    method Resume(v: Value, ghost f: FuncId)
      requires Consistent() && (v, f) in fr.resumes && TaintIn(P, f, corrupted) && (!P.IsCall(v) ==> v in fr.seeds)
      modifies this`corrupted, this`ordered
      ensures Consistent() && corrupted == old(corrupted) + {v}
    {
      hide Program.WellFormed, Enumerates, Remembers, BranchesListed, ListsSites;
      assert FrameReturn(P, fr, v, corrupted);
      Add(v);
    }

    /** Walks the frame on top of the stack and pops it. */
    method WalkFrame(ghost f: FuncId, ghost ins: Value) returns (addFuncRet: bool)
      requires Inv() && callStack != [] && callStack[0] == (f, Some(ins))
      requires f in P.funcs && ins in P.funcs[f].body && (P.IsCall(ins) || ins in fr.seeds)
      modifies this
      ensures Inv() && fr == old(fr) && earlier == old(earlier) && old(corrupted) <= corrupted
      ensures callStack == old(callStack)[1..]
      ensures addFuncRet ==> TaintIn(P, f, corrupted)
      ensures !P.IsCall(ins) ==> ins in corrupted && (ins !in old(corrupted) ==> addFuncRet)
      ensures !aborted ==> exists p, trace ::
        FrameEnded(Where(), old(OnStack()), false, f, ins, old(Now()), p, trace, Now(), addFuncRet)
    {
      hide Program.WellFormed, Enumerates, Remembers, BranchesListed, ListsSites, FrameEnded;
      var loc := callStack[0];
      ghost var onStack := OnStack();
      ghost var trace;
      addFuncRet, trace := IntraDataflow(loc.0, loc.1, map[], false, 0);
      callStack := callStack[1..];
      if !aborted {
        ghost var p: nat :| FrameEnded(Where(), onStack, false, f, ins, old(Now()), p, trace, Now(), addFuncRet);
        assert FrameEnded(Where(), onStack, false, f, ins, old(Now()), p, trace, Now(), addFuncRet);
      }
    }

    lemma StackAligned(frames: seq<(FuncId, Value)>, k: nat)
      requires Aligned(frames, k, callStack)
      ensures OnStack() == StackFrom(frames, k)
    {
      forall f ensures f in OnStack() <==> f in StackFrom(frames, k) {
        if f in OnStack() {
          var j :| 0 <= j < |callStack| && callStack[j].0 == f;
          assert frames[k + j].0 == f;
        }
        if f in StackFrom(frames, k) {
          var j :| k <= j < |frames| && frames[j].0 == f;
          var e := callStack[j - k];
          assert e in callStack;
        }
      }
    }

    method ReplayFrame(ghost frames: seq<(FuncId, Value)>, ghost k: nat)
      requires Inv() && FrameList(frames) && fr == FramesOf(frames) && Aligned(frames, k, callStack) && callStack != []
      modifies this
      ensures Inv() && fr == old(fr) && earlier == old(earlier) && Aligned(frames, k + 1, callStack)
      ensures |callStack| == |old(callStack)| - 1
      ensures !aborted ==> FrameDone(Where(), frames, k, old(Now()), Now())
    {
      hide Program.WellFormed, Enumerates, Remembers, BranchesListed, ListsSites, FrameWalk, FramePositive;
      StackAligned(frames, k);
      AlignedNext(frames, k, callStack);
      FrameFacts(frames, k);
      if k + 1 < |frames| { FrameFacts(frames, k + 1); }
      var addFuncRet := WalkFrame(frames[k].0, frames[k].1);
      ghost var last := Now();
      if addFuncRet && callStack != [] { Resume(callStack[0].1.value, frames[k].0); }
      if !aborted {
        ghost var p: nat, trace: seq<Snap> :|
          FrameEnded(Where(), StackFrom(frames, k), false, frames[k].0, frames[k].1, old(Now()), p, trace, last,
            addFuncRet);
        assert FrameTrace(Where(), frames, k, old(Now()), Now(), p, trace);
      }
    }

    /** The frames one by one, outward, until the stack is empty. */
    method ReplayFrames(ghost frames: seq<(FuncId, Value)>) returns (ghost snaps: seq<Snap>)
      requires Inv() && FrameList(frames) && fr == FramesOf(frames) && Aligned(frames, 0, callStack) && !aborted
      modifies this
      ensures Inv() && fr == old(fr) && earlier == old(earlier)
      ensures !aborted ==> callStack == [] && Replay(Where(), frames, snaps, |frames|)
      ensures !aborted ==> |snaps| == |frames| + 1 && snaps[0] == old(Now()) && snaps[|frames|] == Now()
    {
      hide Program.WellFormed, Enumerates, Remembers, BranchesListed, ListsSites, FrameDone, Now, Replay, FramesOf, Inv;
      ghost var k := 0;
      snaps := [Now()];
      ReplayNothing(Where(), frames, snaps);
      while callStack != [] && !aborted
        invariant Inv() && fr == old(fr) && earlier == old(earlier) && Aligned(frames, k, callStack)
        invariant |snaps| == k + 1 && snaps[0] == old(Now())
        invariant !aborted ==> Replay(Where(), frames, snaps, k) && snaps[k] == Now()
        decreases |callStack|
      {
        ReplayFrame(frames, k);
        if !aborted { ReplayExtend(Where(), frames, snaps, k, Now()); }
        k, snaps := k + 1, snaps + [Now()];
      }
    }

    /** Replays the stack for one seed. Whatever the walks do, every entry of the resulting list is
        justified by strictly earlier ones. */
    method AnalyseHead(head: (FuncId, Value), stackBody: seq<(FuncId, Value)>)
      requires ListsSites(P, influence, brs, calls, interPtr, interFunc) && FrameList([head] + stackBody) && !aborted
      modifies this
      ensures Inv() && fr == FramesOf([head] + stackBody) && earlier == Elements(old(brs))
      ensures !aborted ==> callStack == [] && fr.seeds <= corrupted
      ensures !aborted && !P.IsCall(head.1) && stackBody != [] ==> stackBody[0].1 in corrupted
      ensures !aborted ==> SeedRun(Where(), [head] + stackBody, old(Now()), Now())
    {
      hide Program.WellFormed, Enumerates, Remembers, BranchesListed, ListsSites, FrameDone, Replay;
      ghost var frames := [head] + stackBody;
      assert frames[0] == head && (stackBody != [] ==> frames[1] == stackBody[0]);
      Reset([head] + stackBody);
      ghost var snaps := ReplayFrames(frames);
      if !aborted { SeedsReplayed(Where(), frames, snaps); }
    }

    /** For every list, a branch on it is listed for good unless it is a frame instruction of its seed. */
    ghost predicate KeepsBranches(heads: seq<(FuncId, Value)>, stackBody: seq<(FuncId, Value)>, lists: seq<seq<Value>>,
                                  brs: seq<Value>)
      requires |lists| <= |heads|
    {
      forall i, b :: 0 <= i < |lists| && b in lists[i] && P.IsKind(b, Branch) ==>
        b in FramesOf([heads[i]] + stackBody).seeds || b in brs
    }

    lemma HeadFrames(heads: seq<(FuncId, Value)>, stackBody: seq<(FuncId, Value)>, k: nat)
      requires FrameList(heads) && FrameList(stackBody) && k < |heads|
      ensures FrameList([heads[k]] + stackBody)
    {
    }

    lemma KeepsMore(heads: seq<(FuncId, Value)>, stackBody: seq<(FuncId, Value)>, lists: seq<seq<Value>>,
                    list: seq<Value>, brs: seq<Value>, brs': seq<Value>)
      requires |lists| < |heads| && KeepsBranches(heads, stackBody, lists, brs) && forall b :: b in brs ==> b in brs'
      requires forall b :: b in list && P.IsKind(b, Branch) ==>
        b in FramesOf([heads[|lists|]] + stackBody).seeds || b in brs'
      ensures KeepsBranches(heads, stackBody, lists + [list], brs')
    {
      var all := lists + [list];
      forall i, b | 0 <= i < |all| && b in all[i] && P.IsKind(b, Branch)
        ensures b in FramesOf([heads[i]] + stackBody).seeds || b in brs'
      {
        if i < |lists| { assert all[i] == lists[i]; } else { assert all[i] == list; }
      }
    }

    /** One seed more. */
    method NextSeed(heads: seq<(FuncId, Value)>, stackBody: seq<(FuncId, Value)>, lists: seq<seq<Value>>,
                    ghost before: seq<Value>)
      returns (lists': seq<seq<Value>>)
      requires ListsSites(P, influence, brs, calls, interPtr, interFunc) && FrameList(heads) && FrameList(stackBody)
      requires !aborted
      requires |lists| < |heads| && ListedFrom(before, lists, brs) && KeepsBranches(heads, stackBody, lists, brs)
      modifies this
      ensures ListsSites(P, influence, brs, calls, interPtr, interFunc)
      ensures lists' == lists + [ordered] && NoDuplicates(ordered)
      ensures Provenance(P, FramesOf([heads[|lists|]] + stackBody), ordered)
      ensures ListedFrom(before, lists', brs) && KeepsBranches(heads, stackBody, lists', brs)
      ensures Elements(ordered) == corrupted
      ensures !aborted ==> SeedRun(Where(), [heads[|lists|]] + stackBody, old(Now()), Now())
    {
      hide Program.WellFormed, Enumerates, Remembers, BranchesListed, ListsSites, Provenance, ListedFrom, KeepsBranches;
      hide SeedRun;
      ghost var brs0 := brs;
      HeadFrames(heads, stackBody, |lists|);
      AnalyseHead(heads[|lists|], stackBody);
      lists' := lists + [ordered];
      Enumerated(P, fr, ordered, corrupted, ptr);
      BranchesOfSeed(P, fr, brs, corrupted, earlier, ordered, brs0);
      ListedFromMore(before, lists, brs0, ordered, brs);
      KeepsMore(heads, stackBody, lists, ordered, brs0, brs);
    }

    lemma NoSeedYet(heads: seq<(FuncId, Value)>, stackBody: seq<(FuncId, Value)>, ends: seq<Snap>)
      requires |ends| == 1
      ensures SeedRuns(Where(), heads, stackBody, [], ends, 0)
      ensures ListedFrom(brs, [], brs) && KeepsBranches(heads, stackBody, [], brs)
    {
    }

    /** One list per seed of the report, with the state after each; an abort ends the pass. The branch list
        ends with exactly the branches it began with and those that some seed corrupted, frame
        instructions aside. */
    method GetCorruptedIRs(heads: seq<(FuncId, Value)>, stackBody: seq<(FuncId, Value)>)
      returns (lists: seq<seq<Value>>, ghost ends: seq<Snap>)
      requires ListsSites(P, influence, brs, calls, interPtr, interFunc) && FrameList(heads) && FrameList(stackBody)
      requires !aborted && heads != []
      modifies this
      ensures |lists| <= |heads| && (!aborted ==> |lists| == |heads|) && (aborted ==> |lists| > 0)
      ensures ListsSites(P, influence, brs, calls, interPtr, interFunc)
      ensures forall i :: 0 <= i < |lists| ==>
        NoDuplicates(lists[i]) && Provenance(P, FramesOf([heads[i]] + stackBody), lists[i])
      ensures ListedFrom(old(brs), lists, brs) && KeepsBranches(heads, stackBody, lists, brs)
      ensures |ends| == |lists| + 1 && ends[0] == old(Now())
      ensures SeedRuns(Where(), heads, stackBody, lists, ends, if aborted then |lists| - 1 else |lists|)
      ensures !aborted ==> ends[|lists|] == Now()
    {
      hide SeedRuns, SeedRun, ListedFrom, KeepsBranches, ListsSites, Provenance;
      lists, ends := [], [Now()];
      NoSeedYet(heads, stackBody, ends);
      while |lists| < |heads| && !aborted
        invariant |lists| <= |heads| && ListsSites(P, influence, brs, calls, interPtr, interFunc)
        invariant forall i :: 0 <= i < |lists| ==>
          NoDuplicates(lists[i]) && Provenance(P, FramesOf([heads[i]] + stackBody), lists[i])
        invariant ListedFrom(old(brs), lists, brs) && KeepsBranches(heads, stackBody, lists, brs)
        invariant |ends| == |lists| + 1 && ends[0] == old(Now()) && (!aborted ==> ends[|lists|] == Now())
        invariant aborted ==> |lists| > 0
        invariant SeedRuns(Where(), heads, stackBody, lists, ends, if aborted then |lists| - 1 else |lists|)
        decreases |heads| - |lists|
      {
        ghost var before := lists;
        lists := NextSeed(heads, stackBody, lists, old(brs));
        SeedRunsMore(Where(), heads, stackBody, before, ends, ordered, Now());
        ends := ends + [Now()];
      }
    }
  }
}
