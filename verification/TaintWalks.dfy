/** What a whole walk of the taint analysis does, as a relation between states, and what follows from it. */
module TaintWalks {
  import opened Wrappers
  import opened TaintRules

  /** What does not change during an analysis. */
  datatype Setting = Setting(P: Program, answers: Answers, danPtrOps: set<FileLine>, danFuncOps: set<FileLine>)

  /** What does. */
  datatype Snap = Snap(corrupted: set<Value>, ptr: map<Value, seq<GepIndex>>, memo: map<FuncId, EnterExit>,
                       brs: seq<Value>, calls: seq<Value>,
                       interPtr: map<FileLine, seq<Value>>, interFunc: map<FileLine, seq<Value>>)

  ghost function Listing(s: seq<Value>, v: Value): seq<Value> {
    if v in s then s else s + [v]
  }

  // ----- one instruction

  /** Exactly the listed branches that influence a listed call. */
  ghost predicate BranchList(st: Setting, s: Snap, list: seq<Value>) {
    NoDuplicates(list) && forall b :: b in list <==> b in s.brs && InfluencesSome(st.P, st.answers, b, s.calls)
  }

  /** `hit`: under cross-function control only. Then a dangerous operation gets its branches stored. */
  ghost predicate Noted(st: Setting, hit: bool, v: Value, s: Snap, s': Snap)
    requires v in st.P.insts
  {
    var dbg := st.P.insts[v].dbg;
    if hit && dbg.Some? && dbg.value in st.danPtrOps then
      exists list :: BranchList(st, s, list) && s' == s.(interPtr := s.interPtr[dbg.value := list])
    else if hit && dbg.Some? && dbg.value in st.danFuncOps then
      exists list :: BranchList(st, s, list) && s' == s.(interFunc := s.interFunc[dbg.value := list])
    else s' == s
  }

  ghost function GepEffect(P: Program, v: Value, s: Snap): Snap {
    var matched, used := IndexMatched(P, s.ptr, v), HasOperand(P, v, s.corrupted);
    var recorded := !matched && v !in s.corrupted && used && P.Index(v).Some?;
    s.(corrupted := s.corrupted + (if matched || used then {v} else {}),
       ptr := if recorded then Recording(P, s.ptr, v, P.insts[v].operands[1]) else s.ptr)
  }

  ghost function PlainSnap(P: Program, v: Value, s: Snap): Snap {
    s.(corrupted := PlainEffect(P, s.corrupted, v),
       brs := if Fresh(P, s.corrupted, v) && P.IsKind(v, Branch) then Listing(s.brs, v) else s.brs)
  }

  /** The state after handing the arguments to the formals of f. */
  ghost function Passed(P: Program, f: FuncId, args: map<nat, Value>, s: Snap): Snap
    requires f in P.funcs
  {
    var formals := P.funcs[f].args;
    s.(corrupted := s.corrupted + PassedFormals(formals, args, s.corrupted, |formals|),
       ptr := PassedPointers(formals, args, s.ptr, |formals|))
  }

  /** The state in which the walk of a called function begins. */
  ghost function Entering(P: Program, v: Value, f: FuncId, args: map<nat, Value>, flag: bool, s: Snap): Snap
    requires f in P.funcs
  {
    Passed(P, f, args, s).(memo := Entered(s.memo, f, |s.corrupted|), calls := if flag then Listing(s.calls, v)
      else s.calls)
  }

  /** The caller's state after that walk: a positive one corrupts the call. */
  ghost function Leaving(v: Value, f: FuncId, positive: bool, last: Snap): Snap {
    var corrupted := last.corrupted + (if positive then {v} else {});
    last.(corrupted := corrupted, memo := Left(last.memo, f, |corrupted|))
  }

  ghost predicate MemoMatches(s: Snap, f: FuncId) {
    f in s.memo && s.memo[f] == EnterExit(|s.corrupted|, |s.corrupted|)
  }

  // ----- a walk

  /** b is a branch that was corrupted by its condition among the first n instructions of the walk. */
  ghost predicate LocalBranch(P: Program, body: seq<Value>, trace: seq<Snap>, n: nat, b: Value)
    requires n <= |body| && n <= |trace|
  {
    exists j :: 0 <= j < n && body[j] == b && P.IsKind(b, Branch) && Fresh(P, trace[j].corrupted, b)
  }

  /** Instruction n is control dependent on such a branch. */
  ghost predicate Within(st: Setting, body: seq<Value>, trace: seq<Snap>, n: nat)
    requires n < |body| && n <= |trace|
  {
    exists b :: LocalBranch(st.P, body, trace, n, b) && Influenced(st.P, st.answers, b, body[n])
  }

  /** Some plain instruction of the walk was corrupted by its operands. */
  ghost predicate AnyFresh(P: Program, body: seq<Value>, trace: seq<Snap>, n: nat)
    requires n <= |body| && n <= |trace|
  {
    exists j :: 0 <= j < n && Fresh(P, trace[j].corrupted, body[j])
  }

  /** The states before and after each of the first n instructions. */
  ghost predicate Walked(st: Setting, onStack: set<FuncId>, ctrlDep: bool, body: seq<Value>, trace: seq<Snap>, n: nat)
    decreases st.P.funcs.Keys - onStack, 6
  {
    && n <= |body| && |trace| == n + 1
    && forall j :: 0 <= j < n ==>
         Stepped(st, onStack, ctrlDep, Within(st, body, trace, j), body[j], trace[j], trace[j + 1])
  }

  /** One instruction: first what it stores, then what it corrupts. */
  ghost predicate Stepped(st: Setting, onStack: set<FuncId>, ctrlDep: bool, within: bool, v: Value, s: Snap, s': Snap)
    decreases st.P.funcs.Keys - onStack, 5
  {
    NotedThenActed(st, onStack, ctrlDep && !within, ctrlDep || within, v, s, s')
  }

  ghost predicate NotedThenActed(st: Setting, onStack: set<FuncId>, hit: bool, flag: bool, v: Value, s: Snap, s': Snap)
    decreases st.P.funcs.Keys - onStack, 4
  {
    v in st.P.insts && exists m :: Noted(st, hit, v, s, m) && Acted(st, onStack, flag, v, m, s')
  }

  ghost predicate Acted(st: Setting, onStack: set<FuncId>, flag: bool, v: Value, s: Snap, s': Snap)
    decreases st.P.funcs.Keys - onStack, 3
  {
    if st.P.IsCall(v) then CallMade(st, onStack, flag, v, s, s')
    else if st.P.IsKind(v, Gep) then s' == GepEffect(st.P, v, s)
    else s' == PlainSnap(st.P, v, s)
  }

  ghost predicate CallMade(st: Setting, onStack: set<FuncId>, flag: bool, v: Value, s: Snap, s': Snap)
    requires st.P.IsCall(v)
    decreases st.P.funcs.Keys - onStack, 2
  {
    if PassedOver(st.P, v, onStack) then s' == s
    else
      var f := st.P.insts[v].kind.callee.value;
      exists args :: Carried(st.P, v, s.corrupted, s.ptr, args) && CallWith(st, onStack, flag, v, f, args, s, s')
  }

  /** A call with these arguments: absorbed without a body, skipped by the memo, or walked. */
  ghost predicate CallWith(st: Setting, onStack: set<FuncId>, flag: bool, v: Value, f: FuncId, args: map<nat, Value>,
                           s: Snap, s': Snap)
    requires f in st.P.funcs && f !in onStack
    decreases st.P.funcs.Keys - onStack, 1
  {
    if st.P.funcs[f].body == [] && args != map[] then s' == s.(corrupted := s.corrupted + {v})
    else if MemoMatches(s, f) then s' == s
    else exists trace :: CallTrace(st, onStack, flag, v, f, args, s, s', trace)
  }

  ghost predicate CallTrace(st: Setting, onStack: set<FuncId>, flag: bool, v: Value, f: FuncId, args: map<nat, Value>,
                            s: Snap, s': Snap, trace: seq<Snap>)
    requires f in st.P.funcs && f !in onStack
    decreases st.P.funcs.Keys - onStack, 0
  {
    var body := st.P.funcs[f].body;
    && Walked(st, onStack + {f}, flag, body, trace, |body|)
    && trace[0] == Entering(st.P, v, f, args, flag, s)
    && s' == Leaving(v, f, AnyFresh(st.P, body, trace, |body|), trace[|body|])
  }

  /** One more instruction. */
  lemma WalkExtend(st: Setting, onStack: set<FuncId>, ctrlDep: bool, body: seq<Value>, trace: seq<Snap>, n: nat,
                   s': Snap)
    requires Walked(st, onStack, ctrlDep, body, trace, n) && n < |body|
    requires Stepped(st, onStack, ctrlDep, Within(st, body, trace, n), body[n], trace[n], s')
    ensures Walked(st, onStack, ctrlDep, body, trace + [s'], n + 1)
    ensures forall b :: LocalBranch(st.P, body, trace + [s'], n + 1, b) <==>
      LocalBranch(st.P, body, trace, n, b) ||
        (b == body[n] && st.P.IsKind(b, Branch) && Fresh(st.P, trace[n].corrupted, b))
    ensures AnyFresh(st.P, body, trace + [s'], n + 1) <==>
      AnyFresh(st.P, body, trace, n) || Fresh(st.P, trace[n].corrupted, body[n])
  {
  }

  /** Where a walk stands after n instructions: the state, the local branches, and the verdict so far. */
  ghost predicate WalkState(st: Setting, onStack: set<FuncId>, ctrlDep: bool, body: seq<Value>, trace: seq<Snap>,
                            n: nat,
                            local: seq<Value>, rv: bool, now: Snap)
  {
    && Walked(st, onStack, ctrlDep, body, trace, n) && trace[n] == now
    && (forall b :: b in local <==> LocalBranch(st.P, body, trace, n, b))
    && (rv <==> AnyFresh(st.P, body, trace, n))
  }

  lemma WalkLength(st: Setting, onStack: set<FuncId>, ctrlDep: bool, body: seq<Value>, trace: seq<Snap>, n: nat)
    requires Walked(st, onStack, ctrlDep, body, trace, n)
    ensures n <= |body| && |trace| == n + 1
  {
  }

  lemma WalkStateStep(st: Setting, onStack: set<FuncId>, ctrlDep: bool, body: seq<Value>, trace: seq<Snap>, n: nat,
                      local: seq<Value>, rv: bool, now: Snap, tainted: bool, local': seq<Value>, now': Snap)
    requires WalkState(st, onStack, ctrlDep, body, trace, n, local, rv, now) && n < |body|
    requires Stepped(st, onStack, ctrlDep, InfluencedBySome(st.P, st.answers, local, body[n]), body[n], now, now')
    requires tainted <==> Fresh(st.P, now.corrupted, body[n])
    requires local' == if tainted && st.P.IsKind(body[n], Branch) then local + [body[n]] else local
    ensures WalkState(st, onStack, ctrlDep, body, trace + [now'], n + 1, local', rv || tainted, now')
  {
    hide Stepped, Walked, Fresh;
    assert Walked(st, onStack, ctrlDep, body, trace, n) && |trace| == n + 1 by {
      WalkLength(st, onStack, ctrlDep, body, trace, n);
    }
    assert Within(st, body, trace, n) <==> InfluencedBySome(st.P, st.answers, local, body[n]);
    WalkExtend(st, onStack, ctrlDep, body, trace, n, now');
  }

  // ----- nothing is ever lost

  /** Corruption, listed sites and stored lists only grow. */
  ghost predicate Grows(P: Program, s: Snap, s': Snap) {
    && s.corrupted <= s'.corrupted
    && (forall b :: b in s.brs ==> b in s'.brs) && (forall c :: c in s.calls ==> c in s'.calls)
    && s.interPtr.Keys <= s'.interPtr.Keys && s.interFunc.Keys <= s'.interFunc.Keys
  }

  lemma GrowsTransitive(P: Program, s: Snap, m: Snap, s': Snap)
    requires Grows(P, s, m) && Grows(P, m, s')
    ensures Grows(P, s, s')
  {
  }

  /** No function that may still be entered has key k among its formals. */
  ghost predicate KeyFixed(P: Program, onStack: set<FuncId>, k: Value) {
    forall f :: f in P.funcs && f !in onStack ==> k !in P.funcs[f].args
  }

  /** Functions on the stack are passed over, so their memo entries stay, and so do the indices recorded
      under keys that are formals of none but them. */
  ghost predicate Kept(P: Program, onStack: set<FuncId>, s: Snap, s': Snap) {
    && (forall f :: f in onStack ==> (f in s.memo <==> f in s'.memo) && (f in s.memo ==> s'.memo[f] == s.memo[f]))
    && (forall k ::
      KeyFixed(P, onStack, k) && k in s.ptr ==> k in s'.ptr && forall r :: r in s.ptr[k] ==> r in s'.ptr[k])
  }

  lemma KeptTransitive(P: Program, onStack: set<FuncId>, s: Snap, m: Snap, s': Snap)
    requires Kept(P, onStack, s, m) && Kept(P, onStack, m, s')
    ensures Kept(P, onStack, s, s')
  {
  }

  lemma KeptSame(P: Program, onStack: set<FuncId>, s: Snap, s': Snap)
    requires s'.memo == s.memo && s'.ptr == s.ptr
    ensures Kept(P, onStack, s, s')
  {
  }

  lemma KeptInside(P: Program, onStack: set<FuncId>, f: FuncId, s: Snap, s': Snap)
    requires Kept(P, onStack + {f}, s, s')
    ensures Kept(P, onStack, s, s')
  {
  }

  lemma EnteringKeeps(P: Program, onStack: set<FuncId>, v: Value, f: FuncId, args: map<nat, Value>, flag: bool, s: Snap)
    requires f in P.funcs && f !in onStack
    ensures Kept(P, onStack, s, Entering(P, v, f, args, flag, s))
  {
    var formals := P.funcs[f].args;
    forall k | KeyFixed(P, onStack, k) && k in s.ptr
      ensures k in PassedPointers(formals, args, s.ptr, |formals|)
      ensures PassedPointers(formals, args, s.ptr, |formals|)[k] == s.ptr[k]
    {
      PassedPointersKeep(formals, args, s.ptr, |formals|, k);
    }
  }

  lemma CorruptedGrows(P: Program, s: Snap, s': Snap)
    requires Grows(P, s, s')
    ensures s.corrupted <= s'.corrupted
  {
  }

  lemma EnteringGrows(P: Program, v: Value, f: FuncId, args: map<nat, Value>, flag: bool, s: Snap)
    requires f in P.funcs
    ensures Grows(P, s, Entering(P, v, f, args, flag, s))
  {
  }

  lemma NoteGrows(st: Setting, hit: bool, v: Value, s: Snap, s': Snap)
    requires v in st.P.insts && Noted(st, hit, v, s, s')
    ensures Grows(st.P, s, s') && s'.corrupted == s.corrupted && s'.ptr == s.ptr && s'.memo == s.memo && s'.brs == s.brs
    ensures s'.calls == s.calls
  {
  }

  lemma DataGrows(P: Program, v: Value, s: Snap)
    ensures Grows(P, s, GepEffect(P, v, s)) && Grows(P, s, PlainSnap(P, v, s))
    ensures forall onStack :: Kept(P, onStack, s, GepEffect(P, v, s)) && Kept(P, onStack, s, PlainSnap(P, v, s))
  {
  }

  lemma {:induction false} StepGrows(st: Setting, onStack: set<FuncId>, ctrlDep: bool, within: bool, v: Value, s: Snap,
                                     s': Snap)
    requires st.P.WellFormed() && Stepped(st, onStack, ctrlDep, within, v, s, s')
    ensures Grows(st.P, s, s') && Kept(st.P, onStack, s, s')
    decreases st.P.funcs.Keys - onStack, 3
  {
    hide Grows, Kept, Noted, Program.WellFormed, GepEffect, PlainSnap, CallMade;
    var hit, flag := ctrlDep && !within, ctrlDep || within;
    assert NotedThenActed(st, onStack, hit, flag, v, s, s');
    var m :| Noted(st, hit, v, s, m) && Acted(st, onStack, flag, v, m, s');
    NoteGrows(st, hit, v, s, m);
    if st.P.IsCall(v) { CallGrows(st, onStack, flag, v, m, s'); } else { DataGrows(st.P, v, m); }
    GrowsTransitive(st.P, s, m, s');
    KeptSame(st.P, onStack, s, m);
    KeptTransitive(st.P, onStack, s, m, s');
  }

  lemma {:induction false} CallGrows(st: Setting, onStack: set<FuncId>, flag: bool, v: Value, s: Snap, s': Snap)
    requires st.P.WellFormed() && st.P.IsCall(v) && CallMade(st, onStack, flag, v, s, s')
    ensures Grows(st.P, s, s') && Kept(st.P, onStack, s, s')
    decreases st.P.funcs.Keys - onStack, 2, 1
  {
    hide Program.WellFormed, CallTrace, Carried, CallWith;
    if !PassedOver(st.P, v, onStack) {
      var f := st.P.insts[v].kind.callee.value;
      var args :| Carried(st.P, v, s.corrupted, s.ptr, args) && CallWith(st, onStack, flag, v, f, args, s, s');
      WithGrows(st, onStack, flag, v, f, args, s, s');
    }
  }

  lemma {:induction false} WithGrows(st: Setting, onStack: set<FuncId>, flag: bool, v: Value, f: FuncId,
                                     args: map<nat, Value>,
                                     s: Snap, s': Snap)
    requires st.P.WellFormed() && f in st.P.funcs && f !in onStack && CallWith(st, onStack, flag, v, f, args, s, s')
    ensures Grows(st.P, s, s') && Kept(st.P, onStack, s, s')
    decreases st.P.funcs.Keys - onStack, 2, 0
  {
    hide Program.WellFormed, CallTrace;
    if (st.P.funcs[f].body != [] || args == map[]) && !MemoMatches(s, f) {
      var trace :| CallTrace(st, onStack, flag, v, f, args, s, s', trace);
      TraceGrows(st, onStack, flag, v, f, args, s, s', trace);
    }
  }

  lemma {:induction false} TraceGrows(st: Setting, onStack: set<FuncId>, flag: bool, v: Value, f: FuncId,
                                      args: map<nat, Value>,
                                      s: Snap, s': Snap, trace: seq<Snap>)
    requires st.P.WellFormed() && f in st.P.funcs && f !in onStack
    requires CallTrace(st, onStack, flag, v, f, args, s, s', trace)
    ensures Grows(st.P, s, s')
    ensures |trace| == |st.P.funcs[f].body| + 1 && Grows(st.P, trace[|st.P.funcs[f].body|], s')
    ensures Kept(st.P, onStack, s, s') && Kept(st.P, onStack + {f}, trace[0], trace[|st.P.funcs[f].body|])
    decreases st.P.funcs.Keys - onStack, 1
  {
    hide Program.WellFormed, Stepped;
    var n := |st.P.funcs[f].body|;
    EnteringGrows(st.P, v, f, args, flag, s);
    WalkGrows(st, onStack + {f}, flag, st.P.funcs[f].body, trace, n, 0, n);
    GrowsTransitive(st.P, s, trace[0], trace[n]);
    assert Grows(st.P, trace[n], s');
    GrowsTransitive(st.P, s, trace[n], s');
    EnteringKeeps(st.P, onStack, v, f, args, flag, s);
    KeptInside(st.P, onStack, f, trace[0], trace[n]);
    KeptTransitive(st.P, onStack, s, trace[0], trace[n]);
    assert Kept(st.P, onStack, trace[n], s');
    KeptTransitive(st.P, onStack, s, trace[n], s');
  }

  lemma {:induction false} WalkGrows(st: Setting, onStack: set<FuncId>, ctrlDep: bool, body: seq<Value>,
                                     trace: seq<Snap>, n: nat, i: nat, j: nat)
    requires st.P.WellFormed() && Walked(st, onStack, ctrlDep, body, trace, n) && i <= j <= n
    ensures |trace| == n + 1 && n <= |body| && Grows(st.P, trace[i], trace[j])
    ensures Kept(st.P, onStack, trace[i], trace[j])
    decreases st.P.funcs.Keys - onStack, 4, j - i
  {
    hide Program.WellFormed, Stepped, Within;
    if i < j {
      WalkGrows(st, onStack, ctrlDep, body, trace, n, i, j - 1);
      assert Stepped(st, onStack, ctrlDep, Within(st, body, trace, j - 1), body[j - 1], trace[j - 1], trace[j - 1 + 1]);
      StepGrows(st, onStack, ctrlDep, Within(st, body, trace, j - 1), body[j - 1], trace[j - 1], trace[j]);
      GrowsTransitive(st.P, trace[i], trace[j - 1], trace[j]);
      KeptTransitive(st.P, onStack, trace[i], trace[j - 1], trace[j]);
    }
  }

  // ----- what a walk is bound to do

  lemma DataSame(P: Program, v: Value, s: Snap, m: Snap)
    requires m.corrupted == s.corrupted && m.ptr == s.ptr
    ensures GepEffect(P, v, m).corrupted == GepEffect(P, v, s).corrupted
    ensures GepEffect(P, v, m).ptr == GepEffect(P, v, s).ptr
    ensures PlainSnap(P, v, m).corrupted == PlainEffect(P, s.corrupted, v) && PlainSnap(P, v, m).ptr == s.ptr
  {
  }

  /** What an instruction other than a call leaves, as far as data goes. */
  lemma DataAt(st: Setting, onStack: set<FuncId>, ctrlDep: bool, within: bool, v: Value, s: Snap, s': Snap)
    requires Stepped(st, onStack, ctrlDep, within, v, s, s') && !st.P.IsCall(v)
    ensures s'.corrupted
      == if st.P.IsKind(v, Gep) then GepEffect(st.P, v, s).corrupted else PlainEffect(st.P, s.corrupted, v)
    ensures s'.ptr == if st.P.IsKind(v, Gep) then GepEffect(st.P, v, s).ptr else s.ptr
  {
    hide CallMade, Noted, GepEffect, PlainSnap, PlainEffect, Grows;
    var hit, flag := ctrlDep && !within, ctrlDep || within;
    assert NotedThenActed(st, onStack, hit, flag, v, s, s');
    var m :| Noted(st, hit, v, s, m) && Acted(st, onStack, flag, v, m, s');
    NoteGrows(st, hit, v, s, m);
    DataSame(st.P, v, s, m);
  }

  lemma PickArguments(st: Setting, onStack: set<FuncId>, flag: bool, v: Value, f: FuncId, s: Snap, s': Snap)
    returns (args: map<nat, Value>)
    requires st.P.Calls(v, f) && f in st.P.funcs && !st.P.funcs[f].intrinsic && f !in onStack
    requires CallMade(st, onStack, flag, v, s, s')
    ensures Carried(st.P, v, s.corrupted, s.ptr, args) && CallWith(st, onStack, flag, v, f, args, s, s')
  {
    hide CallWith, Carried;
    args :| Carried(st.P, v, s.corrupted, s.ptr, args) && CallWith(st, onStack, flag, v, f, args, s, s');
  }

  /** A call resolved to f that is not passed over. */
  lemma CallAt(st: Setting, onStack: set<FuncId>, ctrlDep: bool, within: bool, v: Value, f: FuncId, s: Snap, s': Snap)
    returns (m: Snap, args: map<nat, Value>)
    requires Stepped(st, onStack, ctrlDep, within, v, s, s')
    requires st.P.Calls(v, f) && f in st.P.funcs && !st.P.funcs[f].intrinsic && f !in onStack
    ensures Noted(st, ctrlDep && !within, v, s, m)
    ensures m.corrupted == s.corrupted && m.ptr == s.ptr && m.memo == s.memo && m.brs == s.brs && m.calls == s.calls
    ensures Carried(st.P, v, s.corrupted, s.ptr, args)
    ensures CallWith(st, onStack, ctrlDep || within, v, f, args, m, s')
  {
    hide CallWith;
    var hit, flag := ctrlDep && !within, ctrlDep || within;
    assert NotedThenActed(st, onStack, hit, flag, v, s, s');
    m :| Noted(st, hit, v, s, m) && Acted(st, onStack, flag, v, m, s');
    NoteGrows(st, hit, v, s, m);
    args := PickArguments(st, onStack, flag, v, f, m, s');
  }

  /** Forward flow: whatever is corrupted by the time a non-call instruction is reached corrupts it through
      its operands, for good. */
  lemma ForwardFlow(st: Setting, onStack: set<FuncId>, ctrlDep: bool, body: seq<Value>, trace: seq<Snap>, n: nat,
                    i: nat, j: nat)
    requires st.P.WellFormed() && Walked(st, onStack, ctrlDep, body, trace, n) && i <= j < n
    requires !st.P.IsCall(body[j]) && HasOperand(st.P, body[j], trace[i].corrupted)
    ensures body[j] in trace[j + 1].corrupted && body[j] in trace[n].corrupted
  {
    hide Stepped, Within, Program.WellFormed;
    WalkGrows(st, onStack, ctrlDep, body, trace, n, i, j);
    var o :| o in st.P.insts[body[j]].operands && o in trace[i].corrupted;
    assert HasOperand(st.P, body[j], trace[j].corrupted);
    DataAt(st, onStack, ctrlDep, Within(st, body, trace, j), body[j], trace[j], trace[j + 1]);
    WalkGrows(st, onStack, ctrlDep, body, trace, n, j + 1, n);
  }

  /** A store that its operands newly corrupt corrupts its target. */
  lemma StoreFlow(st: Setting, onStack: set<FuncId>, ctrlDep: bool, body: seq<Value>, trace: seq<Snap>, n: nat, j: nat)
    requires st.P.WellFormed() && Walked(st, onStack, ctrlDep, body, trace, n) && j < n
    requires st.P.IsKind(body[j], Store) && body[j] !in trace[j].corrupted
    requires HasOperand(st.P, body[j], trace[j].corrupted) && |st.P.insts[body[j]].operands| > 1
    ensures st.P.insts[body[j]].operands[1] in trace[n].corrupted
  {
    hide Stepped, Within, Program.WellFormed;
    DataAt(st, onStack, ctrlDep, Within(st, body, trace, j), body[j], trace[j], trace[j + 1]);
    WalkGrows(st, onStack, ctrlDep, body, trace, n, j + 1, n);
  }

  /** An index recorded under a fixed key is matched by every later GEP on that key that has it. */
  lemma IndexMet(st: Setting, onStack: set<FuncId>, ctrlDep: bool, body: seq<Value>, trace: seq<Snap>, n: nat, i: nat,
                 j: nat, r: GepIndex)
    requires st.P.WellFormed() && Walked(st, onStack, ctrlDep, body, trace, n) && i <= j < n
    requires st.P.IsKind(body[j], Gep) && st.P.Index(body[j]) == Some(r)
    requires
      var key := st.P.insts[body[j]].operands[0];
      KeyFixed(st.P, onStack, key) && key in trace[i].ptr && r in trace[i].ptr[key]
    ensures body[j] in trace[n].corrupted
  {
    hide Stepped, Within, Program.WellFormed;
    WalkGrows(st, onStack, ctrlDep, body, trace, n, i, j);
    DataAt(st, onStack, ctrlDep, Within(st, body, trace, j), body[j], trace[j], trace[j + 1]);
    assert IndexMatched(st.P, trace[j].ptr, body[j]);
    WalkGrows(st, onStack, ctrlDep, body, trace, n, j + 1, n);
  }

  /** A GEP that its operands newly corrupt is matched by every later GEP with the same index on the
      value under which it was recorded, its first index operand. */
  lemma IndexFlow(st: Setting, onStack: set<FuncId>, ctrlDep: bool, body: seq<Value>, trace: seq<Snap>, n: nat,
                  i: nat, j: nat)
    requires st.P.WellFormed() && Walked(st, onStack, ctrlDep, body, trace, n) && i < j < n
    requires SameIndex(st.P, body[j], body[i])
    requires st.P.insts[body[j]].operands[0] == st.P.insts[body[i]].operands[1]
    requires KeyFixed(st.P, onStack, st.P.insts[body[i]].operands[1])
    requires body[i] !in trace[i].corrupted && HasOperand(st.P, body[i], trace[i].corrupted)
    requires !IndexMatched(st.P, trace[i].ptr, body[i])
    ensures body[j] in trace[n].corrupted
  {
    hide Stepped, Within, Program.WellFormed, KeyFixed;
    SameIndexMeans(st.P, body[j], body[i]);
    DataAt(st, onStack, ctrlDep, Within(st, body, trace, i), body[i], trace[i], trace[i + 1]);
    IndexMet(st, onStack, ctrlDep, body, trace, n, i + 1, j, st.P.Index(body[i]).value);
  }

  /** A call that is neither passed over nor skipped by the memo, of a function with a body. */
  ghost predicate Analyses(P: Program, onStack: set<FuncId>, v: Value, f: FuncId, s: Snap) {
    && P.Calls(v, f) && f in P.funcs && !P.funcs[f].intrinsic && f !in onStack
    && P.funcs[f].body != [] && !MemoMatches(s, f)
  }

  lemma PickTrace(st: Setting, onStack: set<FuncId>, flag: bool, v: Value, f: FuncId, args: map<nat, Value>, s: Snap,
                  s': Snap)
    returns (callee: seq<Snap>)
    requires f in st.P.funcs && f !in onStack && CallWith(st, onStack, flag, v, f, args, s, s')
    requires st.P.funcs[f].body != [] && !MemoMatches(s, f)
    ensures CallTrace(st, onStack, flag, v, f, args, s, s', callee)
  {
    hide CallTrace;
    callee :| CallTrace(st, onStack, flag, v, f, args, s, s', callee);
  }

  /** Such a call walks the callee. */
  lemma CalleeWalk(st: Setting, onStack: set<FuncId>, ctrlDep: bool, body: seq<Value>, trace: seq<Snap>, n: nat,
                   i: nat, f: FuncId)
    returns (m: Snap, args: map<nat, Value>, callee: seq<Snap>)
    requires st.P.WellFormed() && Walked(st, onStack, ctrlDep, body, trace, n) && i < n
    requires Analyses(st.P, onStack, body[i], f, trace[i])
    ensures m.corrupted == trace[i].corrupted && m.ptr == trace[i].ptr
    ensures m.brs == trace[i].brs && m.calls == trace[i].calls
    ensures Carried(st.P, body[i], trace[i].corrupted, trace[i].ptr, args)
    ensures CallTrace(st, onStack, ctrlDep || Within(st, body, trace, i), body[i], f, args, m, trace[i + 1], callee)
    ensures |callee| == |st.P.funcs[f].body| + 1 && Grows(st.P, callee[|st.P.funcs[f].body|], trace[n])
  {
    hide Stepped, Within, Program.WellFormed, Grows;
    m, args := CallAt(st, onStack, ctrlDep, Within(st, body, trace, i), body[i], f, trace[i], trace[i + 1]);
    callee := PickTrace(st, onStack, ctrlDep || Within(st, body, trace, i), body[i], f, args, m, trace[i + 1]);
    TraceGrows(st, onStack, ctrlDep || Within(st, body, trace, i), body[i], f, args, m, trace[i + 1], callee);
    WalkGrows(st, onStack, ctrlDep, body, trace, n, i + 1, n);
    GrowsTransitive(st.P, callee[|st.P.funcs[f].body|], trace[i + 1], trace[n]);
  }

  /** Calls that leave everything as it is, apart from what is stored at them: indirect ones, those of
      intrinsics and of functions on the stack, and those whose function last entered and left with as
      many corrupted values as there are now. */
  lemma CallIgnored(st: Setting, onStack: set<FuncId>, ctrlDep: bool, body: seq<Value>, trace: seq<Snap>, n: nat,
                    i: nat)
    requires st.P.WellFormed() && Walked(st, onStack, ctrlDep, body, trace, n) && i < n && st.P.IsCall(body[i])
    requires
      var callee := st.P.insts[body[i]].kind.callee;
      || callee.None?
      || (callee.value in st.P.funcs && (st.P.funcs[callee.value].intrinsic || callee.value in onStack))
      || (callee.value in st.P.funcs && st.P.funcs[callee.value].body != [] && callee.value in trace[i].memo
          && trace[i].memo[callee.value].enterVal == trace[i].memo[callee.value].exitVal == |trace[i].corrupted|)
    ensures trace[i + 1].corrupted == trace[i].corrupted && trace[i + 1].ptr == trace[i].ptr
    ensures trace[i + 1].memo == trace[i].memo && trace[i + 1].brs == trace[i].brs
    ensures trace[i + 1].calls == trace[i].calls
  {
    hide Program.WellFormed, Within, CallTrace, Noted, GepEffect, PlainSnap;
    var within, v := Within(st, body, trace, i), body[i];
    assert Stepped(st, onStack, ctrlDep, within, v, trace[i], trace[i + 1]);
    var hit, flag := ctrlDep && !within, ctrlDep || within;
    assert NotedThenActed(st, onStack, hit, flag, v, trace[i], trace[i + 1]);
    var m :| Noted(st, hit, v, trace[i], m) && Acted(st, onStack, flag, v, m, trace[i + 1]);
    NoteGrows(st, hit, v, trace[i], m);
    assert CallMade(st, onStack, flag, v, m, trace[i + 1]);
    if !PassedOver(st.P, v, onStack) {
      var f := st.P.insts[v].kind.callee.value;
      var args := PickArguments(st, onStack, flag, v, f, m, trace[i + 1]);
      assert CallWith(st, onStack, flag, v, f, args, m, trace[i + 1]) && MemoMatches(m, f);
    }
  }

  lemma FormalEntered(st: Setting, onStack: set<FuncId>, flag: bool, v: Value, f: FuncId, args: map<nat, Value>,
                      s: Snap, s': Snap, callee: seq<Snap>, k: nat)
    requires st.P.WellFormed() && f in st.P.funcs && f !in onStack
    requires CallTrace(st, onStack, flag, v, f, args, s, s', callee)
    requires k < |st.P.funcs[f].args| && k in args && args[k] in s.corrupted
    ensures |callee| == |st.P.funcs[f].body| + 1
    ensures st.P.funcs[f].args[k] in callee[0].corrupted
    ensures st.P.funcs[f].args[k] in callee[|st.P.funcs[f].body|].corrupted
  {
    hide Stepped, Program.WellFormed;
    var formals := st.P.funcs[f].args;
    PassedFormalsAre(formals, args, s.corrupted, |formals|);
    assert exists i :: 0 <= i < |formals| && i in args && args[i] in s.corrupted && formals[i] == formals[k];
    var n := |st.P.funcs[f].body|;
    WalkGrows(st, onStack + {f}, flag, st.P.funcs[f].body, callee, n, 0, n);
  }

  /** The formal is corrupted whenever its actual is. */
  lemma FormalCorrupted(st: Setting, onStack: set<FuncId>, ctrlDep: bool, body: seq<Value>, trace: seq<Snap>, n: nat,
                        i: nat, f: FuncId, k: nat)
    requires st.P.WellFormed() && Walked(st, onStack, ctrlDep, body, trace, n) && i < n
    requires Analyses(st.P, onStack, body[i], f, trace[i])
    requires k < |st.P.funcs[f].args| && k < |st.P.insts[body[i]].operands|
    requires st.P.insts[body[i]].operands[k] in st.P.insts && st.P.insts[body[i]].operands[k] in trace[i].corrupted
    ensures st.P.funcs[f].args[k] in trace[n].corrupted
  {
    hide Stepped, Within, Program.WellFormed;
    var m, args, callee := CalleeWalk(st, onStack, ctrlDep, body, trace, n, i, f);
    FormalEntered(st, onStack, ctrlDep || Within(st, body, trace, i), body[i], f, args, m, trace[i + 1], callee, k);
  }

  /** The call v analyses f and passes it a corrupted actual for formal k. */
  ghost predicate PassesCorrupted(P: Program, onStack: set<FuncId>, v: Value, f: FuncId, k: nat, s: Snap) {
    && Analyses(P, onStack, v, f, s) && k < |P.funcs[f].args| && k < |P.insts[v].operands|
    && P.insts[v].operands[k] in P.insts && P.insts[v].operands[k] in s.corrupted
  }

  /** In a whole walk the formal of every called, unskipped function is corrupted whenever its actual is. */
  ghost predicate FormalsFollowed(P: Program, onStack: set<FuncId>, body: seq<Value>, trace: seq<Snap>) {
    |trace| == |body| + 1 && forall i, f, k: nat ::
      0 <= i < |body| && PassesCorrupted(P, onStack, body[i], f, k, trace[i]) ==>
        P.funcs[f].args[k] in trace[|body|].corrupted
  }

  lemma AllFormalsFollowed(st: Setting, onStack: set<FuncId>, ctrlDep: bool, body: seq<Value>, trace: seq<Snap>)
    requires st.P.WellFormed() && Walked(st, onStack, ctrlDep, body, trace, |body|)
    ensures FormalsFollowed(st.P, onStack, body, trace)
  {
    hide Program.WellFormed, Stepped;
    forall i: nat, f: FuncId, k: nat | 0 <= i < |body| && PassesCorrupted(st.P, onStack, body[i], f, k, trace[i])
      ensures st.P.funcs[f].args[k] in trace[|body|].corrupted
    {
      FormalCorrupted(st, onStack, ctrlDep, body, trace, |body|, i, f, k);
    }
  }

  /** Inside the callee, whatever uses a corrupted formal is corrupted; a plain instruction that was clean
      until then corrupts the call too. */
  lemma FormalUsed(st: Setting, onStack: set<FuncId>, ctrlDep: bool, body: seq<Value>, trace: seq<Snap>, n: nat,
                   i: nat, f: FuncId, k: nat, j: nat)
    returns (callee: seq<Snap>)
    requires st.P.WellFormed() && Walked(st, onStack, ctrlDep, body, trace, n) && i < n
    requires Analyses(st.P, onStack, body[i], f, trace[i])
    requires k < |st.P.funcs[f].args| && k < |st.P.insts[body[i]].operands|
    requires st.P.insts[body[i]].operands[k] in st.P.insts && st.P.insts[body[i]].operands[k] in trace[i].corrupted
    requires j < |st.P.funcs[f].body| && st.P.funcs[f].body[j] in st.P.insts && !st.P.IsCall(st.P.funcs[f].body[j])
    requires st.P.funcs[f].args[k] in st.P.insts[st.P.funcs[f].body[j]].operands
    ensures |callee| == |st.P.funcs[f].body| + 1
    ensures Walked(st, onStack + {f}, ctrlDep ||
      Within(st, body, trace, i), st.P.funcs[f].body, callee, |st.P.funcs[f].body|)
    ensures st.P.funcs[f].body[j] in trace[n].corrupted
    ensures !st.P.IsKind(st.P.funcs[f].body[j], Gep) && st.P.funcs[f].body[j] !in callee[j].corrupted ==>
      body[i] in trace[n].corrupted
  {
    hide Stepped, Within, Program.WellFormed;
    var m, args;
    m, args, callee := CalleeWalk(st, onStack, ctrlDep, body, trace, n, i, f);
    var flag, u := ctrlDep || Within(st, body, trace, i), st.P.funcs[f].body[j];
    FormalEntered(st, onStack, flag, body[i], f, args, m, trace[i + 1], callee, k);
    var formal := st.P.funcs[f].args[k];
    assert formal in st.P.insts[u].operands && formal in callee[0].corrupted;
    ForwardFlow(st, onStack + {f}, flag, st.P.funcs[f].body, callee, |st.P.funcs[f].body|, 0, j);
    WalkGrows(st, onStack + {f}, flag, st.P.funcs[f].body, callee, |st.P.funcs[f].body|, 0, j);
    assert HasOperand(st.P, u, callee[j].corrupted);
    WalkGrows(st, onStack, ctrlDep, body, trace, n, i + 1, n);
  }

  /** The indices recorded under an argument reach the callee: a GEP on the formal that has one of them is
      corrupted, although no operand of it need be. */
  lemma IndexHanded(st: Setting, onStack: set<FuncId>, ctrlDep: bool, body: seq<Value>, trace: seq<Snap>, n: nat,
                    i: nat, f: FuncId, k: nat, j: nat, r: GepIndex)
    requires st.P.WellFormed() && Walked(st, onStack, ctrlDep, body, trace, n) && i < n
    requires Analyses(st.P, onStack, body[i], f, trace[i])
    requires k < |st.P.funcs[f].args| && NoDuplicates(st.P.funcs[f].args) && k < |st.P.insts[body[i]].operands|
    requires KeyFixed(st.P, onStack + {f}, st.P.funcs[f].args[k])
    requires
      var o := st.P.insts[body[i]].operands[k];
      o in st.P.insts && o in trace[i].ptr && r in trace[i].ptr[o]
    requires j < |st.P.funcs[f].body| && st.P.IsKind(st.P.funcs[f].body[j], Gep)
    requires st.P.Index(st.P.funcs[f].body[j]) == Some(r)
    requires st.P.insts[st.P.funcs[f].body[j]].operands[0] == st.P.funcs[f].args[k]
    ensures st.P.funcs[f].body[j] in trace[n].corrupted
  {
    hide Stepped, Within, KeyFixed;
    var m, args, callee := CalleeWalk(st, onStack, ctrlDep, body, trace, n, i, f);
    var flag, formals, inner := ctrlDep || Within(st, body, trace, i), st.P.funcs[f].args, st.P.funcs[f].body;
    assert args[k] !in formals by { assert args[k] in st.P.insts; }
    PassedPointersGive(formals, args, m.ptr, |formals|, k);
    assert Walked(st, onStack + {f}, flag, inner, callee, |inner|);
    assert callee[0] == Entering(st.P, body[i], f, args, flag, m);
    IndexMet(st, onStack + {f}, flag, inner, callee, |inner|, 0, j, r);
    CorruptedGrows(st.P, callee[|inner|], trace[n]);
  }

  /** A corrupted argument of a function without a body corrupts the call. */
  lemma BodylessCorrupted(st: Setting, onStack: set<FuncId>, ctrlDep: bool, body: seq<Value>, trace: seq<Snap>, n: nat,
                          i: nat, f: FuncId, o: Value)
    requires st.P.WellFormed() && Walked(st, onStack, ctrlDep, body, trace, n) && i < n
    requires st.P.Calls(body[i], f) && f in st.P.funcs && !st.P.funcs[f].intrinsic && f !in onStack
    requires st.P.funcs[f].body == [] && o in st.P.insts[body[i]].operands && o in st.P.insts && o in trace[i].corrupted
    ensures body[i] in trace[n].corrupted
  {
    hide Stepped, Within, Program.WellFormed;
    var m, args := CallAt(st, onStack, ctrlDep, Within(st, body, trace, i), body[i], f, trace[i], trace[i + 1]);
    var k :| 0 <= k < |st.P.insts[body[i]].operands| && st.P.insts[body[i]].operands[k] == o;
    assert k in args;
    WalkGrows(st, onStack, ctrlDep, body, trace, n, i + 1, n);
  }

  lemma NoteStores(st: Setting, v: Value, s: Snap, m: Snap, loc: FileLine)
    requires v in st.P.insts && st.P.insts[v].dbg == Some(loc) && Noted(st, true, v, s, m)
    ensures loc in st.danPtrOps ==> loc in m.interPtr && BranchList(st, s, m.interPtr[loc])
    ensures loc !in st.danPtrOps && loc in st.danFuncOps ==> loc in m.interFunc && BranchList(st, s, m.interFunc[loc])
  {
  }

  lemma KeysGrow(P: Program, s: Snap, s': Snap)
    requires Grows(P, s, s')
    ensures s.interPtr.Keys <= s'.interPtr.Keys && s.interFunc.Keys <= s'.interFunc.Keys
  {
  }

  lemma DataStores(P: Program, v: Value, s: Snap)
    ensures GepEffect(P, v, s).interPtr == s.interPtr && GepEffect(P, v, s).interFunc == s.interFunc
    ensures PlainSnap(P, v, s).interPtr == s.interPtr && PlainSnap(P, v, s).interFunc == s.interFunc
  {
  }

  lemma NoteAt(st: Setting, onStack: set<FuncId>, v: Value, s: Snap, s': Snap, loc: FileLine)
    requires st.P.WellFormed() && Stepped(st, onStack, true, false, v, s, s')
    requires v in st.P.insts && st.P.insts[v].dbg == Some(loc)
    ensures loc in st.danPtrOps ==> loc in s'.interPtr
    ensures loc in st.danPtrOps && !st.P.IsCall(v) ==> BranchList(st, s, s'.interPtr[loc])
    ensures loc !in st.danPtrOps && loc in st.danFuncOps ==> loc in s'.interFunc
    ensures loc !in st.danPtrOps && loc in st.danFuncOps && !st.P.IsCall(v) ==> BranchList(st, s, s'.interFunc[loc])
  {
    hide Program.WellFormed, BranchList, CallMade, Noted, GepEffect, PlainSnap, Grows;
    assert NotedThenActed(st, onStack, true, true, v, s, s');
    var m :| Noted(st, true, v, s, m) && Acted(st, onStack, true, v, m, s');
    NoteStores(st, v, s, m, loc);
    if st.P.IsCall(v) {
      CallGrows(st, onStack, true, v, m, s');
      KeysGrow(st.P, m, s');
    } else {
      DataStores(st.P, v, m);
    }
  }

  /** A dangerous operation under cross-function control only has branches stored; unless it is a call
      itself, exactly the listed ones that influence a listed call. */
  lemma StoredAt(st: Setting, onStack: set<FuncId>, ctrlDep: bool, body: seq<Value>, trace: seq<Snap>, n: nat,
                 j: nat, loc: FileLine)
    requires st.P.WellFormed() && Walked(st, onStack, ctrlDep, body, trace, n) && j < n
    requires ctrlDep && !Within(st, body, trace, j) && body[j] in st.P.insts && st.P.insts[body[j]].dbg == Some(loc)
    ensures loc in st.danPtrOps ==> loc in trace[n].interPtr
    ensures loc in st.danPtrOps && !st.P.IsCall(body[j]) ==>
      loc in trace[j + 1].interPtr && BranchList(st, trace[j], trace[j + 1].interPtr[loc])
    ensures loc !in st.danPtrOps && loc in st.danFuncOps ==> loc in trace[n].interFunc
    ensures loc !in st.danPtrOps && loc in st.danFuncOps && !st.P.IsCall(body[j]) ==>
      loc in trace[j + 1].interFunc && BranchList(st, trace[j], trace[j + 1].interFunc[loc])
  {
    hide Stepped, Within, Program.WellFormed, BranchList;
    assert Stepped(st, onStack, true, false, body[j], trace[j], trace[j + 1]);
    NoteAt(st, onStack, body[j], trace[j], trace[j + 1], loc);
    WalkGrows(st, onStack, ctrlDep, body, trace, n, j + 1, n);
  }

  lemma BranchAt(st: Setting, onStack: set<FuncId>, ctrlDep: bool, within: bool, v: Value, s: Snap, s': Snap)
    requires Stepped(st, onStack, ctrlDep, within, v, s, s') && st.P.IsKind(v, Branch) && Fresh(st.P, s.corrupted, v)
    ensures v in s'.brs
  {
    var hit, flag := ctrlDep && !within, ctrlDep || within;
    assert NotedThenActed(st, onStack, hit, flag, v, s, s');
    var m :| Noted(st, hit, v, s, m) && Acted(st, onStack, flag, v, m, s');
    NoteGrows(st, hit, v, s, m);
  }

  lemma BranchListedAt(st: Setting, onStack: set<FuncId>, ctrlDep: bool, body: seq<Value>, trace: seq<Snap>, n: nat,
                       p: nat, i: nat)
    requires st.P.WellFormed() && Walked(st, onStack, ctrlDep, body, trace, n) && p < i <= n
    requires st.P.IsKind(body[p], Branch) && Fresh(st.P, trace[p].corrupted, body[p])
    ensures body[p] in trace[i].brs
  {
    hide Within, Program.WellFormed;
    var within := Within(st, body, trace, p);
    assert Stepped(st, onStack, ctrlDep, within, body[p], trace[p], trace[p + 1]);
    BranchAt(st, onStack, ctrlDep, within, body[p], trace[p], trace[p + 1]);
    WalkGrows(st, onStack, ctrlDep, body, trace, n, p + 1, i);
  }

  /** Cross-function control: a branch b corrupted in the caller before a call that it influences. Then in
      the callee every dangerous operation that no branch of the callee influences is stored, and, unless
      it is a call, with b among its branches. */
  lemma CrossFunction(st: Setting, onStack: set<FuncId>, ctrlDep: bool, body: seq<Value>, trace: seq<Snap>, n: nat,
                      p: nat, i: nat, f: FuncId, j: nat, loc: FileLine)
    returns (callee: seq<Snap>)
    requires st.P.WellFormed() && Walked(st, onStack, ctrlDep, body, trace, n) && p < i < n
    requires st.P.IsKind(body[p], Branch) && Fresh(st.P, trace[p].corrupted, body[p])
    requires Influenced(st.P, st.answers, body[p], body[i]) && Analyses(st.P, onStack, body[i], f, trace[i])
    requires j < |st.P.funcs[f].body| && st.P.funcs[f].body[j] in st.P.insts
    requires st.P.insts[st.P.funcs[f].body[j]].dbg == Some(loc) && loc in st.danPtrOps
    requires forall b :: b in st.P.funcs[f].body ==> !Influenced(st.P, st.answers, b, st.P.funcs[f].body[j])
    ensures loc in trace[n].interPtr
    ensures |callee| == |st.P.funcs[f].body| + 1
    ensures !st.P.IsCall(st.P.funcs[f].body[j]) ==>
      loc in callee[j + 1].interPtr && body[p] in callee[j + 1].interPtr[loc]
  {
    hide Stepped, Program.WellFormed;
    assert LocalBranch(st.P, body, trace, i, body[p]);
    assert Within(st, body, trace, i);
    var m, args;
    m, args, callee := CalleeWalk(st, onStack, ctrlDep, body, trace, n, i, f);
    var inner := st.P.funcs[f].body;
    forall b | LocalBranch(st.P, inner, callee, j, b) ensures b in inner {}
    assert !Within(st, inner, callee, j);
    StoredAt(st, onStack + {f}, true, inner, callee, |inner|, j, loc);
    BranchListedAt(st, onStack, ctrlDep, body, trace, n, p, i);
    WalkGrows(st, onStack + {f}, true, inner, callee, |inner|, 0, j);
    if !st.P.IsCall(inner[j]) {
      assert body[i] in callee[j].calls && body[p] in callee[j].brs;
      assert InfluencesSome(st.P, st.answers, body[p], callee[j].calls);
    }
  }

  /** An analysis of f that records its entry is followed by a skip exactly when it corrupted nothing. */
  lemma SkippedAgain(st: Setting, onStack: set<FuncId>, flag: bool, v: Value, f: FuncId, args: map<nat, Value>,
                     s: Snap, s': Snap, trace: seq<Snap>)
    requires st.P.WellFormed() && f in st.P.funcs && f !in onStack
    requires CallTrace(st, onStack, flag, v, f, args, s, s', trace)
    requires f in s.memo ==> s.memo[f].enterVal == s.memo[f].exitVal
    ensures MemoMatches(s', f) <==> s'.corrupted == s.corrupted
  {
    hide Program.WellFormed, Stepped, Within, AnyFresh, PassedFormals, PassedPointers;
    TraceGrows(st, onStack, flag, v, f, args, s, s', trace);
    var last := trace[|st.P.funcs[f].body|];
    assert last.memo[f].enterVal == |s.corrupted|;
    if |s.corrupted| == |s'.corrupted| { SameSizeSameSet(s.corrupted, s'.corrupted); }
  }

  // ----- without control

  /** Nothing listed, nothing stored. */
  ghost predicate SameSites(s: Snap, s': Snap) {
    s'.calls == s.calls && s'.interPtr == s.interPtr && s'.interFunc == s.interFunc
  }

  lemma BranchesGrow(P: Program, s: Snap, s': Snap)
    requires Grows(P, s, s')
    ensures s.brs != [] ==> s'.brs != []
  {
    if s.brs != [] {
      var b := s.brs[0];
      assert b in s.brs;
      assert b in s'.brs;
    }
  }

  lemma WalkPrefix(st: Setting, onStack: set<FuncId>, ctrlDep: bool, body: seq<Value>, trace: seq<Snap>, n: nat)
    requires Walked(st, onStack, ctrlDep, body, trace, n) && n > 0
    ensures Walked(st, onStack, ctrlDep, body, trace[..n], n - 1)
  {
  }

  lemma NotWithin(st: Setting, onStack: set<FuncId>, ctrlDep: bool, body: seq<Value>, trace: seq<Snap>, n: nat, i: nat)
    requires st.P.WellFormed() && Walked(st, onStack, ctrlDep, body, trace, n) && i < n && trace[i].brs == []
    ensures !Within(st, body, trace, i)
  {
    hide Program.WellFormed, Stepped;
    if Within(st, body, trace, i) {
      var b :| LocalBranch(st.P, body, trace, i, b) && Influenced(st.P, st.answers, b, body[i]);
      var p :| 0 <= p < i && body[p] == b && Fresh(st.P, trace[p].corrupted, b);
      BranchListedAt(st, onStack, ctrlDep, body, trace, n, p, i);
    }
  }

  lemma {:induction false} StepUncontrolled(st: Setting, onStack: set<FuncId>, v: Value, s: Snap, s': Snap)
    requires st.P.WellFormed() && Stepped(st, onStack, false, false, v, s, s') && s'.brs == []
    ensures SameSites(s, s')
    decreases st.P.funcs.Keys - onStack, 3
  {
    hide Program.WellFormed, CallMade, Grows;
    assert NotedThenActed(st, onStack, false, false, v, s, s');
    var m :| Noted(st, false, v, s, m) && Acted(st, onStack, false, v, m, s');
    assert m == s;
    if st.P.IsCall(v) { CallUncontrolled(st, onStack, v, m, s'); }
  }

  lemma {:induction false} CallUncontrolled(st: Setting, onStack: set<FuncId>, v: Value, s: Snap, s': Snap)
    requires st.P.WellFormed() && st.P.IsCall(v) && CallMade(st, onStack, false, v, s, s') && s'.brs == []
    ensures SameSites(s, s')
    decreases st.P.funcs.Keys - onStack, 2, 1
  {
    hide Program.WellFormed, CallTrace, Carried, CallWith;
    if !PassedOver(st.P, v, onStack) {
      var f := st.P.insts[v].kind.callee.value;
      var args :| Carried(st.P, v, s.corrupted, s.ptr, args) && CallWith(st, onStack, false, v, f, args, s, s');
      WithUncontrolled(st, onStack, v, f, args, s, s');
    }
  }

  lemma {:induction false} WithUncontrolled(st: Setting, onStack: set<FuncId>, v: Value, f: FuncId,
                                            args: map<nat, Value>,
                                            s: Snap, s': Snap)
    requires st.P.WellFormed() && f in st.P.funcs && f !in onStack && CallWith(st, onStack, false, v, f, args, s, s')
    requires s'.brs == []
    ensures SameSites(s, s')
    decreases st.P.funcs.Keys - onStack, 2, 0
  {
    hide Program.WellFormed, CallTrace;
    if (st.P.funcs[f].body != [] || args == map[]) && !MemoMatches(s, f) {
      var trace :| CallTrace(st, onStack, false, v, f, args, s, s', trace);
      TraceUncontrolled(st, onStack, v, f, args, s, s', trace);
    }
  }

  lemma {:induction false} TraceUncontrolled(st: Setting, onStack: set<FuncId>, v: Value, f: FuncId,
                                             args: map<nat, Value>, s: Snap, s': Snap, trace: seq<Snap>)
    requires st.P.WellFormed() && f in st.P.funcs && f !in onStack
    requires CallTrace(st, onStack, false, v, f, args, s, s', trace) && s'.brs == []
    ensures SameSites(s, s')
    decreases st.P.funcs.Keys - onStack, 1
  {
    hide Program.WellFormed, Stepped, AnyFresh;
    Uncontrolled(st, onStack + {f}, st.P.funcs[f].body, trace, |st.P.funcs[f].body|);
  }

  /** As long as no branch is corrupted, a walk outside cross-function control lists no call and stores
      nothing, however deep it calls. */
  lemma {:induction false} Uncontrolled(st: Setting, onStack: set<FuncId>, body: seq<Value>, trace: seq<Snap>, n: nat)
    requires st.P.WellFormed() && Walked(st, onStack, false, body, trace, n) && trace[n].brs == []
    ensures SameSites(trace[0], trace[n])
    decreases st.P.funcs.Keys - onStack, 4, n
  {
    hide Program.WellFormed, Stepped, Within;
    if n > 0 {
      var all := trace[..n];
      assert Walked(st, onStack, false, body, all, n - 1) by { WalkPrefix(st, onStack, false, body, trace, n); }
      WalkGrows(st, onStack, false, body, trace, n, n - 1, n);
      assert trace[n - 1].brs == [] by { BranchesGrow(st.P, trace[n - 1], trace[n]); }
      Uncontrolled(st, onStack, body, all, n - 1);
      NotWithin(st, onStack, false, body, trace, n, n - 1);
      assert Stepped(st, onStack, false, Within(st, body, trace, n - 1), body[n - 1], trace[n - 1], trace[n - 1 + 1]);
      StepUncontrolled(st, onStack, body[n - 1], trace[n - 1], trace[n]);
    }
  }

  // ----- replaying a stack

  ghost function StackFrom(frames: seq<(FuncId, Value)>, k: nat): set<FuncId> {
    set j | k <= j < |frames| :: frames[j].0
  }

  /** The state after seeding a frame instruction that is not a call. */
  ghost function Seeded(P: Program, ins: Value, s: Snap): Snap {
    if P.IsCall(ins) || ins in s.corrupted then s
    else
      var record := P.IsKind(ins, Gep) && P.Index(ins).Some?;
      s.(corrupted := s.corrupted + {ins},
         ptr := if record then Recording(P, s.ptr, ins, P.insts[ins].operands[0]) else s.ptr)
  }

  ghost function FirstWalked(P: Program, ins: Value, p: nat): nat {
    if P.IsCall(ins) then p + 1 else p
  }

  /** The walk of the frame that stands at position p of f: from there on, past a call. */
  ghost predicate FrameWalk(st: Setting, onStack: set<FuncId>, ctrlDep: bool, f: FuncId, ins: Value, s: Snap, p: nat,
                            trace: seq<Snap>)
  {
    && f in st.P.funcs && p < |st.P.funcs[f].body| && st.P.funcs[f].body[p] == ins && ins !in st.P.funcs[f].body[..p]
    && var rest := st.P.funcs[f].body[FirstWalked(st.P, ins, p)..];
       Walked(st, onStack, ctrlDep, rest, trace, |rest|) && trace[0] == Seeded(st.P, ins, s)
  }

  /** Whether it found corruption: a new seed, or a plain instruction newly corrupted. */
  ghost predicate FramePositive(P: Program, f: FuncId, ins: Value, s: Snap, p: nat, trace: seq<Snap>)
    requires f in P.funcs && p < |P.funcs[f].body| && |trace| == |P.funcs[f].body[FirstWalked(P, ins, p)..]| + 1
  {
    (!P.IsCall(ins) && ins !in s.corrupted)
    || AnyFresh(P, P.funcs[f].body[FirstWalked(P, ins, p)..], trace, |trace| - 1)
  }

  /** A whole walk of f from its first instruction. */
  ghost predicate EntryWalk(st: Setting, onStack: set<FuncId>, ctrlDep: bool, f: FuncId, args: map<nat, Value>, s: Snap,
                            trace: seq<Snap>, s': Snap, positive: bool)
    requires f in st.P.funcs
  {
    var body := st.P.funcs[f].body;
    && Walked(st, onStack, ctrlDep, body, trace, |body|)
    && trace[0] == Passed(st.P, f, args, s) && trace[|body|] == s'
    && (positive <==> AnyFresh(st.P, body, trace, |body|))
  }

  ghost predicate FrameEnded(st: Setting, onStack: set<FuncId>, ctrlDep: bool, f: FuncId, ins: Value, s: Snap,
                             p: nat, trace: seq<Snap>, s': Snap, positive: bool)
  {
    && FrameWalk(st, onStack, ctrlDep, f, ins, s, p, trace)
    && trace[|trace| - 1] == s' && (positive <==> FramePositive(st.P, f, ins, s, p, trace))
  }

  /** What a called function's walk amounts to for its caller. */
  lemma CalleeTraced(st: Setting, onStack: set<FuncId>, flag: bool, v: Value, f: FuncId, args: map<nat, Value>, s: Snap,
                     pushed: Snap, trace: seq<Snap>, last: Snap, positive: bool)
    requires f in st.P.funcs && f !in onStack
    requires EntryWalk(st, onStack + {f}, flag, f, args, pushed, trace, last, positive)
    requires pushed
      == s.(memo := Entered(s.memo, f, |s.corrupted|), calls := if flag then Listing(s.calls, v) else s.calls)
    ensures CallTrace(st, onStack, flag, v, f, args, s, Leaving(v, f, positive, last), trace)
  {
    hide Stepped, AnyFresh, PassedPointers, PassedFormals, Entered, Listing, Left;
  }

  /** A walk that starts right behind the first occurrence of the frame's call, or at its seed. */
  lemma FrameWalked(st: Setting, onStack: set<FuncId>, ctrlDep: bool, f: FuncId, ins: Value, s: Snap,
                    start: nat, seeded: bool, trace: seq<Snap>, walked: bool, s': Snap, rv: bool)
    requires f in st.P.funcs && start <= |st.P.funcs[f].body|
    requires
      var body, p := st.P.funcs[f].body, if st.P.IsCall(ins) then start - 1 else start;
      0 <= p < |body| && body[p] == ins && ins !in body[..p] && (seeded <==> !st.P.IsCall(ins) && ins !in s.corrupted)
    requires
      var rest := st.P.funcs[f].body[start..];
      && Walked(st, onStack, ctrlDep, rest, trace, |rest|) && (walked <==> AnyFresh(st.P, rest, trace, |rest|))
      && trace[0] == Passed(st.P, f, map[], Seeded(st.P, ins, s)) && trace[|rest|] == s'
    requires rv <==> seeded || walked
    ensures exists p :: FrameEnded(st, onStack, ctrlDep, f, ins, s, p, trace, s', rv)
  {
    hide Stepped, Seeded, AnyFresh;
    var p := if st.P.IsCall(ins) then start - 1 else start;
    var mid := Seeded(st.P, ins, s);
    PassNothing(st.P.funcs[f].args, mid.corrupted, mid.ptr, |st.P.funcs[f].args|);
    var rest := st.P.funcs[f].body[FirstWalked(st.P, ins, p)..];
    assert FrameEnded(st, onStack, ctrlDep, f, ins, s, p, trace, s', rv);
  }

  /** The caller's frame instruction is corrupted by a positive frame. */
  ghost function Resumed(frames: seq<(FuncId, Value)>, k: nat, positive: bool, last: Snap): Snap {
    if positive && k + 1 < |frames| then last.(corrupted := last.corrupted + {frames[k + 1].1}) else last
  }

  ghost predicate FrameDone(st: Setting, frames: seq<(FuncId, Value)>, k: nat, s: Snap, s': Snap)
    requires k < |frames|
  {
    exists p, trace :: FrameTrace(st, frames, k, s, s', p, trace)
  }

  ghost predicate FrameTrace(st: Setting, frames: seq<(FuncId, Value)>, k: nat, s: Snap, s': Snap, p: nat,
                             trace: seq<Snap>)
    requires k < |frames|
  {
    && FrameWalk(st, StackFrom(frames, k), false, frames[k].0, frames[k].1, s, p, trace)
    && s' == Resumed(frames, k, FramePositive(st.P, frames[k].0, frames[k].1, s, p, trace), trace[|trace| - 1])
  }

  /** The states between the frames of a replay, from the innermost frame outward. */
  ghost predicate Replay(st: Setting, frames: seq<(FuncId, Value)>, snaps: seq<Snap>, n: nat) {
    n <= |frames| && |snaps| == n + 1 && forall k :: 0 <= k < n ==> FrameDone(st, frames, k, snaps[k], snaps[k + 1])
  }

  /** What is cleared for a new seed: corruption, indices and memo, but not what was listed or stored. */
  ghost function Cleared(s: Snap): Snap {
    s.(corrupted := {}, ptr := map[], memo := map[])
  }

  /** One seed's analysis as a whole. */
  ghost predicate SeedRun(st: Setting, frames: seq<(FuncId, Value)>, s: Snap, s': Snap) {
    exists snaps :: Replay(st, frames, snaps, |frames|) && snaps[0] == Cleared(s) && snaps[|frames|] == s'
  }

  lemma ReplayExtend(st: Setting, frames: seq<(FuncId, Value)>, snaps: seq<Snap>, n: nat, s': Snap)
    requires Replay(st, frames, snaps, n) && n < |frames| && FrameDone(st, frames, n, snaps[n], s')
    ensures Replay(st, frames, snaps + [s'], n + 1)
  {
  }

  lemma SeededGrows(P: Program, ins: Value, s: Snap)
    ensures Grows(P, s, Seeded(P, ins, s))
  {
  }

  lemma FrameWalkGrows(st: Setting, onStack: set<FuncId>, ctrlDep: bool, f: FuncId, ins: Value, s: Snap, p: nat,
                       trace: seq<Snap>)
    requires st.P.WellFormed() && FrameWalk(st, onStack, ctrlDep, f, ins, s, p, trace)
    ensures |trace| > 0 && Grows(st.P, s, trace[0]) && Grows(st.P, trace[0], trace[|trace| - 1])
    ensures Grows(st.P, s, trace[|trace| - 1])
  {
    hide Program.WellFormed, Stepped, Within;
    var rest := st.P.funcs[f].body[FirstWalked(st.P, ins, p)..];
    WalkGrows(st, onStack, ctrlDep, rest, trace, |rest|, 0, |rest|);
    SeededGrows(st.P, ins, s);
    GrowsTransitive(st.P, s, trace[0], trace[|rest|]);
  }

  lemma FrameGrows(st: Setting, frames: seq<(FuncId, Value)>, k: nat, s: Snap, s': Snap)
    requires st.P.WellFormed() && k < |frames| && FrameDone(st, frames, k, s, s')
    ensures Grows(st.P, s, s')
  {
    hide Program.WellFormed, Stepped, Within, AnyFresh;
    var p: nat, trace: seq<Snap> :| FrameTrace(st, frames, k, s, s', p, trace);
    FrameWalkGrows(st, StackFrom(frames, k), false, frames[k].0, frames[k].1, s, p, trace);
    assert Grows(st.P, trace[|trace| - 1], s');
    GrowsTransitive(st.P, s, trace[|trace| - 1], s');
  }

  lemma {:induction false} ReplayGrows(st: Setting, frames: seq<(FuncId, Value)>, snaps: seq<Snap>, n: nat, i: nat,
                                       j: nat)
    requires st.P.WellFormed() && Replay(st, frames, snaps, n) && i <= j <= n
    ensures Grows(st.P, snaps[i], snaps[j])
    decreases j - i
  {
    hide Program.WellFormed, FrameDone;
    if i < j {
      ReplayGrows(st, frames, snaps, n, i, j - 1);
      assert FrameDone(st, frames, j - 1, snaps[j - 1], snaps[j - 1 + 1]);
      FrameGrows(st, frames, j - 1, snaps[j - 1], snaps[j]);
      GrowsTransitive(st.P, snaps[i], snaps[j - 1], snaps[j]);
    }
  }

  lemma SeedInFrame(st: Setting, onStack: set<FuncId>, f: FuncId, ins: Value, s: Snap, p: nat, trace: seq<Snap>, q: nat)
    requires st.P.WellFormed() && FrameWalk(st, onStack, false, f, ins, s, p, trace)
    requires p < q < |st.P.funcs[f].body| && !st.P.IsCall(ins)
    requires
      var u := st.P.funcs[f].body[q];
      u in st.P.insts && !st.P.IsCall(u) && ins in st.P.insts[u].operands
    ensures |trace| > 0 && st.P.funcs[f].body[q] in trace[|trace| - 1].corrupted
  {
    hide Program.WellFormed, Stepped, Within;
    var rest := st.P.funcs[f].body[p..];
    var u := st.P.funcs[f].body[q];
    assert rest[q - p] == u && ins in trace[0].corrupted;
    assert HasOperand(st.P, u, trace[0].corrupted);
    ForwardFlow(st, onStack, false, rest, trace, |rest|, 0, q - p);
  }

  lemma ReplayNothing(st: Setting, frames: seq<(FuncId, Value)>, snaps: seq<Snap>)
    requires |snaps| == 1
    ensures Replay(st, frames, snaps, 0)
  {
  }

  /** A frame corrupts its seed, and a new seed the caller's frame instruction too. */
  lemma FrameSeeds(st: Setting, frames: seq<(FuncId, Value)>, k: nat, s: Snap, s': Snap)
    requires st.P.WellFormed() && k < |frames| && FrameDone(st, frames, k, s, s') && !st.P.IsCall(frames[k].1)
    ensures frames[k].1 in s'.corrupted
    ensures frames[k].1 !in s.corrupted && k + 1 < |frames| ==> frames[k + 1].1 in s'.corrupted
  {
    hide Program.WellFormed, Stepped, Within, AnyFresh;
    var p: nat, trace: seq<Snap> :| FrameTrace(st, frames, k, s, s', p, trace);
    FrameWalkGrows(st, StackFrom(frames, k), false, frames[k].0, frames[k].1, s, p, trace);
  }

  lemma SeedsReplayed(st: Setting, frames: seq<(FuncId, Value)>, snaps: seq<Snap>)
    requires st.P.WellFormed() && Replay(st, frames, snaps, |frames|) && snaps[0].corrupted == {}
    ensures |snaps| == |frames| + 1
    ensures forall k :: 0 <= k < |frames| && !st.P.IsCall(frames[k].1) ==> frames[k].1 in snaps[|frames|].corrupted
    ensures |frames| > 1 && !st.P.IsCall(frames[0].1) ==> frames[1].1 in snaps[|frames|].corrupted
  {
    hide Program.WellFormed, FrameDone, Grows;
    forall k | 0 <= k < |frames| && !st.P.IsCall(frames[k].1)
      ensures frames[k].1 in snaps[|frames|].corrupted
      ensures k == 0 && |frames| > 1 ==> frames[1].1 in snaps[|frames|].corrupted
    {
      FrameSeeds(st, frames, k, snaps[k], snaps[k + 1]);
      ReplayGrows(st, frames, snaps, |frames|, k + 1, |frames|);
      CorruptedGrows(st.P, snaps[k + 1], snaps[|frames|]);
    }
  }

  /** Every seeded frame instruction corrupts the later non-call instructions of its function that use it. */
  lemma SeedFlow(st: Setting, frames: seq<(FuncId, Value)>, s: Snap, s': Snap, k: nat, p: nat, q: nat)
    requires st.P.WellFormed() && SeedRun(st, frames, s, s') && k < |frames| && frames[k].0 in st.P.funcs
    requires
      var body := st.P.funcs[frames[k].0].body;
      && p < q < |body| && body[p] == frames[k].1 && body[p] !in body[..p] && !st.P.IsCall(body[p])
      && body[q] in st.P.insts && !st.P.IsCall(body[q]) && body[p] in st.P.insts[body[q]].operands
    ensures st.P.funcs[frames[k].0].body[q] in s'.corrupted
  {
    hide Program.WellFormed, Walked, Grows;
    var snaps :| Replay(st, frames, snaps, |frames|) && snaps[0] == Cleared(s) && snaps[|frames|] == s';
    assert FrameDone(st, frames, k, snaps[k], snaps[k + 1]);
    var p': nat, trace: seq<Snap> :| FrameTrace(st, frames, k, snaps[k], snaps[k + 1], p', trace);
    SeedInFrame(st, StackFrom(frames, k), frames[k].0, frames[k].1, snaps[k], p', trace, q);
    ReplayGrows(st, frames, snaps, |frames|, k + 1, |frames|);
    CorruptedGrows(st.P, snaps[k + 1], snaps[|frames|]);
  }

  /** A seeded GEP is matched by the later GEPs of its function with the same base and index. */
  lemma SeedIndexFlow(st: Setting, frames: seq<(FuncId, Value)>, s: Snap, s': Snap, p: nat, q: nat)
    requires st.P.WellFormed() && SeedRun(st, frames, s, s') && frames != [] && frames[0].0 in st.P.funcs
    requires
      var body := st.P.funcs[frames[0].0].body;
      && p < q < |body| && body[p] == frames[0].1 && body[p] !in body[..p] && SameIndex(st.P, body[q], body[p])
      && st.P.insts[body[q]].operands[0] == st.P.insts[body[p]].operands[0]
      && KeyFixed(st.P, StackFrom(frames, 0), st.P.insts[body[p]].operands[0])
    ensures st.P.funcs[frames[0].0].body[q] in s'.corrupted
  {
    hide Program.WellFormed, Stepped, Within, Grows, KeyFixed, AnyFresh;
    var snaps :| Replay(st, frames, snaps, |frames|) && snaps[0] == Cleared(s) && snaps[|frames|] == s';
    assert FrameDone(st, frames, 0, snaps[0], snaps[0 + 1]);
    var p': nat, trace: seq<Snap> :| FrameTrace(st, frames, 0, snaps[0], snaps[1], p', trace);
    var body := st.P.funcs[frames[0].0].body;
    var rest := body[p..];
    SameIndexMeans(st.P, body[q], body[p]);
    assert p' == p && rest[q - p] == body[q];
    IndexMet(st, StackFrom(frames, 0), false, rest, trace, |rest|, 0, q - p, st.P.Index(body[p]).value);
    ReplayGrows(st, frames, snaps, |frames|, 1, |frames|);
    CorruptedGrows(st.P, snaps[1], s');
  }

  /** A frame whose caller's frame instruction stays clean corrupted no plain instruction, and seeded
      nothing new. */
  lemma FrameResumes(st: Setting, frames: seq<(FuncId, Value)>, s: Snap, s': Snap, k: nat)
    returns (before: Snap, p: nat, trace: seq<Snap>)
    requires st.P.WellFormed() && SeedRun(st, frames, s, s') && k + 1 < |frames| && frames[k + 1].1 !in s'.corrupted
    ensures FrameWalk(st, StackFrom(frames, k), false, frames[k].0, frames[k].1, before, p, trace)
    ensures st.P.IsCall(frames[k].1) || frames[k].1 in before.corrupted
    ensures
      var rest := st.P.funcs[frames[k].0].body[FirstWalked(st.P, frames[k].1, p)..];
      |trace| == |rest| + 1 && forall j :: 0 <= j < |rest| ==> !Fresh(st.P, trace[j].corrupted, rest[j])
    ensures k == 0 ==> before == Cleared(s)
  {
    hide Program.WellFormed, Stepped, Within, Fresh, Grows;
    var snaps :| Replay(st, frames, snaps, |frames|) && snaps[0] == Cleared(s) && snaps[|frames|] == s';
    assert FrameDone(st, frames, k, snaps[k], snaps[k + 1]);
    p, trace :| FrameTrace(st, frames, k, snaps[k], snaps[k + 1], p, trace);
    ReplayGrows(st, frames, snaps, |frames|, k + 1, |frames|);
    CorruptedGrows(st.P, snaps[k + 1], snaps[|frames|]);
    before := snaps[k];
    FrameWalkGrows(st, StackFrom(frames, k), false, frames[k].0, frames[k].1, before, p, trace);
  }

  /** Seed after seed: each run starts from the state the one before left, and its list enumerates the
      corrupted set it ends with. */
  ghost predicate SeedRuns(st: Setting, heads: seq<(FuncId, Value)>, stackBody: seq<(FuncId, Value)>,
                           lists: seq<seq<Value>>, ends: seq<Snap>, n: nat)
  {
    n <= |heads| && n <= |lists| && n < |ends| && forall i :: 0 <= i < n ==>
      SeedRun(st, [heads[i]] + stackBody, ends[i], ends[i + 1]) && Elements(lists[i]) == ends[i + 1].corrupted
  }

  lemma SeedRunsMore(st: Setting, heads: seq<(FuncId, Value)>, stackBody: seq<(FuncId, Value)>,
                     lists: seq<seq<Value>>, ends: seq<Snap>, list: seq<Value>, s': Snap)
    requires SeedRuns(st, heads, stackBody, lists, ends, |lists|) && |lists| < |heads| && |ends| == |lists| + 1
    ensures SeedRuns(st, heads, stackBody, lists + [list], ends + [s'], |lists|)
    ensures SeedRun(st, [heads[|lists|]] + stackBody, ends[|lists|], s') && Elements(list) == s'.corrupted ==>
      SeedRuns(st, heads, stackBody, lists + [list], ends + [s'], |lists| + 1)
  {
  }
}
