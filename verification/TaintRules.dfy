/** The analysed program and the rules by which one value's corruption may follow from others'. */
module TaintRules {
  import opened Wrappers
  import opened ControlFlow

  type Value = int
  type FuncId = int
  type FileLine = (string, int)

  /** Invokes count as Plain: only CallInst is treated as a call. */
  datatype Kind = Call(callee: Option<FuncId>) | Gep | Store | Branch | Plain

  datatype Inst = Inst(kind: Kind, operands: seq<Value>, fn: FuncId, block: Block, dbg: Option<FileLine>)

  /** Formal arguments and instructions in layout order; a declaration has no body. */
  datatype Func = Func(args: seq<Value>, body: seq<Value>, intrinsic: bool)

  datatype Program = Program(funcs: map<FuncId, Func>, insts: map<Value, Inst>) {
    ghost predicate WellFormed() {
      && (forall f :: f in funcs ==> forall k :: 0 <= k < |funcs[f].body| ==>
            funcs[f].body[k] in insts && insts[funcs[f].body[k]].fn == f)
      && (forall f, a :: f in funcs && a in funcs[f].args ==> a !in insts)
      && (forall v, o :: v in insts && o in insts[v].operands && o in insts ==> !insts[o].kind.Branch?)
      && (forall v :: v in insts && insts[v].kind.Gep? ==> |insts[v].operands| > 0)
      && (forall v :: v in insts && insts[v].kind.Store? ==> |insts[v].operands| > 1)
      && (forall v ::
        v in insts && insts[v].kind.Call? && insts[v].kind.callee.Some? ==> insts[v].kind.callee.value in funcs)
    }

    predicate IsKind(v: Value, k: Kind) {
      v in insts && insts[v].kind == k
    }

    predicate IsCall(v: Value) {
      v in insts && insts[v].kind.Call?
    }

    predicate Calls(v: Value, f: FuncId) {
      IsKind(v, Call(Some(f)))
    }

    /** The index operands of a GEP with two or three operands; None makes the source abort. */
    function Index(g: Value): Option<GepIndex> {
      if g !in insts then None
      else if |insts[g].operands| == 3 then Some(Pair(insts[g].operands[1], insts[g].operands[2]))
      else if |insts[g].operands| == 2 then Some(Single(insts[g].operands[1]))
      else None
    }
  }

  type Analysable = P: Program | P.WellFormed() witness Program(map[], map[])

  datatype GepIndex = Pair(first: Value, second: Value) | Single(idx: Value)

  /** The replayed call stack: `seeds` are its non-call frame instructions, and (v, f) in `resumes`
      says that v is the frame instruction to which the frame of function f returns. */
  datatype Frames = Frames(seeds: set<Value>, resumes: set<(Value, FuncId)>)

  ghost predicate HasOperand(P: Program, v: Value, prior: set<Value>) {
    v in P.insts && exists o :: o in P.insts[v].operands && o in prior
  }

  /** Whether an operand is corrupted: the search every operand loop starts with. */
  method CorruptedOperand(P: Program, v: Value, corrupted: set<Value>) returns (found: bool)
    requires v in P.insts
    ensures found <==> HasOperand(P, v, corrupted)
  {
    var ops := P.insts[v].operands;
    for i := 0 to |ops|
      invariant forall k :: 0 <= k < i ==> ops[k] !in corrupted
    {
      var o := ops[i];
      assert o in P.insts[v].operands;
      if o in corrupted { return true; }
    }
    return false;
  }

  ghost predicate StoreTarget(P: Program, v: Value, s: Value) {
    P.IsKind(s, Store) && |P.insts[s].operands| > 1 && P.insts[s].operands[1] == v
  }

  /** v is formal k of f, and the call c passes o there. */
  ghost predicate Passes(P: Program, c: Value, f: FuncId, k: nat, o: Value, v: Value) {
    P.Calls(c, f) && f in P.funcs && k < |P.funcs[f].args| && P.funcs[f].args[k] == v
    && k < |P.insts[c].operands| && P.insts[c].operands[k] == o
  }

  ghost predicate FormalOf(P: Program, v: Value, prior: set<Value>) {
    exists c, f, k, o :: Passes(P, c, f, k, o, v) && o in prior
  }

  /** Two GEPs of the same shape, with one or two index operands, and with equal ones. */
  ghost predicate SameIndex(P: Program, v: Value, g: Value) {
    && P.IsKind(v, Gep) && P.IsKind(g, Gep)
    && |P.insts[v].operands| == |P.insts[g].operands| && 2 <= |P.insts[g].operands| <= 3
    && P.insts[v].operands[1..] == P.insts[g].operands[1..]
  }

  /** Which is when they have equal recorded indices. */
  lemma SameIndexMeans(P: Program, v: Value, g: Value)
    requires P.IsKind(v, Gep) && P.IsKind(g, Gep)
    ensures SameIndex(P, v, g) <==> P.Index(g).Some? && P.Index(g) == P.Index(v)
  {
    var x, y := P.insts[v].operands, P.insts[g].operands;
    if |x| == |y| && 2 <= |x| <= 3 {
      assert x[1..][0] == x[1] && y[1..][0] == y[1];
      if |x| == 3 { assert x[1..][1] == x[2] && y[1..][1] == y[2]; }
      assert x[1..] == y[1..] <==> forall k :: 1 <= k < |x| ==> x[k] == y[k];
    }
  }

  /** g's index was recorded under o: a seed's under its base, any other's under its first index operand. */
  ghost predicate RecordedUnder(P: Program, fr: Frames, o: Value, g: Value) {
    P.IsKind(g, Gep) && |P.insts[g].operands| > 1
      && ((g in fr.seeds && P.insts[g].operands[0] == o) || P.insts[g].operands[1] == o)
  }

  /** g's index stands under k: recorded there, or handed on when a call passed its key to the formal k. */
  ghost predicate RecordedVia(P: Program, fr: Frames, k: Value, g: Value) {
    RecordedUnder(P, fr, k, g) || exists c, f, i, o :: Passes(P, c, f, i, o, k) && RecordedUnder(P, fr, o, g)
  }

  /** v is a GEP whose index equals one recorded for v's own base. */
  ghost predicate MatchesIndex(P: Program, fr: Frames, v: Value, prior: set<Value>) {
    exists g ::
      g in prior && SameIndex(P, v, g) && |P.insts[v].operands| > 0 && RecordedVia(P, fr, P.insts[v].operands[0], g)
  }

  ghost predicate BodylessCall(P: Program, fr: Frames, v: Value, prior: set<Value>) {
    exists f, o ::
      P.Calls(v, f) && f in P.funcs && P.funcs[f].body == [] && o in P.insts[v].operands
      && (o in prior || exists g :: g in prior && RecordedUnder(P, fr, o, g))
  }

  /** An instruction of f, not itself a call, is corrupted. */
  ghost predicate TaintIn(P: Program, f: FuncId, prior: set<Value>) {
    exists u :: u in prior && u in P.insts && P.insts[u].fn == f && !P.IsCall(u)
  }

  ghost predicate CalleeReturn(P: Program, v: Value, prior: set<Value>) {
    exists f :: P.Calls(v, f) && TaintIn(P, f, prior)
  }

  ghost predicate FrameReturn(P: Program, fr: Frames, v: Value, prior: set<Value>) {
    exists f :: (v, f) in fr.resumes && TaintIn(P, f, prior)
  }

  /** Everything that may put v on the list once `prior` is on it. */
  ghost predicate Justified(P: Program, fr: Frames, prior: set<Value>, v: Value) {
    || v in fr.seeds
    || (!P.IsCall(v) && HasOperand(P, v, prior))
    || (exists s :: s in prior && StoreTarget(P, v, s))
    || FormalOf(P, v, prior)
    || MatchesIndex(P, fr, v, prior)
    || BodylessCall(P, fr, v, prior)
    || CalleeReturn(P, v, prior)
    || FrameReturn(P, fr, v, prior)
  }

  ghost function Elements(s: seq<Value>): set<Value> {
    set v | v in s
  }

  ghost predicate NoDuplicates(s: seq<Value>) {
    forall i, j :: 0 <= i < j < |s| ==> s[i] != s[j]
  }

  /** Every entry of the list is justified by strictly earlier entries. */
  ghost predicate Provenance(P: Program, fr: Frames, ordered: seq<Value>) {
    forall i :: 0 <= i < |ordered| ==> Justified(P, fr, Elements(ordered[..i]), ordered[i])
  }

  lemma ProvenanceAppend(P: Program, fr: Frames, ordered: seq<Value>, v: Value)
    requires Provenance(P, fr, ordered) && Justified(P, fr, Elements(ordered), v)
    ensures Provenance(P, fr, ordered + [v])
    ensures Elements(ordered + [v]) == Elements(ordered) + {v}
  {
    var s := ordered + [v];
    forall i | 0 <= i < |s| ensures Justified(P, fr, Elements(s[..i]), s[i]) {
      if i < |ordered| { assert s[..i] == ordered[..i]; } else { assert s[..i] == ordered; }
    }
  }

  /** Every recorded index belongs to a corrupted GEP that was recorded under its key. */
  ghost predicate PointersRecorded(P: Program, fr: Frames, corrupted: set<Value>, ptr: map<Value, seq<GepIndex>>) {
    forall k :: k in ptr ==> ptr[k] != [] && forall r :: r in ptr[k] ==> Recorded(P, fr, corrupted, k, r)
  }

  ghost predicate Recorded(P: Program, fr: Frames, corrupted: set<Value>, k: Value, r: GepIndex) {
    exists g :: g in corrupted && P.IsKind(g, Gep) && P.Index(g) == Some(r) && RecordedVia(P, fr, k, g)
  }

  lemma PointersGrow(P: Program, fr: Frames, corrupted: set<Value>, more: set<Value>, ptr: map<Value, seq<GepIndex>>)
    requires PointersRecorded(P, fr, corrupted, ptr) && corrupted <= more
    ensures PointersRecorded(P, fr, more, ptr)
  {
  }

  /** A key that is an instruction leads back to a corrupted GEP recorded under it. */
  lemma PointerKey(P: Program, fr: Frames, corrupted: set<Value>, ptr: map<Value, seq<GepIndex>>, o: Value)
    requires P.WellFormed() && PointersRecorded(P, fr, corrupted, ptr) && o in ptr && o in P.insts
    ensures exists g :: g in corrupted && RecordedUnder(P, fr, o, g)
  {
    var r := ptr[o][0];
    assert r in ptr[o] && Recorded(P, fr, corrupted, o, r);
    var g :| g in corrupted && RecordedVia(P, fr, o, g);
    NoFormalIsInstruction(P, o);
  }

  lemma NoFormalIsInstruction(P: Program, k: Value)
    requires P.WellFormed()
    ensures forall c, f, i, o :: Passes(P, c, f, i, o, k) ==> k !in P.insts
  {
    forall c, f, i, o | Passes(P, c, f, i, o, k) ensures k !in P.insts { assert k in P.funcs[f].args; }
  }

  /** What a call hands on with an argument stands under the formal afterwards. */
  lemma HandedOn(P: Program, fr: Frames, corrupted: set<Value>, c: Value, f: FuncId, i: nat, o: Value, k: Value,
                 r: GepIndex)
    requires P.WellFormed() && o in P.insts && Passes(P, c, f, i, o, k) && Recorded(P, fr, corrupted, o, r)
    ensures Recorded(P, fr, corrupted, k, r)
  {
    NoFormalIsInstruction(P, o);
    var g :| g in corrupted && P.IsKind(g, Gep) && P.Index(g) == Some(r) && RecordedVia(P, fr, o, g);
    assert RecordedUnder(P, fr, o, g) && RecordedVia(P, fr, k, g);
  }

  /** The pointer table after recording g's index under key. */
  ghost function Recording(P: Program, ptr: map<Value, seq<GepIndex>>, g: Value, key: Value): map<Value, seq<GepIndex>>
    requires P.Index(g).Some?
  {
    ptr[key := (if key in ptr then ptr[key] else []) + [P.Index(g).value]]
  }

  /** The pointer table after the first n formals: each takes over the list of its actual. */
  ghost function PassedPointers(formals: seq<Value>, args: map<nat, Value>, ptr: map<Value, seq<GepIndex>>,
                                n: nat): map<Value, seq<GepIndex>>
    requires n <= |formals|
  {
    if n == 0 then ptr
    else
      var before := PassedPointers(formals, args, ptr, n - 1);
      if n - 1 in args && args[n - 1] in before then before[formals[n - 1] := before[args[n - 1]]] else before
  }

  lemma TaintInGrows(P: Program, f: FuncId, corrupted: set<Value>, more: set<Value>)
    requires TaintIn(P, f, corrupted) && corrupted <= more
    ensures TaintIn(P, f, more)
  {
  }

  /** Sets with the same size, one inside the other, are equal: why comparing sizes is enough for a
      set that only grows. */
  lemma SameSizeSameSet(s: set<Value>, t: set<Value>)
    requires s <= t && |s| == |t|
    ensures s == t
  {
    assert t == s + (t - s);
    assert |t - s| == 0;
  }

  lemma Smaller(s: set<Value>, t: set<Value>)
    requires s <= t
    ensures |s| <= |t|
  {
    assert t == s + (t - s);
  }

  lemma PushShrinks(funcs: set<FuncId>, stack: set<FuncId>, f: FuncId)
    requires f in funcs && f !in stack
    ensures |funcs - (stack + {f})| < |funcs - stack|
  {
    assert funcs - (stack + {f}) == (funcs - stack) - {f};
  }

  // ----- branches that control calls

  /** Per function, the answers of its finished control dependence graph; absent without a graph. */
  type Answers = map<FuncId, set<(Block, Block)>>

  predicate Influenced(P: Program, answers: Answers, b: Value, v: Value) {
    b in P.insts && v in P.insts && P.insts[b].fn == P.insts[v].fn && P.insts[b].fn in answers
    && (P.insts[b].block, P.insts[v].block) in answers[P.insts[b].fn]
  }

  ghost predicate InfluencesSome(P: Program, answers: Answers, b: Value, calls: seq<Value>) {
    exists c :: c in calls && Influenced(P, answers, b, c)
  }

  ghost predicate InfluencedBySome(P: Program, answers: Answers, branches: seq<Value>, v: Value) {
    exists b :: b in branches && Influenced(P, answers, b, v)
  }

  /** Only listed branches that influence a listed call, once each. */
  ghost predicate Controlling(P: Program, answers: Answers, brs: seq<Value>, calls: seq<Value>, list: seq<Value>) {
    NoDuplicates(list) && forall b :: b in list ==> b in brs && InfluencesSome(P, answers, b, calls)
  }

  ghost predicate AllControlling(P: Program, answers: Answers, brs: seq<Value>, calls: seq<Value>,
                                 stored: map<FileLine, seq<Value>>)
  {
    forall loc :: loc in stored ==> Controlling(P, answers, brs, calls, stored[loc])
  }

  lemma ControllingGrows(P: Program, answers: Answers, brs: seq<Value>, calls: seq<Value>, brs': seq<Value>,
                         calls': seq<Value>,
                         stored: map<FileLine, seq<Value>>)
    requires AllControlling(P, answers, brs, calls, stored)
    requires (forall b :: b in brs ==> b in brs') && (forall c :: c in calls ==> c in calls')
    ensures AllControlling(P, answers, brs', calls', stored)
  {
    forall loc | loc in stored ensures Controlling(P, answers, brs', calls', stored[loc]) {
      assert Controlling(P, answers, brs, calls, stored[loc]);
      forall b | b in stored[loc] ensures b in brs' && InfluencesSome(P, answers, b, calls') {
        var c :| c in calls && Influenced(P, answers, b, c);
      }
    }
  }

  // ----- what every step of the analysis keeps

  /** `ordered` enumerates `corrupted` without duplicates, and every entry is justified by earlier ones. */
  ghost predicate Enumerates(P: Program, fr: Frames, ordered: seq<Value>, corrupted: set<Value>,
                             ptr: map<Value, seq<GepIndex>>)
  {
    && NoDuplicates(ordered) && Elements(ordered) == corrupted
    && Provenance(P, fr, ordered)
    && PointersRecorded(P, fr, corrupted, ptr)
  }

  /** Branches and calls are listed once, and every stored list holds, once each, only listed branches
      that influence a listed call. */
  ghost predicate ListsSites(P: Program, answers: Answers, brs: seq<Value>, calls: seq<Value>,
                             interPtr: map<FileLine, seq<Value>>, interFunc: map<FileLine, seq<Value>>)
  {
    && NoDuplicates(brs) && (forall b :: b in brs ==> P.IsKind(b, Branch))
    && NoDuplicates(calls) && (forall c :: c in calls ==> P.IsCall(c))
    && AllControlling(P, answers, brs, calls, interPtr) && AllControlling(P, answers, brs, calls, interFunc)
  }

  /** Sizes of the corrupted set recorded at a function's entry and exit. */
  datatype EnterExit = EnterExit(enterVal: nat, exitVal: nat)

  /** The memo when a function is entered: its entry size is recorded the first time, and again whenever it
      last left with nothing new. */
  ghost function Entered(memo: map<FuncId, EnterExit>, f: FuncId, size: nat): map<FuncId, EnterExit> {
    if f !in memo then memo[f := EnterExit(size, 0)]
    else if memo[f].enterVal == memo[f].exitVal then memo[f := EnterExit(size, memo[f].exitVal)]
    else memo
  }

  /** The memo when it is left. */
  ghost function Left(memo: map<FuncId, EnterExit>, f: FuncId, size: nat): map<FuncId, EnterExit> {
    memo[f := EnterExit(if f in memo then memo[f].enterVal else 0, size)]
  }

  /** The memo's sizes are the sizes of real earlier taint sets. */
  ghost predicate Remembers(memo: map<FuncId, EnterExit>, enterSet: map<FuncId, set<Value>>,
                            exitSet: map<FuncId, set<Value>>,
                            corrupted: set<Value>)
  {
    forall f :: f in memo ==>
      && f in enterSet && f in exitSet
      && enterSet[f] <= corrupted && |enterSet[f]| == memo[f].enterVal
      && exitSet[f] <= corrupted && |exitSet[f]| == memo[f].exitVal
  }

  lemma RemembersMore(memo: map<FuncId, EnterExit>, enterSet: map<FuncId, set<Value>>, exitSet: map<FuncId, set<Value>>,
                      corrupted: set<Value>, more: set<Value>)
    requires Remembers(memo, enterSet, exitSet, corrupted) && corrupted <= more
    ensures Remembers(memo, enterSet, exitSet, more)
  {
  }

  /** `earlier` holds what was listed before this seed. Every listed branch was corrupted, now or earlier,
      and every corrupted branch is listed, unless it is itself a frame instruction. */
  ghost predicate BranchesListed(P: Program, fr: Frames, brs: seq<Value>, corrupted: set<Value>, earlier: set<Value>) {
    && (forall b :: b in brs ==> b in earlier || b in corrupted)
    && (forall b :: b in earlier ==> b in brs)
    && (forall b :: b in corrupted && P.IsKind(b, Branch) ==> b in fr.seeds || b in brs)
  }

  ghost predicate BranchExcused(P: Program, fr: Frames, brs: seq<Value>, v: Value) {
    P.IsKind(v, Branch) ==> v in fr.seeds || v in brs
  }

  lemma BranchesKept(P: Program, fr: Frames, brs: seq<Value>, corrupted: set<Value>, earlier: set<Value>, v: Value)
    requires BranchesListed(P, fr, brs, corrupted, earlier)
    ensures BranchExcused(P, fr, brs, v) ==> BranchesListed(P, fr, brs, corrupted + {v}, earlier)
    ensures BranchesListed(P, fr, if v in brs then brs else brs + [v], corrupted + {v}, earlier)
  {
  }

  /** A store's operands are no branches, so its target needs no entry. */
  lemma OperandExcused(P: Program, fr: Frames, brs: seq<Value>, v: Value, k: nat)
    requires P.WellFormed() && v in P.insts && k < |P.insts[v].operands|
    ensures BranchExcused(P, fr, brs, P.insts[v].operands[k])
  {
    var o := P.insts[v].operands[k];
    assert o in P.insts[v].operands;
  }

  lemma Enumerated(P: Program, fr: Frames, ordered: seq<Value>, corrupted: set<Value>, ptr: map<Value, seq<GepIndex>>)
    requires Enumerates(P, fr, ordered, corrupted, ptr)
    ensures NoDuplicates(ordered) && Elements(ordered) == corrupted && Provenance(P, fr, ordered)
  {
  }

  lemma BranchesOfSeed(P: Program, fr: Frames, brs: seq<Value>, corrupted: set<Value>, earlier: set<Value>,
                       ordered: seq<Value>, brs0: seq<Value>)
    requires BranchesListed(P, fr, brs, corrupted, earlier) && Elements(ordered) == corrupted
    requires earlier == Elements(brs0)
    ensures forall b :: b in brs ==> b in brs0 || b in ordered
    ensures forall b :: b in brs0 ==> b in brs
    ensures forall b :: b in ordered && P.IsKind(b, Branch) ==> b in fr.seeds || b in brs
  {
    assert forall b :: b in ordered ==> b in Elements(ordered);
    assert forall b :: b in brs0 ==> b in Elements(brs0);
    assert forall b :: b in Elements(ordered) ==> b in ordered;
    assert forall b :: b in Elements(brs0) ==> b in brs0;
  }

  ghost predicate OnSomeList(lists: seq<seq<Value>>, b: Value) {
    exists i :: 0 <= i < |lists| && b in lists[i]
  }

  /** After several seeds: a listed branch was listed before all of them or is on one of their lists. */
  ghost predicate ListedFrom(before: seq<Value>, lists: seq<seq<Value>>, brs: seq<Value>) {
    && (forall b :: b in brs ==> b in before || OnSomeList(lists, b))
    && (forall b :: b in before ==> b in brs)
  }

  lemma ListedFromMore(before: seq<Value>, lists: seq<seq<Value>>, brs: seq<Value>, list: seq<Value>, brs': seq<Value>)
    requires ListedFrom(before, lists, brs)
    requires (forall b :: b in brs' ==> b in brs || b in list) && (forall b :: b in brs ==> b in brs')
    ensures ListedFrom(before, lists + [list], brs')
  {
    var all := lists + [list];
    assert all[|lists|] == list;
    forall b | OnSomeList(lists, b) ensures OnSomeList(all, b) {
      var i :| 0 <= i < |lists| && b in lists[i];
      assert all[i] == lists[i];
    }
  }

  lemma NothingYet(P: Program, fr: Frames, brs: seq<Value>)
    ensures Enumerates(P, fr, [], {}, map[]) && Remembers(map[], map[], map[], {})
    ensures BranchesListed(P, fr, brs, {}, Elements(brs))
  {
  }

  lemma EnumeratesAppend(P: Program, fr: Frames, ordered: seq<Value>, corrupted: set<Value>,
                         ptr: map<Value, seq<GepIndex>>, v: Value)
    requires Enumerates(P, fr, ordered, corrupted, ptr) && v !in corrupted && Justified(P, fr, corrupted, v)
    ensures Enumerates(P, fr, ordered + [v], corrupted + {v}, ptr)
  {
    ProvenanceAppend(P, fr, ordered, v);
    PointersGrow(P, fr, corrupted, corrupted + {v}, ptr);
    assert v !in ordered by { assert v in ordered ==> v in Elements(ordered); }
  }

  // ----- what single steps add

  /** A plain instruction that its operands newly corrupt. */
  ghost predicate Fresh(P: Program, S: set<Value>, v: Value) {
    !P.IsCall(v) && !P.IsKind(v, Gep) && v !in S && HasOperand(P, v, S)
  }

  ghost function PlainEffect(P: Program, S: set<Value>, v: Value): set<Value> {
    if !Fresh(P, S, v) then S
    else S + {v} + (if P.IsKind(v, Store) && |P.insts[v].operands| > 1 then {P.insts[v].operands[1]} else {})
  }

  ghost predicate IndexMatched(P: Program, ptr: map<Value, seq<GepIndex>>, v: Value) {
    v in P.insts && |P.insts[v].operands| > 0 && P.insts[v].operands[0] in ptr
    && P.Index(v).Some? && P.Index(v).value in ptr[P.insts[v].operands[0]]
  }

  /** The first n formals, as far as these corrupted arguments corrupt them. */
  ghost function PassedFormals(formals: seq<Value>, args: map<nat, Value>, S: set<Value>, n: nat): set<Value>
    requires n <= |formals|
  {
    if n == 0 then {}
    else PassedFormals(formals, args, S, n - 1) + (if n - 1 in args && args[n - 1] in S then {formals[n - 1]} else {})
  }

  /** Such a formal is corrupted exactly when its actual is. */
  lemma {:induction false} PassedFormalsAre(formals: seq<Value>, args: map<nat, Value>, S: set<Value>, n: nat)
    requires n <= |formals|
    ensures forall v :: v in PassedFormals(formals, args, S, n) <==>
      exists k :: 0 <= k < n && k in args && args[k] in S && formals[k] == v
  {
    if n > 0 { PassedFormalsAre(formals, args, S, n - 1); }
  }

  /** Lists of keys that are no formals stay as they are. */
  lemma {:induction false} PassedPointersKeep(formals: seq<Value>, args: map<nat, Value>,
                                              ptr: map<Value, seq<GepIndex>>,
                                              n: nat, key: Value)
    requires n <= |formals| && key !in formals
    ensures key in PassedPointers(formals, args, ptr, n) <==> key in ptr
    ensures key in ptr ==> PassedPointers(formals, args, ptr, n)[key] == ptr[key]
  {
    if n > 0 {
      PassedPointersKeep(formals, args, ptr, n - 1, key);
      assert formals[n - 1] in formals;
    }
  }

  /** A formal ends with the list of its actual. */
  lemma {:induction false} PassedPointersGive(formals: seq<Value>, args: map<nat, Value>,
                                              ptr: map<Value, seq<GepIndex>>,
                                              n: nat, k: nat)
    requires k < n <= |formals| && NoDuplicates(formals) && k in args && args[k] in ptr && args[k] !in formals
    ensures formals[k] in PassedPointers(formals, args, ptr, n)
    ensures PassedPointers(formals, args, ptr, n)[formals[k]] == ptr[args[k]]
  {
    PassedPointersKeep(formals, args, ptr, n - 1, args[k]);
    if k < n - 1 { PassedPointersGive(formals, args, ptr, n - 1, k); }
  }

  lemma {:induction false} PassNothing(formals: seq<Value>, S: set<Value>, ptr: map<Value, seq<GepIndex>>, n: nat)
    requires n <= |formals|
    ensures PassedFormals(formals, map[], S, n) == {} && PassedPointers(formals, map[], ptr, n) == ptr
  {
    if n > 0 { PassNothing(formals, S, ptr, n - 1); }
  }

  /** The arguments that carry corruption into a call, by operand position. */
  ghost predicate Carried(P: Program, v: Value, corrupted: set<Value>, ptr: map<Value, seq<GepIndex>>,
                          args: map<nat, Value>)
    requires v in P.insts
  {
    var ops := P.insts[v].operands;
    && (forall k: nat :: k in args <==> k < |ops| && ops[k] in P.insts && (ops[k] in corrupted || ops[k] in ptr))
    && (forall k :: k in args ==> args[k] == ops[k])
  }

  /** A call that is passed over: indirect, intrinsic, or already on the stack. */
  ghost predicate PassedOver(P: Program, v: Value, onStack: set<FuncId>)
    requires P.IsCall(v)
  {
    var callee := P.insts[v].kind.callee;
    callee.None? || callee.value !in P.funcs || P.funcs[callee.value].intrinsic || callee.value in onStack
  }
}
