/** The single forward pass of the sync-loop analysis, mixing data and control taint. */
module SyncLoop {
  import opened Wrappers
  import opened ControlFlow
  import opened ControlDependence
  import opened DependenceGraph
  import opened TaintRules

  /** b's block influences v's in the function's graph; without a graph nothing is influenced. */
  ghost predicate BranchInfluences(P: Program, cfg: Function, hasGraph: bool, b: Value, v: Value) {
    hasGraph && b in P.insts && v in P.insts && Influences(cfg, P.insts[b].block, P.insts[v].block)
  }

  ghost predicate Matched(P: Program, ptr: map<Value, seq<GepIndex>>, v: Value) {
    P.IsKind(v, Gep) && IndexMatched(P, ptr, v)
  }

  /** g's index stands under its first index operand k. */
  ghost predicate KeyedBy(P: Program, k: Value, g: Value) {
    P.IsKind(g, Gep) && |P.insts[g].operands| > 1 && P.insts[g].operands[1] == k
  }

  ghost predicate KeyedByBase(P: Program, v: Value, g: Value) {
    v in P.insts && |P.insts[v].operands| > 0 && KeyedBy(P, P.insts[v].operands[0], g)
  }

  /** Why v may join the list after `prior`. */
  ghost predicate Caused(P: Program, cfg: Function, hasGraph: bool, seed: Value, prior: set<Value>, v: Value) {
    || v == seed
    || HasOperand(P, v, prior)
    || (exists s :: s in prior && StoreTarget(P, v, s))
    || (exists g :: g in prior && SameIndex(P, v, g) && KeyedByBase(P, v, g))
    || (exists b :: b in prior && P.IsKind(b, Branch) && BranchInfluences(P, cfg, hasGraph, b, v))
  }

  /** Every entry from `base` on is caused by earlier ones. */
  ghost predicate CausedFrom(P: Program, cfg: Function, hasGraph: bool, seed: Value, ordered: seq<Value>, base: nat) {
    forall i :: base <= i < |ordered| ==> Caused(P, cfg, hasGraph, seed, Elements(ordered[..i]), ordered[i])
  }

  lemma CausedAppend(P: Program, cfg: Function, hasGraph: bool, seed: Value, ordered: seq<Value>, base: nat, v: Value)
    requires CausedFrom(P, cfg, hasGraph, seed, ordered, base) && Caused(P, cfg, hasGraph, seed, Elements(ordered), v)
    ensures CausedFrom(P, cfg, hasGraph, seed, ordered + [v], base)
    ensures Elements(ordered + [v]) == Elements(ordered) + {v}
  {
    var s := ordered + [v];
    forall i | base <= i < |s| ensures Caused(P, cfg, hasGraph, seed, Elements(s[..i]), s[i]) {
      if i < |ordered| { assert s[..i] == ordered[..i]; } else { assert s[..i] == ordered; }
    }
  }

  ghost predicate IndicesRecorded(P: Program, corrupted: set<Value>, ptr: map<Value, seq<GepIndex>>) {
    forall k, r :: k in ptr && r in ptr[k] ==> SomeGep(P, corrupted, k, r)
  }

  ghost predicate SomeGep(P: Program, corrupted: set<Value>, k: Value, r: GepIndex) {
    exists g :: g in corrupted && KeyedBy(P, k, g) && P.Index(g) == Some(r)
  }

  lemma IndicesGrow(P: Program, corrupted: set<Value>, more: set<Value>, ptr: map<Value, seq<GepIndex>>)
    requires IndicesRecorded(P, corrupted, ptr) && corrupted <= more
    ensures IndicesRecorded(P, more, ptr)
  {
    forall k, r | k in ptr && r in ptr[k] ensures SomeGep(P, more, k, r) {
      assert SomeGep(P, corrupted, k, r);
    }
  }

  // ----- why the short branch list is enough

  /** A branch this pass corrupted itself: not the seed, not corrupted before. */
  ghost predicate OwnBranch(P: Program, seed: Value, before: set<Value>, corrupted: set<Value>, v: Value) {
    P.IsKind(v, Branch) && v != seed && v !in before && v in corrupted
  }

  /** The pairs (b, v) of body instructions with b's block influencing v's. */
  ghost function ControlPairs(P: Program, cfg: Function, hasGraph: bool, body: seq<Value>): set<(Value, Value)> {
    set b, v | b in body && v in body && BranchInfluences(P, cfg, hasGraph, b, v) :: (b, v)
  }

  /** Walking body[start..i]: local holds the branches corrupted by data, every other own branch lies
      under an earlier local one, and everything after a local branch and under it is corrupted. */
  ghost predicate Covered(P: Program, pairs: set<(Value, Value)>, body: seq<Value>, start: nat, i: nat,
                          seed: Value, before: set<Value>, corrupted: set<Value>, local: seq<Value>)
    requires start <= i <= |body|
  {
    && (forall b :: b in local ==> b in body[start..i] && P.IsKind(b, Branch) && b in corrupted)
    && (forall p :: start <= p < i && OwnBranch(P, seed, before, corrupted, body[p]) ==>
          body[p] in local || exists q :: start <= q < p && body[q] in local && (body[q], body[p]) in pairs)
    && (forall p, k :: start <= p < k < i && body[p] in local && (body[p], body[k]) in pairs ==> body[k] in corrupted)
    && (forall p :: i <= p < |body| ==> !OwnBranch(P, seed, before, corrupted, body[p]))
  }

  /** One more instruction. */
  lemma CoverStep(P: Program, pairs: set<(Value, Value)>, body: seq<Value>, start: nat, i: nat,
                  seed: Value, before: set<Value>, corrupted: set<Value>, local: seq<Value>, corrupted': set<Value>,
                  local': seq<Value>)
    requires start <= i < |body| && NoDuplicates(body)
    requires Covered(P, pairs, body, start, i, seed, before, corrupted, local)
    requires corrupted <= corrupted'
    requires forall b :: P.IsKind(b, Branch) && b in corrupted' ==> b in corrupted || b == body[i]
    requires (exists b :: b in local && (b, body[i]) in pairs) ==> body[i] in corrupted'
    requires local' == local || (local' == local + [body[i]] && P.IsKind(body[i], Branch) && body[i] in corrupted')
    requires P.IsKind(body[i], Branch) && body[i] in corrupted' && body[i] !in corrupted && local' == local ==>
      exists b :: b in local && (b, body[i]) in pairs
    ensures Covered(P, pairs, body, start, i + 1, seed, before, corrupted', local')
  {
  }

  /** The point of the pass: everything laid out after one of its own corrupted branches and influenced
      by it is corrupted, although the branch itself may be missing from the local list. */
  lemma InfluencedAfterBranch(P: Program, cfg: Function, hasGraph: bool, body: seq<Value>, start: nat,
                              seed: Value, before: set<Value>, corrupted: set<Value>, local: seq<Value>, j: nat, k: nat)
    requires start <= j < k < |body|
    requires Covered(P, ControlPairs(P, cfg, hasGraph, body), body, start, |body|, seed, before, corrupted, local)
    requires OwnBranch(P, seed, before, corrupted, body[j]) && BranchInfluences(P, cfg, hasGraph, body[j], body[k])
    ensures body[k] in corrupted
  {
    var pairs := ControlPairs(P, cfg, hasGraph, body);
    assert (body[j], body[k]) in pairs;
    if body[j] !in local {
      var q :| start <= q < j && body[q] in local && (body[q], body[j]) in pairs;
      InfluencesTransitive(cfg, P.insts[body[q]].block, P.insts[body[j]].block, P.insts[body[k]].block);
      assert (body[q], body[k]) in pairs;
    }
  }

  /** Everything from the seed on that a branch corrupted by this call influences is corrupted. */
  ghost predicate Complete(P: Program, cfg: Function, hasGraph: bool, body: seq<Value>, seed: Value, before: set<Value>,
                           corrupted: set<Value>)
  {
    forall s, j, k | 0 <= s <= j < k < |body| && body[s] == seed ::
      OwnBranch(P, seed, before, corrupted, body[j]) && BranchInfluences(P, cfg, hasGraph, body[j], body[k]) ==>
        body[k] in corrupted
  }

  /** From the seed on, whatever uses a value of S is corrupted. */
  ghost predicate Forward(P: Program, body: seq<Value>, seed: Value, S: set<Value>, corrupted: set<Value>) {
    forall s, k | 0 <= s <= k < |body| && body[s] == seed :: HasOperand(P, body[k], S) ==> body[k] in corrupted
  }

  // ----- the pass, instruction by instruction

  /** What one call of the pass works on; `local` lists the branches it corrupted by data. */
  datatype Pass = Pass(corrupted: set<Value>, ptr: map<Value, seq<GepIndex>>, brs: seq<Value>, local: seq<Value>)

  /** Operand counts, and that a branch has no result to be used. */
  ghost predicate Shaped(P: Program, v: Value) {
    && v in P.insts
    && (P.IsKind(v, Gep) ==> |P.insts[v].operands| > 0)
    && (P.IsKind(v, Store) ==> |P.insts[v].operands| > 1)
    && (forall o :: o in P.insts[v].operands ==> !P.IsKind(o, Branch))
  }

  ghost predicate UnderSome(P: Program, cfg: Function, hasGraph: bool, local: seq<Value>, v: Value) {
    exists b :: b in local && BranchInfluences(P, cfg, hasGraph, b, v)
  }

  /** Reached by data alone, for the first time. */
  ghost predicate Taken(P: Program, cfg: Function, hasGraph: bool, v: Value, s: Pass) {
    !UnderSome(P, cfg, hasGraph, s.local, v) && !P.IsKind(v, Gep) && v !in s.corrupted && HasOperand(P, v, s.corrupted)
  }

  /** A GEP that its operands newly corrupt, so that its index is to be recorded. */
  ghost predicate Indexed(P: Program, cfg: Function, hasGraph: bool, v: Value, s: Pass) {
    && !UnderSome(P, cfg, hasGraph, s.local, v) && P.IsKind(v, Gep) && !IndexMatched(P, s.ptr, v)
    && v !in s.corrupted && HasOperand(P, v, s.corrupted)
  }

  ghost function Passing(P: Program, cfg: Function, hasGraph: bool, v: Value, s: Pass): Pass {
    var reached := UnderSome(P, cfg, hasGraph, s.local, v) || Matched(P, s.ptr, v) || HasOperand(P, v, s.corrupted);
    var taken := Taken(P, cfg, hasGraph, v, s);
    var target := taken && P.IsKind(v, Store) && |P.insts[v].operands| > 1;
    var recorded := Indexed(P, cfg, hasGraph, v, s) && P.Index(v).Some?;
    Pass(s.corrupted + (if reached then {v} else {}) + (if target then {P.insts[v].operands[1]} else {}),
         if recorded then Recording(P, s.ptr, v, P.insts[v].operands[1]) else s.ptr,
         if taken && P.IsKind(v, Branch) && v !in s.brs then s.brs + [v] else s.brs,
         if taken && P.IsKind(v, Branch) then s.local + [v] else s.local)
  }

  /** The states before and after each of the first n instructions from the seed on. */
  ghost predicate PassTrace(P: Program, cfg: Function, hasGraph: bool, rest: seq<Value>, trace: seq<Pass>, n: nat) {
    && n <= |rest| && |trace| == n + 1
    && forall j :: 0 <= j < n ==> trace[j + 1] == Passing(P, cfg, hasGraph, rest[j], trace[j])
  }

  ghost predicate AnyTaken(P: Program, cfg: Function, hasGraph: bool, rest: seq<Value>, trace: seq<Pass>, n: nat)
    requires n <= |rest| && n <= |trace|
  {
    exists j :: 0 <= j < n && Taken(P, cfg, hasGraph, rest[j], trace[j])
  }

  lemma PassExtend(P: Program, cfg: Function, hasGraph: bool, rest: seq<Value>, trace: seq<Pass>, n: nat, s': Pass)
    requires PassTrace(P, cfg, hasGraph, rest, trace, n) && n < |rest|
    requires s' == Passing(P, cfg, hasGraph, rest[n], trace[n])
    ensures PassTrace(P, cfg, hasGraph, rest, trace + [s'], n + 1)
    ensures AnyTaken(P, cfg, hasGraph, rest, trace + [s'], n + 1) <==>
      AnyTaken(P, cfg, hasGraph, rest, trace, n) || Taken(P, cfg, hasGraph, rest[n], trace[n])
  {
    hide Passing, Taken;
    var all := trace + [s'];
    assert all[n] == trace[n] && all[n + 1] == s';
    forall j | 0 <= j < n + 1 ensures all[j + 1] == Passing(P, cfg, hasGraph, rest[j], all[j]) {
      if j < n { assert all[j] == trace[j] && all[j + 1] == trace[j + 1]; }
    }
    assert forall j :: 0 <= j <= n ==> all[j] == trace[j];
  }

  lemma {:induction false} PassGrows(P: Program, cfg: Function, hasGraph: bool, rest: seq<Value>, trace: seq<Pass>,
                                     n: nat,
                                     i: nat, j: nat)
    requires PassTrace(P, cfg, hasGraph, rest, trace, n) && i <= j <= n
    ensures trace[i].corrupted <= trace[j].corrupted && forall b :: b in trace[i].brs ==> b in trace[j].brs
    ensures forall k, r :: k in trace[i].ptr && r in trace[i].ptr[k] ==> k in trace[j].ptr && r in trace[j].ptr[k]
    decreases j - i
  {
    if i < j {
      PassGrows(P, cfg, hasGraph, rest, trace, n, i, j - 1);
      assert trace[j - 1 + 1] == Passing(P, cfg, hasGraph, rest[j - 1], trace[j - 1]);
    }
  }

  /** The local branches lie before the instruction and are corrupted. */
  lemma {:induction false} LocalBefore(P: Program, cfg: Function, hasGraph: bool, rest: seq<Value>, trace: seq<Pass>,
                                       n: nat,
                                       j: nat, b: Value)
    requires PassTrace(P, cfg, hasGraph, rest, trace, n) && trace[0].local == [] && j <= n && b in trace[j].local
    ensures P.IsKind(b, Branch) && b in trace[j].corrupted && exists q :: 0 <= q < j && rest[q] == b
    decreases j
  {
    assert trace[j - 1 + 1] == Passing(P, cfg, hasGraph, rest[j - 1], trace[j - 1]);
    if b in trace[j - 1].local { LocalBefore(P, cfg, hasGraph, rest, trace, n, j - 1, b); }
  }

  // ----- what follows for the result of a pass

  /** Whatever uses a value that was corrupted before its turn is corrupted in the end. */
  ghost predicate UsesFollowed(P: Program, rest: seq<Value>, trace: seq<Pass>) {
    |trace| == |rest| + 1 && forall j :: 0 <= j < |rest| ==>
      HasOperand(P, rest[j], trace[j].corrupted) ==> rest[j] in trace[|rest|].corrupted
  }

  /** No corrupted branch of the pass laid out before instruction j influences it. */
  ghost predicate Uncontrolled(P: Program, cfg: Function, hasGraph: bool, rest: seq<Value>, S: set<Value>, j: nat)
    requires j < |rest|
  {
    forall q :: 0 <= q < j && P.IsKind(rest[q], Branch) && rest[q] in S ==>
      !BranchInfluences(P, cfg, hasGraph, rest[q], rest[j])
  }

  /** A clean store whose operand was corrupted before its turn corrupts its target, unless a corrupted
      branch controls it. */
  ghost predicate StoresFollowed(P: Program, cfg: Function, hasGraph: bool, rest: seq<Value>, trace: seq<Pass>) {
    |trace| == |rest| + 1 && forall j :: 0 <= j < |rest| ==>
      StoreFollowed(P, cfg, hasGraph, rest, j, trace[j].corrupted, trace[|rest|].corrupted)
  }

  ghost predicate StoreFollowed(P: Program, cfg: Function, hasGraph: bool, rest: seq<Value>, j: nat, S: set<Value>,
                                last: set<Value>)
    requires j < |rest|
  {
    (P.IsKind(rest[j], Store) && |P.insts[rest[j]].operands| > 1 && rest[j] !in S && HasOperand(P, rest[j], S)
     && Uncontrolled(P, cfg, hasGraph, rest, S, j)) ==> P.insts[rest[j]].operands[1] in last
  }

  /** A clean branch whose condition was corrupted before its turn is listed, unless a corrupted branch
      controls it. */
  ghost predicate BranchesFollowed(P: Program, cfg: Function, hasGraph: bool, rest: seq<Value>, trace: seq<Pass>) {
    |trace| == |rest| + 1 && forall j :: 0 <= j < |rest| ==>
      BranchFollowed(P, cfg, hasGraph, rest, j, trace[j].corrupted, trace[|rest|].brs)
  }

  ghost predicate BranchFollowed(P: Program, cfg: Function, hasGraph: bool, rest: seq<Value>, j: nat, S: set<Value>,
                                 brs: seq<Value>)
    requires j < |rest|
  {
    (P.IsKind(rest[j], Branch) && rest[j] !in S && HasOperand(P, rest[j], S)
     && Uncontrolled(P, cfg, hasGraph, rest, S, j)) ==> rest[j] in brs
  }

  lemma DataFollowed(P: Program, cfg: Function, hasGraph: bool, rest: seq<Value>, trace: seq<Pass>)
    requires PassTrace(P, cfg, hasGraph, rest, trace, |rest|) && trace[0].local == []
    ensures UsesFollowed(P, rest, trace) && StoresFollowed(P, cfg, hasGraph, rest, trace)
    ensures BranchesFollowed(P, cfg, hasGraph, rest, trace)
  {
    hide BranchInfluences, Indexed;
    forall j | 0 <= j < |rest|
      ensures HasOperand(P, rest[j], trace[j].corrupted) ==> rest[j] in trace[|rest|].corrupted
      ensures StoreFollowed(P, cfg, hasGraph, rest, j, trace[j].corrupted, trace[|rest|].corrupted)
      ensures BranchFollowed(P, cfg, hasGraph, rest, j, trace[j].corrupted, trace[|rest|].brs)
    {
      assert trace[j + 1] == Passing(P, cfg, hasGraph, rest[j], trace[j]);
      PassGrows(P, cfg, hasGraph, rest, trace, |rest|, j + 1, |rest|);
      if Uncontrolled(P, cfg, hasGraph, rest, trace[j].corrupted, j) {
        forall b | b in trace[j].local ensures !BranchInfluences(P, cfg, hasGraph, b, rest[j]) {
          LocalBefore(P, cfg, hasGraph, rest, trace, |rest|, j, b);
        }
        assert !UnderSome(P, cfg, hasGraph, trace[j].local, rest[j]);
      }
    }
  }

  lemma SameKind(P: Program, v: Value, g: Value)
    requires SameIndex(P, v, g)
    ensures P.IsKind(v, Gep) && P.IsKind(g, Gep) && P.Index(g).Some? && P.Index(g) == P.Index(v)
    ensures |P.insts[v].operands| > 0 && |P.insts[g].operands| > 1
  {
  }

  /** A GEP that its operands newly corrupt is matched by every later GEP with the same index on its first
      index operand, unless a corrupted branch controls it. */
  lemma IndexFollowed(P: Program, cfg: Function, hasGraph: bool, rest: seq<Value>, trace: seq<Pass>, i: nat, j: nat)
    requires PassTrace(P, cfg, hasGraph, rest, trace, |rest|) && trace[0].local == [] && i < j < |rest|
    requires SameIndex(P, rest[j], rest[i]) && P.insts[rest[j]].operands[0] == P.insts[rest[i]].operands[1]
    requires rest[i] !in trace[i].corrupted && HasOperand(P, rest[i], trace[i].corrupted)
    requires !IndexMatched(P, trace[i].ptr, rest[i]) && Uncontrolled(P, cfg, hasGraph, rest, trace[i].corrupted, i)
    ensures rest[j] in trace[|rest|].corrupted
  {
    hide BranchInfluences, SameIndex;
    assert SameIndex(P, rest[j], rest[i]);
    SameKind(P, rest[j], rest[i]);
    forall b | b in trace[i].local ensures !BranchInfluences(P, cfg, hasGraph, b, rest[i]) {
      LocalBefore(P, cfg, hasGraph, rest, trace, |rest|, i, b);
    }
    assert !UnderSome(P, cfg, hasGraph, trace[i].local, rest[i]);
    assert trace[i + 1] == Passing(P, cfg, hasGraph, rest[i], trace[i]);
    assert P.Index(rest[i]).value in trace[i + 1].ptr[P.insts[rest[i]].operands[1]];
    PassGrows(P, cfg, hasGraph, rest, trace, |rest|, i + 1, j);
    assert trace[j + 1] == Passing(P, cfg, hasGraph, rest[j], trace[j]);
    PassGrows(P, cfg, hasGraph, rest, trace, |rest|, j + 1, |rest|);
  }

  lemma CoverStart(P: Program, pairs: set<(Value, Value)>, body: seq<Value>, start: nat, seed: Value,
                   before: set<Value>)
    requires start <= |body|
    ensures Covered(P, pairs, body, start, start, seed, before, before + {seed}, [])
  {
  }

  lemma LocalInBody(P: Program, cfg: Function, hasGraph: bool, body: seq<Value>, start: nat, i: nat, seed: Value,
                    before: set<Value>, s: Pass)
    requires start <= i < |body|
    requires Covered(P, ControlPairs(P, cfg, hasGraph, body), body, start, i, seed, before, s.corrupted, s.local)
    ensures forall b :: b in s.local ==> b in body[start..i]
  {
  }

  lemma PairsAt(P: Program, cfg: Function, hasGraph: bool, body: seq<Value>, start: nat, i: nat, local: seq<Value>)
    requires start <= i < |body| && forall b :: b in local ==> b in body[start..i]
    ensures forall b :: b in local ==>
      ((b, body[i]) in ControlPairs(P, cfg, hasGraph, body) <==> BranchInfluences(P, cfg, hasGraph, b, body[i]))
  {
  }

  lemma CoverNext(P: Program, cfg: Function, hasGraph: bool, body: seq<Value>, start: nat, i: nat, seed: Value,
                  before: set<Value>, s: Pass)
    requires start <= i < |body| && NoDuplicates(body) && Shaped(P, body[i])
    requires Covered(P, ControlPairs(P, cfg, hasGraph, body), body, start, i, seed, before, s.corrupted, s.local)
    ensures
      var s' := Passing(P, cfg, hasGraph, body[i], s);
      Covered(P, ControlPairs(P, cfg, hasGraph, body), body, start, i + 1, seed, before, s'.corrupted, s'.local)
  {
    var s' := Passing(P, cfg, hasGraph, body[i], s);
    LocalInBody(P, cfg, hasGraph, body, start, i, seed, before, s);
    PairsAt(P, cfg, hasGraph, body, start, i, s.local);
    hide ControlPairs, Covered, BranchInfluences;
    CoverStep(P, ControlPairs(P, cfg, hasGraph, body), body, start, i, seed, before, s.corrupted, s.local, s'.corrupted,
      s'.local);
  }

  /** The trace keeps the coverage. */
  lemma {:induction false} CoverTrace(P: Program, cfg: Function, hasGraph: bool, body: seq<Value>, start: nat,
                                      seed: Value,
                                      before: set<Value>, trace: seq<Pass>, i: nat)
    requires start <= |body| && NoDuplicates(body) && i <= |body| - start
    requires forall p :: start <= p < |body| ==> Shaped(P, body[p])
    requires PassTrace(P, cfg, hasGraph, body[start..], trace, |body| - start)
    requires trace[0].corrupted == before + {seed} && trace[0].local == []
    ensures
      var pairs := ControlPairs(P, cfg, hasGraph, body);
      Covered(P, pairs, body, start, start + i, seed, before, trace[i].corrupted, trace[i].local)
  {
    hide ControlPairs, Passing, Covered, Shaped;
    if i == 0 {
      CoverStart(P, ControlPairs(P, cfg, hasGraph, body), body, start, seed, before);
    } else {
      CoverTrace(P, cfg, hasGraph, body, start, seed, before, trace, i - 1);
      var v := body[start + i - 1];
      assert v == body[start..][i - 1];
      assert trace[i - 1 + 1] == Passing(P, cfg, hasGraph, v, trace[i - 1]);
      CoverNext(P, cfg, hasGraph, body, start, start + i - 1, seed, before, trace[i - 1]);
    }
  }

  /** What a pass from the first occurrence of the seed leaves. */
  lemma PassCompletes(P: Program, cfg: Function, hasGraph: bool, body: seq<Value>, start: nat, seed: Value,
                      before: set<Value>, trace: seq<Pass>)
    requires start < |body| && NoDuplicates(body) && body[start] == seed
    requires forall p :: start <= p < |body| ==> Shaped(P, body[p])
    requires PassTrace(P, cfg, hasGraph, body[start..], trace, |body| - start)
    requires trace[0].corrupted == before + {seed} && trace[0].local == []
    ensures Complete(P, cfg, hasGraph, body, seed, before, trace[|body| - start].corrupted)
    ensures Forward(P, body, seed, before + {seed}, trace[|body| - start].corrupted)
  {
    hide Covered, Passing, BranchInfluences, ControlPairs, Shaped;
    var n, rest := |body| - start, body[start..];
    CoverTrace(P, cfg, hasGraph, body, start, seed, before, trace, n);
    forall s, j, k | 0 <= s <= j < k < |body| && body[s] == seed
      && OwnBranch(P, seed, before, trace[n].corrupted, body[j])
      && BranchInfluences(P, cfg, hasGraph, body[j], body[k])
      ensures body[k] in trace[n].corrupted
    {
      InfluencedAfterBranch(P, cfg, hasGraph, body, start, seed, before, trace[n].corrupted, trace[n].local, j, k);
    }
    DataFollowed(P, cfg, hasGraph, rest, trace);
    forall s, k | 0 <= s <= k < |body| && body[s] == seed && HasOperand(P, body[k], before + {seed})
      ensures body[k] in trace[n].corrupted
    {
      PassGrows(P, cfg, hasGraph, rest, trace, n, 0, k - start);
      assert rest[k - start] == body[k] && HasOperand(P, rest[k - start], trace[k - start].corrupted);
    }
  }

  class SyncLoopAnalysis {
    const P: Program
    var corrupted: set<Value>
    var ordered: seq<Value>
    var ptr: map<Value, seq<GepIndex>>
    var brs: seq<Value>
    var aborted: bool

    constructor (P: Program)
      ensures this.P == P && corrupted == {} && ordered == [] && ptr == map[] && brs == [] && !aborted
    {
      this.P, corrupted, ordered, ptr, brs, aborted := P, {}, [], map[], [], false;
    }

    ghost function Now(local: seq<Value>): Pass
      reads this`corrupted, this`ptr, this`brs
    {
      Pass(corrupted, ptr, brs, local)
    }

    ghost predicate Listed(cfg: Function, hasGraph: bool, seed: Value, base: nat)
      reads this`corrupted, this`ordered, this`ptr
    {
      && NoDuplicates(ordered) && Elements(ordered) == corrupted
      && CausedFrom(P, cfg, hasGraph, seed, ordered, base)
      && IndicesRecorded(P, corrupted, ptr)
    }

    method Add(v: Value, ghost cfg: Function, ghost hasGraph: bool, ghost seed: Value, ghost base: nat)
      requires Listed(cfg, hasGraph, seed, base) && Caused(P, cfg, hasGraph, seed, corrupted, v)
      modifies this`corrupted, this`ordered
      ensures Listed(cfg, hasGraph, seed, base) && corrupted == old(corrupted) + {v}
      ensures ordered == if v in old(corrupted) then old(ordered) else old(ordered) + [v]
    {
      if v !in corrupted {
        CausedAppend(P, cfg, hasGraph, seed, ordered, base, v);
        IndicesGrow(P, corrupted, corrupted + {v}, ptr);
        assert v !in ordered by { assert v in ordered ==> v in Elements(ordered); }
        ordered := ordered + [v];
        corrupted := corrupted + {v};
      }
    }

    method UnderLocal(cfg: Function, graph: Graph?, local: seq<Value>, v: Value) returns (r: bool)
      requires graph != null ==> graph.Built(cfg) && cfg.WellFormed()
      requires v in P.insts && P.insts[v].block in cfg.blocks
      requires forall b :: b in local ==> b in P.insts
      ensures r <==> UnderSome(P, cfg, graph != null, local, v)
    {
      hide Graph.Built, Influences;
      for i := 0 to |local|
        invariant forall k :: 0 <= k < i ==> !BranchInfluences(P, cfg, graph != null, local[k], v)
      {
        var b := local[i];
        assert b in local;
        if graph == null { return false; }
        graph.HasNode(cfg, P.insts[v].block);
        r := graph.Influenced(cfg, Some(P.insts[b].block), Some(P.insts[v].block));
        if r { return true; }
      }
      return false;
    }

    method MatchIndex(v: Value, ghost cfg: Function, ghost hasGraph: bool, ghost seed: Value, ghost base: nat)
      requires Listed(cfg, hasGraph, seed, base) && P.IsKind(v, Gep) && |P.insts[v].operands| > 0
      modifies this`corrupted, this`ordered
      ensures Listed(cfg, hasGraph, seed, base)
      ensures corrupted == old(corrupted) + (if IndexMatched(P, ptr, v) then {v} else {})
    {
      var idx := P.Index(v);
      var pointer := P.insts[v].operands[0];
      if pointer in ptr && idx.Some? && idx.value in ptr[pointer] {
        assert SomeGep(P, corrupted, pointer, idx.value);
        ghost var g :| g in corrupted && KeyedBy(P, pointer, g) && P.Index(g) == Some(idx.value);
        assert SameIndex(P, v, g) && KeyedByBase(P, v, g);
        Add(v, cfg, hasGraph, seed, base);
      }
    }

    method AddGep(v: Value, ghost cfg: Function, ghost hasGraph: bool, ghost seed: Value, ghost base: nat)
      requires Listed(cfg, hasGraph, seed, base) && P.IsKind(v, Gep) && HasOperand(P, v, corrupted) && v !in corrupted
      modifies this`corrupted, this`ordered, this`ptr, this`aborted
      ensures Listed(cfg, hasGraph, seed, base) && corrupted == old(corrupted) + {v}
      ensures aborted <==> old(aborted) || P.Index(v).None?
      ensures ptr == if P.Index(v).Some? then Recording(P, old(ptr), v, P.insts[v].operands[1]) else old(ptr)
    {
      Add(v, cfg, hasGraph, seed, base);
      var ops := P.insts[v].operands;
      var idx := P.Index(v);
      if idx.None? {
        aborted := true;
      } else {
        assert SomeGep(P, corrupted, ops[1], idx.value);
        var list := if ops[1] in ptr then ptr[ops[1]] else [];
        ptr := ptr[ops[1] := list + [idx.value]];
      }
    }

    /** A GEP, treated as in the interprocedural analysis. */
    method GepStep(v: Value, ghost cfg: Function, ghost hasGraph: bool, ghost seed: Value, ghost base: nat)
      requires Listed(cfg, hasGraph, seed, base) && P.IsKind(v, Gep) && |P.insts[v].operands| > 0 && !aborted
      modifies this`corrupted, this`ordered, this`ptr, this`aborted
      ensures Listed(cfg, hasGraph, seed, base)
      ensures corrupted == old(corrupted)
        + (if IndexMatched(P, old(ptr), v) || HasOperand(P, v, old(corrupted)) then {v} else {})
      ensures
        var recorded := !IndexMatched(P, old(ptr), v) && v !in old(corrupted) && HasOperand(P, v, old(corrupted));
        && (aborted <==> recorded && P.Index(v).None?)
        && ptr == if recorded && P.Index(v).Some? then Recording(P, old(ptr), v, P.insts[v].operands[1]) else old(ptr)
    {
      MatchIndex(v, cfg, hasGraph, seed, base);
      var found := CorruptedOperand(P, v, corrupted);
      if found && v !in corrupted { AddGep(v, cfg, hasGraph, seed, base); }
    }

    /** Any other instruction, calls included. */
    method PlainStep(v: Value, local: seq<Value>, ghost cfg: Function, ghost hasGraph: bool, ghost seed: Value,
                     ghost base: nat)
      returns (rv: bool, local': seq<Value>)
      requires Listed(cfg, hasGraph, seed, base) && v in P.insts && (P.IsKind(v, Store) ==> |P.insts[v].operands| > 1)
      modifies this`corrupted, this`ordered, this`brs
      ensures Listed(cfg, hasGraph, seed, base)
      ensures rv <==> v !in old(corrupted) && HasOperand(P, v, old(corrupted))
      ensures corrupted == old(corrupted) + (if rv then {v} else {})
        + (if rv && P.IsKind(v, Store) then {P.insts[v].operands[1]} else {})
      ensures local' == if rv && P.IsKind(v, Branch) then local + [v] else local
      ensures brs == if rv && P.IsKind(v, Branch) && v !in old(brs) then old(brs) + [v] else old(brs)
    {
      rv, local' := false, local;
      var found := CorruptedOperand(P, v, corrupted);
      if found && v !in corrupted {
        Add(v, cfg, hasGraph, seed, base);
        if P.IsKind(v, Store) {
          assert StoreTarget(P, P.insts[v].operands[1], v);
          Add(P.insts[v].operands[1], cfg, hasGraph, seed, base);
        } else if P.IsKind(v, Branch) {
          if v !in brs { brs := brs + [v]; }
          local' := local' + [v];
        }
        rv := true;
      }
    }

    method AddControlled(v: Value, local: seq<Value>, ghost cfg: Function, ghost hasGraph: bool, ghost seed: Value,
                         ghost base: nat)
      requires Listed(cfg, hasGraph, seed, base) && UnderSome(P, cfg, hasGraph, local, v)
      requires forall b :: b in local ==> P.IsKind(b, Branch) && b in corrupted
      modifies this`corrupted, this`ordered
      ensures Listed(cfg, hasGraph, seed, base) && corrupted == old(corrupted) + {v}
    {
      Add(v, cfg, hasGraph, seed, base);
    }

    /** One instruction: first control, then data. */
    method Step(v: Value, local: seq<Value>, cfg: Function, graph: Graph?, ghost seed: Value, ghost base: nat)
      returns (rv: bool, local': seq<Value>)
      requires graph != null ==> graph.Built(cfg) && cfg.WellFormed()
      requires Listed(cfg, graph != null, seed, base) && Shaped(P, v) && P.insts[v].block in cfg.blocks && !aborted
      requires forall b :: b in local ==> P.IsKind(b, Branch) && b in corrupted
      modifies this
      ensures Listed(cfg, graph != null, seed, base)
      ensures rv <==> Taken(P, cfg, graph != null, v, old(Now(local)))
      ensures aborted <==> Indexed(P, cfg, graph != null, v, old(Now(local))) && P.Index(v).None?
      ensures !aborted ==> Now(local') == Passing(P, cfg, graph != null, v, old(Now(local)))
      ensures old(corrupted) <= corrupted && forall b :: b in local' ==> P.IsKind(b, Branch) && b in corrupted
    {
      hide Graph.Built, Listed, UnderSome;
      rv, local' := false, local;
      var under := UnderLocal(cfg, graph, local, v);
      if under { AddControlled(v, local, cfg, graph != null, seed, base); }
      if P.IsKind(v, Gep) {
        GepStep(v, cfg, graph != null, seed, base);
      } else {
        rv, local' := PlainStep(v, local, cfg, graph != null, seed, base);
      }
    }

    method FindSeed(body: seq<Value>, ins: Value) returns (start: nat)
      requires ins in body
      ensures start < |body| && body[start] == ins && ins !in body[..start]
    {
      start := 0;
      while body[start] != ins
        invariant start < |body| && ins !in body[..start]
        decreases |body| - start
      {
        assert body[..start + 1] == body[..start] + [body[start]];
        assert body[..|body|] == body;
        start := start + 1;
      }
    }

    /** The walk from the seed on, with the state before and after each instruction. */
    method Walk(body: seq<Value>, start: nat, ghost ins: Value, cfg: Function, graph: Graph?, ghost base: nat)
      returns (rv: bool, ghost trace: seq<Pass>)
      requires graph != null ==> graph.Built(cfg) && cfg.WellFormed()
      requires start <= |body| && !aborted
      requires forall p :: start <= p < |body| ==> Shaped(P, body[p]) && P.insts[body[p]].block in cfg.blocks
      requires Listed(cfg, graph != null, ins, base)
      modifies this
      ensures Listed(cfg, graph != null, ins, base) && old(corrupted) <= corrupted
      ensures !aborted ==> PassTrace(P, cfg, graph != null, body[start..], trace, |body| - start)
      ensures !aborted ==> trace[0] == old(Now([])) && trace[|body| - start] == Now(trace[|body| - start].local)
      ensures !aborted ==> (rv <==> AnyTaken(P, cfg, graph != null, body[start..], trace, |body| - start))
    {
      hide Graph.Built, Function.WellFormed, Listed, Passing, Taken, Shaped, Indexed;
      rv, trace := false, [Now([])];
      var i, local: seq<Value> := start, [];
      ghost var rest := body[start..];
      while i < |body| && !aborted
        invariant start <= i <= |body| && old(corrupted) <= corrupted
        invariant Listed(cfg, graph != null, ins, base)
        invariant forall b :: b in local ==> P.IsKind(b, Branch) && b in corrupted
        invariant |trace| == i - start + 1 && trace[0] == old(Now([]))
        invariant !aborted ==>
          PassTrace(P, cfg, graph != null, rest, trace, i - start) && trace[i - start] == Now(local)
        invariant !aborted ==> (rv <==> AnyTaken(P, cfg, graph != null, rest, trace, i - start))
        decreases |body| - i
      {
        assert rest[i - start] == body[i];
        var tainted;
        tainted, local := Step(body[i], local, cfg, graph, ins, base);
        if !aborted { PassExtend(P, cfg, graph != null, rest, trace, i - start, Now(local)); }
        trace := trace + [Now(local)];
        rv := rv || tainted;
        i := i + 1;
      }
    }

    /** Seeds the pass and finds where to start. */
    method Begin(body: seq<Value>, ins: Value, ghost cfg: Function, ghost hasGraph: bool) returns (start: nat)
      requires ins in body
      requires NoDuplicates(ordered) && Elements(ordered) == corrupted && IndicesRecorded(P, corrupted, ptr)
      modifies this`corrupted, this`ordered
      ensures start < |body| && body[start] == ins && ins !in body[..start]
      ensures Listed(cfg, hasGraph, ins, |old(ordered)|) && corrupted == old(corrupted) + {ins}
    {
      start := FindSeed(body, ins);
      Add(ins, cfg, hasGraph, ins, |ordered|);
    }

    /** One call of the pass. From the seed on, every instruction that uses a value corrupted before its turn
        is corrupted, a clean store reached that way corrupts its target, and so is everything laid out
        after a branch that this call corrupted and influenced by it, in the sense of paths. */
    method IntraFlow(body: seq<Value>, ins: Value, cfg: Function, graph: Graph?)
      returns (rv: bool, ghost start: nat, ghost trace: seq<Pass>)
      requires graph != null ==> graph.Built(cfg) && cfg.WellFormed()
      requires ins in body && NoDuplicates(body) && !aborted
      requires forall v :: v in body ==> Shaped(P, v) && P.insts[v].block in cfg.blocks
      requires NoDuplicates(ordered) && Elements(ordered) == corrupted && IndicesRecorded(P, corrupted, ptr)
      modifies this
      ensures Listed(cfg, graph != null, ins, |old(ordered)|) && old(corrupted) <= corrupted && ins in corrupted
      ensures start < |body| && body[start] == ins && ins !in body[..start]
      ensures !aborted ==> PassTrace(P, cfg, graph != null, body[start..], trace, |body| - start)
      ensures !aborted ==> trace[0] == Pass(old(corrupted) + {ins}, old(ptr), old(brs), [])
      ensures !aborted ==> trace[|body| - start] == Now(trace[|body| - start].local)
      ensures !aborted ==> UsesFollowed(P, body[start..], trace)
      ensures !aborted ==> StoresFollowed(P, cfg, graph != null, body[start..], trace)
      ensures !aborted ==> BranchesFollowed(P, cfg, graph != null, body[start..], trace)
      ensures !aborted ==> Complete(P, cfg, graph != null, body, ins, old(corrupted), corrupted)
      ensures !aborted ==> Forward(P, body, ins, old(corrupted) + {ins}, corrupted)
      ensures !aborted ==>
        (rv <==> ins !in old(corrupted) || AnyTaken(P, cfg, graph != null, body[start..], trace, |body| - start))
    {
      hide Graph.Built, Function.WellFormed, Listed, PassTrace, AnyTaken, Shaped;
      hide UsesFollowed, StoresFollowed, BranchesFollowed, Complete, Forward;
      ghost var before, base := corrupted, |ordered|;
      rv := ins !in corrupted;
      var from := Begin(body, ins, cfg, graph != null);
      start := from;
      var walked;
      walked, trace := Walk(body, from, ins, cfg, graph, base);
      rv := rv || walked;
      if !aborted {
        DataFollowed(P, cfg, graph != null, body[start..], trace);
        PassCompletes(P, cfg, graph != null, body, start, ins, before, trace);
      }
    }
  }
}
