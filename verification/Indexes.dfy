/** Instruction numbers and per-line instruction lists. */
module Indexes {
  import opened Wrappers
  import opened TaintRules

  /** All instructions in module order. */
  ghost function Layout(P: Program, order: seq<FuncId>): seq<Value>
    requires forall f :: f in order ==> f in P.funcs
  {
    if order == [] then []
    else
      var last := order[|order| - 1];
      assert last in order;
      Layout(P, order[..|order| - 1]) + P.funcs[last].body
  }

  ghost function AtLine(P: Program, s: seq<Value>, loc: FileLine): seq<Value>
    requires forall v :: v in s ==> v in P.insts
  {
    if s == [] then []
    else
      var last := s[|s| - 1];
      assert last in s;
      AtLine(P, s[..|s| - 1], loc) + (if P.insts[last].dbg == Some(loc) then [last] else [])
  }

  ghost predicate InProgram(P: Program, s: seq<Value>) {
    forall v :: v in s ==> v in P.insts
  }

  /** The maps after the first |s| instructions of a run. */
  ghost predicate Indexed(P: Program, s: seq<Value>, ins2int: map<Value, nat>, lineMap: map<FileLine, seq<Value>>)
    requires InProgram(P, s)
  {
    && (forall v :: v in ins2int <==> v in s)
    && (forall k :: 0 <= k < |s| ==> s[k] in ins2int && ins2int[s[k]] == k + 1)
    && LineIndexed(P, s, lineMap)
  }

  ghost predicate LineIndexed(P: Program, s: seq<Value>, lineMap: map<FileLine, seq<Value>>)
    requires InProgram(P, s)
  {
    forall loc ::
      (loc in lineMap <==> AtLine(P, s, loc) != []) && (loc in lineMap ==> lineMap[loc] == AtLine(P, s, loc))
  }

  lemma LineOne(P: Program, s: seq<Value>, v: Value, lineMap: map<FileLine, seq<Value>>,
                lineMap': map<FileLine, seq<Value>>)
    requires InProgram(P, s) && v in P.insts && LineIndexed(P, s, lineMap)
    requires lineMap' == (match P.insts[v].dbg
                          case None => lineMap
                          case Some(loc) => lineMap[loc := (if loc in lineMap then lineMap[loc] else []) + [v]])
    ensures InProgram(P, s + [v]) && LineIndexed(P, s + [v], lineMap')
  {
    var t := s + [v];
    assert t[..|t| - 1] == s;
    forall loc ensures AtLine(P, t, loc) == AtLine(P, s, loc) + (if P.insts[v].dbg == Some(loc) then [v] else []) {}
  }

  lemma IndexOne(P: Program, s: seq<Value>, v: Value, ins2int: map<Value, nat>, lineMap: map<FileLine, seq<Value>>,
                 lineMap': map<FileLine, seq<Value>>)
    requires InProgram(P, s) && v in P.insts && v !in s && Indexed(P, s, ins2int, lineMap)
    requires lineMap' == (match P.insts[v].dbg
                          case None => lineMap
                          case Some(loc) => lineMap[loc := (if loc in lineMap then lineMap[loc] else []) + [v]])
    ensures InProgram(P, s + [v]) && Indexed(P, s + [v], ins2int[v := |s| + 1], lineMap')
  {
    var t := s + [v];
    LineOne(P, s, v, lineMap, lineMap');
    forall k | 0 <= k < |t| ensures t[k] in ins2int[v := |s| + 1] && ins2int[v := |s| + 1][t[k]] == k + 1 {
      if k < |s| { assert t[k] == s[k] && s[k] in s; }
    }
  }

  /** Lists per line hold exactly the instructions of that line, in module order and without repeats. */
  lemma {:induction false} AtLineMembers(P: Program, s: seq<Value>, loc: FileLine)
    requires InProgram(P, s)
    ensures forall v :: v in AtLine(P, s, loc) <==> v in s && P.insts[v].dbg == Some(loc)
  {
    if s != [] {
      var last := s[|s| - 1];
      assert last in s;
      assert s == s[..|s| - 1] + [last];
      AtLineMembers(P, s[..|s| - 1], loc);
    }
  }

  lemma {:induction false} AtLineIncreasing(P: Program, s: seq<Value>, loc: FileLine, ins2int: map<Value, nat>, i: nat,
                                            j: nat)
    requires InProgram(P, s) && (forall k :: 0 <= k < |s| ==> s[k] in ins2int && ins2int[s[k]] == k + 1)
    requires i < j < |AtLine(P, s, loc)|
    ensures AtLine(P, s, loc)[i] in ins2int && AtLine(P, s, loc)[j] in ins2int
    ensures ins2int[AtLine(P, s, loc)[i]] < ins2int[AtLine(P, s, loc)[j]]
  {
    var n := |s| - 1;
    var last, init := s[n], s[..n];
    assert last in s;
    var before := AtLine(P, init, loc);
    if j < |before| {
      AtLineIncreasing(P, init, loc, ins2int, i, j);
    } else {
      AtLineMembers(P, init, loc);
      var x := before[i];
      assert x in before;
      var k :| 0 <= k < n && init[k] == x;
      assert s[k] == x;
    }
  }

  // ----- createMaps

  class Inst2Int {
    const P: Program
    var ins2int: map<Value, nat>
    var lineMap: map<FileLine, seq<Value>>
    var count: nat

    constructor (P: Program)
      ensures this.P == P && ins2int == map[] && lineMap == map[] && count == 1
    {
      this.P, ins2int, lineMap, count := P, map[], map[], 1;
    }

    ghost predicate Holds(s: seq<Value>)
      reads this
    {
      InProgram(P, s) && NoDuplicates(s) && Indexed(P, s, ins2int, lineMap) && count == |s| + 1
    }

    method IndexInstruction(v: Value, ghost s: seq<Value>)
      requires Holds(s) && v in P.insts && v !in s
      modifies this
      ensures Holds(s + [v])
    {
      ghost var ins2int0, lineMap0 := ins2int, lineMap;
      ins2int, count := ins2int[v := count], count + 1;
      match P.insts[v].dbg {
        case None =>
        case Some(loc) => lineMap := lineMap[loc := (if loc in lineMap then lineMap[loc] else []) + [v]];
      }
      IndexOne(P, s, v, ins2int0, lineMap0, lineMap);
    }

    method IndexFunction(body: seq<Value>, ghost s0: seq<Value>, ghost all: seq<Value>)
      returns (located: bool, ghost s: seq<Value>)
      requires Holds(s0) && s0 + body <= all && NoDuplicates(all) && InProgram(P, all)
      modifies this
      ensures s == s0 + body && Holds(s)
      ensures located <==> forall v :: v in body ==> v in P.insts && P.insts[v].dbg.Some?
    {
      located, s := true, s0;
      for j := 0 to |body|
        invariant s == s0 + body[..j] && Holds(s)
        invariant located <==> forall v :: v in body[..j] ==> v in P.insts && P.insts[v].dbg.Some?
      {
        NextInLayout(all, s0, body, j);
        IndexInstruction(body[j], s);
        if P.insts[body[j]].dbg.None? { located := false; }
        s := s + [body[j]];
        assert body[..j + 1] == body[..j] + [body[j]];
      }
      assert body[..|body|] == body;
    }

    /** On a fresh object the instructions are numbered 1, 2, ... in module order, and every line that has
        instructions maps to exactly those. */
    method CreateMaps(order: seq<FuncId>) returns (rv: bool)
      requires forall f :: f in order ==> f in P.funcs
      requires InProgram(P, Layout(P, order)) && NoDuplicates(Layout(P, order))
      requires ins2int == map[] && lineMap == map[] && count == 1
      modifies this
      ensures Holds(Layout(P, order))
      ensures rv <==> forall v :: v in Layout(P, order) ==> P.insts[v].dbg.Some?
    {
      rv := true;
      ghost var all := Layout(P, order);
      ghost var s: seq<Value> := [];
      for i := 0 to |order|
        invariant Holds(s) && s == Layout(P, order[..i]) && s <= all
        invariant rv <==> forall v :: v in s ==> P.insts[v].dbg.Some?
      {
        var f := order[i];
        assert f in order;
        assert order[..i + 1][..i] == order[..i];
        LayoutPrefix(P, order, i + 1);
        var located;
        ghost var s0 := s;
        located, s := IndexFunction(P.funcs[f].body, s0, all);
        rv := rv && located;
      }
      assert order[..|order|] == order;
    }
  }

  lemma {:induction false} LayoutPrefix(P: Program, order: seq<FuncId>, n: nat)
    requires (forall f :: f in order ==> f in P.funcs) && n <= |order|
    ensures Layout(P, order[..n]) <= Layout(P, order)
  {
    if n < |order| {
      var init := order[..|order| - 1];
      LayoutPrefix(P, init, n);
      assert init[..n] == order[..n];
    } else {
      assert order[..n] == order;
    }
  }

  lemma NextInLayout(all: seq<Value>, s0: seq<Value>, body: seq<Value>, j: nat)
    requires s0 + body <= all && j < |body| && NoDuplicates(all)
    ensures body[j] in all && body[j] !in s0 + body[..j] && s0 + body[..j] + [body[j]] <= all
  {
    var k := |s0| + j;
    assert all[k] == body[j];
    forall i | 0 <= i < k ensures (s0 + body[..j])[i] != body[j] {
      assert (s0 + body[..j])[i] == all[i];
    }
  }

  /** Everything in the layout stands in the body of its function. */
  lemma {:induction false} LayoutOf(P: Program, order: seq<FuncId>, v: Value)
    requires P.WellFormed() && (forall f :: f in order ==> f in P.funcs) && v in Layout(P, order)
    ensures v in P.insts && P.insts[v].fn in order && v in P.funcs[P.insts[v].fn].body
  {
    var last := order[|order| - 1];
    assert last in order;
    var init := order[..|order| - 1];
    assert order == init + [last];
    if v in P.funcs[last].body {
      var k :| 0 <= k < |P.funcs[last].body| && P.funcs[last].body[k] == v;
    } else {
      LayoutOf(P, init, v);
    }
  }

  /** Where the p-th instruction of the a-th function stands in the layout. */
  lemma LayoutAt(P: Program, order: seq<FuncId>, a: nat, p: nat)
    requires (forall f :: f in order ==> f in P.funcs) && a < |order| && order[a] in P.funcs
    requires p < |P.funcs[order[a]].body|
    ensures
      var k := |Layout(P, order[..a])| + p;
      k < |Layout(P, order)| && Layout(P, order)[k] == P.funcs[order[a]].body[p]
    ensures |Layout(P, order[..a + 1])| == |Layout(P, order[..a])| + |P.funcs[order[a]].body|
  {
    var upTo := order[..a + 1];
    assert upTo[..a] == order[..a] && upTo[a] == order[a];
    LayoutPrefix(P, order, a + 1);
  }

  /** Numbers follow the program: function after function, and inside a function from first to last. */
  lemma NumbersFollowProgram(P: Program, order: seq<FuncId>, ins2int: map<Value, nat>, a: nat, p: nat, b: nat, q: nat)
    requires (forall f :: f in order ==> f in P.funcs) && a <= b < |order| && order[a] in P.funcs && order[b] in P.funcs
    requires p < |P.funcs[order[a]].body| && q < |P.funcs[order[b]].body| && (a == b ==> p < q)
    requires forall k :: 0 <= k < |Layout(P, order)| ==>
      Layout(P, order)[k] in ins2int && ins2int[Layout(P, order)[k]] == k + 1
    ensures P.funcs[order[a]].body[p] in ins2int && P.funcs[order[b]].body[q] in ins2int
    ensures ins2int[P.funcs[order[a]].body[p]] < ins2int[P.funcs[order[b]].body[q]]
  {
    LayoutAt(P, order, a, p);
    LayoutAt(P, order, b, q);
    if a < b {
      var front := order[..b];
      assert front[..a + 1] == order[..a + 1];
      LayoutPrefix(P, front, a + 1);
    }
  }
}
