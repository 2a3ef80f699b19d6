/** The race-report parser: one pass over classified lines, writing numbered files. */
module Report {

  /** A line by the first regular expression that matches it; stack lines carry the formatted text and
      whether the frame lies in one of the three interceptor sources. */
  datatype Line = BlockStart | WriteStart | ReadStart | Stack(interceptor: bool, text: string)
                | Blank | Separator | BlockEnd | Unmatched

  /** A formatted stack line and where it stood in the report. */
  datatype Item = Item(pos: nat, text: string)

  datatype File = File(number: nat, content: seq<Item>)

  // ----- checkBlockIntegrity

  /** The 1-based number of the last separator, or 0. */
  method CheckBlockIntegrity(lines: seq<Line>) returns (boundary: nat)
    ensures boundary == Boundary(lines)
  {
    boundary := 0;
    for i := 0 to |lines|
      invariant boundary == Boundary(lines[..i])
    {
      assert lines[..i + 1] == lines[..i] + [lines[i]];
      if lines[i].Separator? { boundary := i + 1; }
    }
    assert lines[..|lines|] == lines;
  }

  function Boundary(lines: seq<Line>): (b: nat)
    ensures b <= |lines|
    ensures b > 0 ==> lines[b - 1].Separator?
    ensures forall k :: b <= k < |lines| ==> !lines[k].Separator?
  {
    if lines == [] then 0
    else if lines[|lines| - 1].Separator? then |lines|
    else Boundary(lines[..|lines| - 1])
  }

  /** The lines the parser gets to see: those before the last separator. */
  function Visible(lines: seq<Line>): seq<Line> {
    if Boundary(lines) == 0 then [] else lines[..Boundary(lines) - 1]
  }

  lemma {:induction false} BoundaryGrows(lines: seq<Line>, more: seq<Line>)
    ensures Boundary(lines) <= Boundary(lines + more)
    ensures Visible(lines) <= Visible(lines + more)
    decreases |more|
  {
    if more == [] {
      assert lines + more == lines;
    } else {
      var rest := more[..|more| - 1];
      BoundaryGrows(lines, rest);
      var all := lines + more;
      assert all[..|all| - 1] == lines + rest;
      assert all[|all| - 1] == more[|more| - 1];
      assert Boundary(all) == if more[|more| - 1].Separator? then |all| else Boundary(lines + rest);
    }
  }

  // ----- runNormalSyncLoop

  datatype SyncState = SyncState(block: bool, read: bool, write: bool, writeItems: seq<Item>, readItems: seq<Item>,
                                 files: seq<File>)

  const SYNC_START := SyncState(false, false, false, [], [], [])

  function Flush(s: SyncState): SyncState {
    if |s.writeItems| > 0 && |s.readItems| > 0 then
      s.(writeItems := [], readItems := [], files := s.files + [File(|s.files|, s.writeItems + s.readItems)])
    else s
  }

  function SyncStep(verifier: bool, s: SyncState, pos: nat, line: Line): SyncState {
    match line
    case BlockStart => s.(block := true)
    case WriteStart => s.(write := true, read := false, block := true)
    case ReadStart => s.(read := true, block := true)
    case Stack(interceptor, text) =>
      if s.read && s.block && interceptor then
        if verifier then s else s.(read := false, block := false)
      else
        var t := if s.read && s.block && s.readItems == [] then s.(readItems := [Item(pos, text)]) else s;
        if !(t.write && t.block) then t
        else if interceptor then if verifier then t else t.(write := false, block := false)
        else if t.writeItems == [] then t.(writeItems := [Item(pos, text)]) else t
    case Blank => Flush(s).(read := false, write := false)
    case Separator => s.(read := false, write := false, block := false, writeItems := [], readItems := [])
    case BlockEnd => Flush(s.(block := false, read := false, write := false))
    case Unmatched => s
  }

  function SyncRun(verifier: bool, lines: seq<Line>): SyncState {
    if lines == [] then SYNC_START
    else
      var n := |lines| - 1;
      SyncStep(verifier, SyncRun(verifier, lines[..n]), n, lines[n])
  }

  // ----- which lines are taken

  datatype Flags = Flags(block: bool, read: bool, write: bool)

  function FlagStep(verifier: bool, f: Flags, line: Line): Flags {
    match line
    case BlockStart => f.(block := true)
    case WriteStart => Flags(true, false, true)
    case ReadStart => f.(read := true, block := true)
    case Stack(interceptor, _) =>
      if verifier || !interceptor || !f.block then f
      else if f.read then f.(read := false, block := false)
      else if f.write then f.(write := false, block := false)
      else f
    case Blank => f.(read := false, write := false)
    case Separator => Flags(false, false, false)
    case BlockEnd => Flags(false, false, false)
    case Unmatched => f
  }

  ghost function FlagRun(verifier: bool, lines: seq<Line>): Flags {
    if lines == [] then Flags(false, false, false)
    else FlagStep(verifier, FlagRun(verifier, lines[..|lines| - 1]), lines[|lines| - 1])
  }

  /** Line p is a stack line outside the interceptors that stands where write (or read) lines are taken. */
  ghost predicate Takes(verifier: bool, lines: seq<Line>, p: nat, write: bool)
    requires p < |lines|
  {
    var f := FlagRun(verifier, lines[..p]);
    lines[p].Stack? && !lines[p].interceptor && f.block && if write then f.write else f.read
  }

  /** The first such line from `from` on, if there is one. */
  ghost function FirstTaken(verifier: bool, lines: seq<Line>, from: nat, write: bool): seq<Item> {
    if |lines| <= from then []
    else
      var n := |lines| - 1;
      var before := FirstTaken(verifier, lines[..n], from, write);
      if before != [] then before else if Takes(verifier, lines, n, write) then [Item(n, lines[n].text)] else []
  }

  lemma {:induction false} FirstTakenIsFirst(verifier: bool, lines: seq<Line>, from: nat, write: bool)
    ensures
      var first := FirstTaken(verifier, lines, from, write);
      && |first| <= 1
      && (first == [] ==> forall p :: from <= p < |lines| ==> !Takes(verifier, lines, p, write))
      && (first != [] ==>
            var it := first[0];
            && from <= it.pos < |lines| && Takes(verifier, lines, it.pos, write) && it.text == lines[it.pos].text
            && forall p :: from <= p < it.pos ==> !Takes(verifier, lines, p, write))
  {
    if |lines| > from {
      var n := |lines| - 1;
      FirstTakenIsFirst(verifier, lines[..n], from, write);
      forall p | 0 <= p < n ensures Takes(verifier, lines[..n], p, write) == Takes(verifier, lines, p, write) {
        assert lines[..n][..p] == lines[..p];
      }
    }
  }

  /** After these lines, `line` ends a paragraph or block with a write line and a read line taken. */
  ghost predicate Completes(verifier: bool, lines: seq<Line>, line: Line)
    decreases |lines|, 1
  {
    && (line.Blank? || line.BlockEnd?)
    && FirstTaken(verifier, lines, Start(verifier, lines), true) != []
    && FirstTaken(verifier, lines, Start(verifier, lines), false) != []
  }

  /** Where taking starts anew: after the last separator or completed pair. */
  ghost function Start(verifier: bool, lines: seq<Line>): (start: nat)
    ensures start <= |lines|
    decreases |lines|, 0
  {
    if lines == [] then 0
    else
      var n := |lines| - 1;
      if lines[n].Separator? || Completes(verifier, lines[..n], lines[n]) then |lines| else Start(verifier, lines[..n])
  }

  /** One file per completed pair: its first write line, then its first read line. */
  ghost function Pairs(verifier: bool, lines: seq<Line>): seq<File> {
    if lines == [] then []
    else
      var n := |lines| - 1;
      var before, start := Pairs(verifier, lines[..n]), Start(verifier, lines[..n]);
      if Completes(verifier, lines[..n], lines[n]) then
        var pair := FirstTaken(verifier, lines[..n], start, true) + FirstTaken(verifier, lines[..n], start, false);
        before + [File(|before|, pair)]
      else before
  }

  function TakeOne(taken: seq<Item>, now: bool, pos: nat, line: Line): seq<Item>
    requires now ==> line.Stack?
  {
    if taken != [] || !now then taken else [Item(pos, line.text)]
  }

  predicate TakenNow(f: Flags, line: Line, write: bool) {
    line.Stack? && !line.interceptor && f.block && if write then f.write else f.read
  }

  /** One step of the machine, apart from how its state came about. */
  lemma SyncStepParts(verifier: bool, f: Flags, w: seq<Item>, r: seq<Item>, files: seq<File>, pos: nat, line: Line)
    ensures
      var done := (line.Blank? || line.BlockEnd?) && w != [] && r != [];
      var f' := FlagStep(verifier, f, line);
      SyncStep(verifier, SyncState(f.block, f.read, f.write, w, r, files), pos, line)
      == SyncState(f'.block, f'.read, f'.write,
                   if done || line.Separator? then [] else TakeOne(w, TakenNow(f, line, true), pos, line),
                   if done || line.Separator? then [] else TakeOne(r, TakenNow(f, line, false), pos, line),
                   if done then files + [File(|files|, w + r)] else files)
  {
  }

  lemma FirstTakenStep(verifier: bool, lines: seq<Line>, from: nat, write: bool)
    requires lines != [] && from < |lines|
    ensures
      var n := |lines| - 1;
      FirstTaken(verifier, lines, from, write)
      == TakeOne(FirstTaken(verifier, lines[..n], from, write),
        TakenNow(FlagRun(verifier, lines[..n]), lines[n], write), n, lines[n])
  {
  }

  /** The files are exactly the completed pairs, and what is pending is the first line of each kind since
      the last one. */
  lemma {:induction false} SyncIsFirstPairs(verifier: bool, lines: seq<Line>)
    ensures
      var f, start := FlagRun(verifier, lines), Start(verifier, lines);
      SyncRun(verifier, lines)
      == SyncState(f.block, f.read, f.write, FirstTaken(verifier, lines, start, true),
        FirstTaken(verifier, lines, start, false), Pairs(verifier, lines))
  {
    if lines != [] {
      var n := |lines| - 1;
      var init, line := lines[..n], lines[n];
      SyncIsFirstPairs(verifier, init);
      var f, start := FlagRun(verifier, init), Start(verifier, init);
      var w, r := FirstTaken(verifier, init, start, true), FirstTaken(verifier, init, start, false);
      SyncStepParts(verifier, f, w, r, Pairs(verifier, init), n, line);
      FirstTakenStep(verifier, lines, start, true);
      FirstTakenStep(verifier, lines, start, false);
    }
  }

  /** An item is a stack line of the report outside the interceptors. */
  ghost predicate Genuine(lines: seq<Line>, it: Item) {
    it.pos < |lines| && lines[it.pos] == Stack(false, it.text)
  }

  predicate Closes(line: Line) {
    line.Blank? || line.BlockEnd? || line.Separator?
  }

  /** Line p lies in a write section: a write header above it, and nothing between that closes sections. */
  ghost predicate InWriteSection(lines: seq<Line>, p: nat)
    requires p <= |lines|
  {
    exists q :: 0 <= q < p && lines[q].WriteStart? && forall k :: q < k < p ==> !Closes(lines[k])
  }

  /** The same for a read header, whose section a write header closes too. */
  ghost predicate InReadHalf(lines: seq<Line>, p: nat)
    requires p <= |lines|
  {
    exists q :: 0 <= q < p && lines[q].ReadStart? && forall k :: q < k < p ==>
      !Closes(lines[k]) && !lines[k].WriteStart?
  }

  lemma HalvesStep(lines: seq<Line>, line: Line)
    ensures InWriteSection(lines + [line], |lines| + 1) <==>
      line.WriteStart? || (!Closes(line) && InWriteSection(lines, |lines|))
    ensures InReadHalf(lines + [line], |lines| + 1) <==>
      line.ReadStart? || (!Closes(line) && !line.WriteStart? && InReadHalf(lines, |lines|))
  {
    var all := lines + [line];
    assert forall k :: 0 <= k < |lines| ==> all[k] == lines[k];
    assert all[|lines|] == line;
  }

  lemma HalvesGrow(lines: seq<Line>, line: Line, p: nat)
    requires p <= |lines|
    ensures InWriteSection(lines + [line], p) <==> InWriteSection(lines, p)
    ensures InReadHalf(lines + [line], p) <==> InReadHalf(lines, p)
  {
    var all := lines + [line];
    assert forall k :: 0 <= k < |lines| ==> all[k] == lines[k];
  }

  /** In verifier mode, where interceptor lines close nothing, lines are taken exactly in their sections. */
  lemma {:induction false} VerifierSections(lines: seq<Line>)
    ensures FlagRun(true, lines).write <==> InWriteSection(lines, |lines|)
    ensures FlagRun(true, lines).read <==> InReadHalf(lines, |lines|)
    ensures FlagRun(true, lines).write || FlagRun(true, lines).read ==> FlagRun(true, lines).block
  {
    if lines != [] {
      var n := |lines| - 1;
      VerifierSections(lines[..n]);
      HalvesStep(lines[..n], lines[n]);
      assert lines[..n] + [lines[n]] == lines;
    }
  }

  predicate Opens(line: Line) {
    line.BlockStart? || line.WriteStart? || line.ReadStart?
  }

  ghost predicate InterceptorAt(lines: seq<Line>, p: nat)
    requires p < |lines|
  {
    lines[p].Stack? && lines[p].interceptor
  }

  /** Outside verifier mode a section is open as long as nothing closes it and no interceptor line is met. */
  lemma {:induction false} OpenWithoutInterceptor(lines: seq<Line>, q: nat)
    requires q < |lines| && forall k :: q < k < |lines| ==> !Closes(lines[k]) && !InterceptorAt(lines, k)
    ensures lines[q].WriteStart? ==> FlagRun(false, lines).write && FlagRun(false, lines).block
    ensures lines[q].ReadStart? && (forall k :: q < k < |lines| ==> !lines[k].WriteStart?) ==>
      FlagRun(false, lines).read && FlagRun(false, lines).block
  {
    var n := |lines| - 1;
    if q < n {
      assert forall k :: q < k < n ==> lines[..n][k] == lines[k] && !Closes(lines[k]) && !InterceptorAt(lines, k);
      OpenWithoutInterceptor(lines[..n], q);
      assert !Closes(lines[n]) && !InterceptorAt(lines, n);
    }
  }

  /** And after an interceptor line nothing is taken before a header or a block start. */
  lemma {:induction false} InterceptorHides(lines: seq<Line>, q: nat)
    requires q < |lines| && InterceptorAt(lines, q) && forall k :: q < k < |lines| ==> !Opens(lines[k])
    ensures
      var f := FlagRun(false, lines);
      !f.block || (!f.read && !f.write)
  {
    var n := |lines| - 1;
    if q < n {
      assert forall k :: q < k < n ==> lines[..n][k] == lines[k] && !Opens(lines[k]);
      InterceptorHides(lines[..n], q);
      assert !Opens(lines[n]);
    }
  }

  /** No separator from p up to q. */
  ghost predicate Together(lines: seq<Line>, p: nat, q: nat) {
    forall k :: p <= k < q && k < |lines| ==> !lines[k].Separator?
  }

  ghost predicate WriteItem(lines: seq<Line>, it: Item) {
    Genuine(lines, it) && InWriteSection(lines, it.pos)
  }

  ghost predicate ReadItem(lines: seq<Line>, it: Item) {
    Genuine(lines, it) && InReadHalf(lines, it.pos)
  }

  /** One line of a write section, then one line of a read section, with no separator between them. */
  ghost predicate GoodFile(lines: seq<Line>, f: File) {
    && |f.content| == 2
    && WriteItem(lines, f.content[0]) && ReadItem(lines, f.content[1])
    && Together(lines, f.content[0].pos, f.content[1].pos) && Together(lines, f.content[1].pos, f.content[0].pos)
  }

  ghost predicate GoodFiles(lines: seq<Line>, files: seq<File>) {
    forall k :: 0 <= k < |files| ==> files[k].number == k && GoodFile(lines, files[k])
  }

  ghost predicate SyncInv(lines: seq<Line>, s: SyncState) {
    && |s.writeItems| <= 1 && |s.readItems| <= 1
    && (s.write ==> InWriteSection(lines, |lines|)) && (s.read ==> InReadHalf(lines, |lines|))
    && (forall it :: it in s.writeItems ==> WriteItem(lines, it) && Together(lines, it.pos, |lines|))
    && (forall it :: it in s.readItems ==> ReadItem(lines, it) && Together(lines, it.pos, |lines|))
    && GoodFiles(lines, s.files)
  }

  lemma ItemGrows(lines: seq<Line>, it: Item, line: Line)
    requires Genuine(lines, it)
    ensures Genuine(lines + [line], it)
    ensures WriteItem(lines + [line], it) <==> WriteItem(lines, it)
    ensures ReadItem(lines + [line], it) <==> ReadItem(lines, it)
    ensures !line.Separator? && Together(lines, it.pos, |lines|) ==> Together(lines + [line], it.pos, |lines| + 1)
  {
    HalvesGrow(lines, line, it.pos);
    assert forall k :: 0 <= k < |lines| ==> (lines + [line])[k] == lines[k];
    assert (lines + [line])[|lines|] == line;
  }

  lemma FileGrows(lines: seq<Line>, f: File, line: Line)
    requires GoodFile(lines, f)
    ensures GoodFile(lines + [line], f)
  {
    ItemGrows(lines, f.content[0], line);
    ItemGrows(lines, f.content[1], line);
    assert forall k :: 0 <= k < |lines| ==> (lines + [line])[k] == lines[k];
  }

  /** Two pending items make a good file. */
  lemma PairGood(lines: seq<Line>, s: SyncState)
    requires SyncInv(lines, s) && |s.writeItems| > 0 && |s.readItems| > 0
    ensures GoodFile(lines, File(|s.files|, s.writeItems + s.readItems))
  {
    var w, r := s.writeItems[0], s.readItems[0];
    assert w in s.writeItems && r in s.readItems;
    assert s.writeItems + s.readItems == [w, r];
  }

  /** One more line, whatever it is, leaves files good, and pending items good unless it is a separator. */
  lemma SyncInvGrows(lines: seq<Line>, s: SyncState, line: Line)
    requires SyncInv(lines, s)
    ensures !line.Separator? ==> SyncInv(lines + [line], s.(read := false, write := false))
    ensures SyncInv(lines + [line], s.(read := false, write := false, writeItems := [], readItems := []))
  {
    forall it | it in s.writeItems || it in s.readItems
      ensures Genuine(lines, it) && (WriteItem(lines + [line], it) <==> WriteItem(lines, it))
      ensures (ReadItem(lines + [line], it) <==> ReadItem(lines, it))
      ensures !line.Separator? ==> Together(lines + [line], it.pos, |lines| + 1)
    {
      ItemGrows(lines, it, line);
    }
    forall k | 0 <= k < |s.files| ensures GoodFile(lines + [line], s.files[k]) { FileGrows(lines, s.files[k], line); }
  }

  /** A stack line is taken in the section it stands in. */
  lemma SyncStackKeeps(verifier: bool, lines: seq<Line>, s: SyncState, line: Line)
    requires SyncInv(lines, s) && line.Stack?
    ensures SyncInv(lines + [line], SyncStep(verifier, s, |lines|, line))
  {
    SyncInvGrows(lines, s, line);
    HalvesStep(lines, line);
    HalvesGrow(lines, line, |lines|);
    assert (lines + [line])[|lines|] == line;
  }

  lemma SyncStepKeeps(verifier: bool, lines: seq<Line>, s: SyncState, line: Line)
    requires SyncInv(lines, s)
    ensures SyncInv(lines + [line], SyncStep(verifier, s, |lines|, line))
  {
    if line.Stack? {
      SyncStackKeeps(verifier, lines, s, line);
    } else {
      SyncInvGrows(lines, s, line);
      HalvesStep(lines, line);
      if (line.Blank? || line.BlockEnd?) && |s.writeItems| > 0 && |s.readItems| > 0 {
        PairGood(lines + [line], s.(read := false, write := false));
      }
    }
  }

  /** Every file holds exactly one write line followed by one read line, taken from the report with no
      separator between them, and files are numbered consecutively. */
  lemma {:induction false} SyncFilesGood(verifier: bool, lines: seq<Line>)
    ensures SyncInv(lines, SyncRun(verifier, lines))
  {
    if lines != [] {
      var n := |lines| - 1;
      SyncFilesGood(verifier, lines[..n]);
      SyncStepKeeps(verifier, lines[..n], SyncRun(verifier, lines[..n]), lines[n]);
      assert lines[..n] + [lines[n]] == lines;
    }
  }

  /** A stack line: the read half looks at it first, and an interceptor there hides it from the write half. */
  method TakeStackLine(verifier: bool, s: SyncState, pos: nat, line: Line) returns (s': SyncState)
    requires line.Stack?
    ensures s' == SyncStep(verifier, s, pos, line)
  {
    var block, read, write, writeItems, readItems := s.block, s.read, s.write, s.writeItems, s.readItems;
    var skip := false;
    if read && block {
      if line.interceptor {
        if !verifier { read, block := false, false; }
        skip := true;
      } else if |readItems| == 0 {
        readItems := readItems + [Item(pos, line.text)];
      }
    }
    if !skip && write && block {
      if line.interceptor {
        if !verifier { write, block := false, false; }
      } else if |writeItems| == 0 {
        writeItems := writeItems + [Item(pos, line.text)];
      }
    }
    s' := SyncState(block, read, write, writeItems, readItems, s.files);
  }

  /** One line; `outFileNo` counts the files written. */
  method TakeLine(verifier: bool, s: SyncState, outFileNo: nat, pos: nat, line: Line)
    returns (s': SyncState, outFileNo': nat)
    requires outFileNo == |s.files|
    ensures s' == SyncStep(verifier, s, pos, line) && outFileNo' == |s'.files|
  {
    var block, read, write := s.block, s.read, s.write;
    var writeItems, readItems, files := s.writeItems, s.readItems, s.files;
    outFileNo' := outFileNo;
    match line {
      case BlockStart => block := true;
      case WriteStart => write, read, block := true, false, true;
      case ReadStart => read, block := true, true;
      case Stack(_, _) =>
        s' := TakeStackLine(verifier, s, pos, line);
        return;
      case Blank =>
        if |writeItems| > 0 && |readItems| > 0 {
          files := files + [File(outFileNo, writeItems + readItems)];
          outFileNo', writeItems, readItems := outFileNo + 1, [], [];
        }
        read, write := false, false;
      case Separator =>
        read, write, block, writeItems, readItems := false, false, false, [], [];
      case BlockEnd =>
        block, read, write := false, false, false;
        if |writeItems| > 0 && |readItems| > 0 {
          files := files + [File(outFileNo, writeItems + readItems)];
          outFileNo', writeItems, readItems := outFileNo + 1, [], [];
        }
      case Unmatched =>
    }
    s' := SyncState(block, read, write, writeItems, readItems, files);
  }

  method RunNormalSyncLoop(lines: seq<Line>, verifier: bool) returns (files: seq<File>)
    ensures files == SyncRun(verifier, Visible(lines)).files == Pairs(verifier, Visible(lines))
    ensures GoodFiles(Visible(lines), files)
  {
    var boundary := CheckBlockIntegrity(lines);
    var outFileNo, s := 0, SYNC_START;
    var i := 0;
    while i + 1 < boundary
      invariant i <= |Visible(lines)|
      invariant s == SyncRun(verifier, Visible(lines)[..i]) && outFileNo == |s.files|
    {
      assert Visible(lines)[..i + 1][..i] == Visible(lines)[..i];
      s, outFileNo := TakeLine(verifier, s, outFileNo, i, lines[i]);
      i := i + 1;
    }
    assert Visible(lines)[..i] == Visible(lines);
    files := s.files;
    SyncIsFirstPairs(verifier, Visible(lines));
    SyncFilesGood(verifier, Visible(lines));
    assert GoodFiles(Visible(lines), SyncRun(verifier, Visible(lines)).files);
  }

  lemma SyncStepGrows(verifier: bool, s: SyncState, pos: nat, line: Line)
    ensures s.files <= SyncStep(verifier, s, pos, line).files
  {
  }

  lemma {:induction false} SyncFilesGrow(verifier: bool, lines: seq<Line>, more: seq<Line>)
    ensures SyncRun(verifier, lines).files <= SyncRun(verifier, lines + more).files
    decreases |more|
  {
    if more == [] {
      assert lines + more == lines;
    } else {
      var n := |more| - 1;
      SyncFilesGrow(verifier, lines, more[..n]);
      var all := lines + more;
      assert all[..|all| - 1] == lines + more[..n];
      SyncStepGrows(verifier, SyncRun(verifier, lines + more[..n]), |all| - 1, all[|all| - 1]);
    }
  }

  /** Appending text to a report only adds files after those already written. */
  lemma SyncAppendOnly(verifier: bool, lines: seq<Line>, more: seq<Line>)
    ensures SyncRun(verifier, Visible(lines)).files <= SyncRun(verifier, Visible(lines + more)).files
  {
    BoundaryGrows(lines, more);
    var a, b := Visible(lines), Visible(lines + more);
    assert b == a + b[|a|..];
    SyncFilesGrow(verifier, a, b[|a|..]);
  }

  // ----- runNormalConAnalysis

  datatype ConState = ConState(block: bool, read: bool, pending: seq<Item>, files: seq<File>)

  function FlushCon(s: ConState): ConState {
    if |s.pending| > 0 then s.(pending := [], files := s.files + [File(|s.files|, s.pending)]) else s
  }

  function ConStep(s: ConState, pos: nat, line: Line): ConState {
    match line
    case BlockStart => s.(block := true)
    case ReadStart => s.(read := true, block := true)
    case Stack(interceptor, text) =>
      if s.read && s.block && !interceptor then s.(pending := s.pending + [Item(pos, text)]) else s
    case Blank => FlushCon(s).(read := false)
    case BlockEnd => FlushCon(s.(block := false, read := false))
    case _ => s
  }

  function ConRun(lines: seq<Line>): ConState {
    if lines == [] then ConState(false, false, [], [])
    else
      var n := |lines| - 1;
      ConStep(ConRun(lines[..n]), n, lines[n])
  }

  /** Line p lies in a read section: a read header above it, with no blank line or block end between. */
  ghost predicate InReadSection(lines: seq<Line>, p: nat)
    requires p <= |lines|
  {
    exists q :: 0 <= q < p && lines[q].ReadStart? && forall k :: q < k < p ==> !lines[k].Blank? && !lines[k].BlockEnd?
  }

  /** The stack lines outside the interceptors that stand in a read section, in report order. */
  ghost function Eligible(lines: seq<Line>): seq<Item> {
    if lines == [] then []
    else
      var n := |lines| - 1;
      Eligible(lines[..n]) +
      (if lines[n].Stack? && !lines[n].interceptor && InReadSection(lines, n) then [Item(n, lines[n].text)] else [])
  }

  /** Those from position `from` on. */
  ghost function EligibleFrom(lines: seq<Line>, from: nat): seq<Item> {
    if |lines| <= from then []
    else
      var n := |lines| - 1;
      EligibleFrom(lines[..n], from) +
      (if lines[n].Stack? && !lines[n].interceptor && InReadSection(lines, n) then [Item(n, lines[n].text)] else [])
  }

  /** A blank line or a block end. */
  predicate Cuts(line: Line) {
    line.Blank? || line.BlockEnd?
  }

  /** Just after the last such line. */
  ghost function LastCut(lines: seq<Line>): (cut: nat)
    ensures cut <= |lines| && (cut > 0 ==> Cuts(lines[cut - 1]))
    ensures forall k :: cut <= k < |lines| ==> !Cuts(lines[k])
  {
    if lines == [] then 0
    else if Cuts(lines[|lines| - 1]) then |lines|
    else LastCut(lines[..|lines| - 1])
  }

  /** One file per stretch between cuts that holds eligible lines: those lines, in report order. */
  ghost function Groups(lines: seq<Line>): seq<File> {
    if lines == [] then []
    else
      var n := |lines| - 1;
      var before, group := Groups(lines[..n]), EligibleFrom(lines[..n], LastCut(lines[..n]));
      if Cuts(lines[n]) && group != [] then before + [File(|before|, group)] else before
  }

  /** Between its cuts a file holds every eligible line and nothing else. */
  lemma {:induction false} EligibleFromMeans(lines: seq<Line>, from: nat)
    ensures forall it :: it in EligibleFrom(lines, from) <==>
      from <= it.pos < |lines| && Genuine(lines, it) && InReadSection(lines, it.pos)
  {
    if |lines| > from {
      var n := |lines| - 1;
      EligibleFromMeans(lines[..n], from);
      forall p: nat | p < n ensures InReadSection(lines[..n], p) <==> InReadSection(lines, p) {
        SectionPrefix(lines, p);
      }
      forall it ensures it in EligibleFrom(lines, from) <==>
        from <= it.pos < |lines| && Genuine(lines, it) && InReadSection(lines, it.pos)
      {
        if it.pos < n { assert Genuine(lines[..n], it) <==> Genuine(lines, it); }
      }
    }
  }

  lemma SectionPrefix(lines: seq<Line>, p: nat)
    requires p < |lines|
    ensures InReadSection(lines[..|lines| - 1], p) <==> InReadSection(lines, p)
  {
  }

  ghost function Contents(files: seq<File>): seq<Item> {
    if files == [] then [] else Contents(files[..|files| - 1]) + files[|files| - 1].content
  }

  lemma SectionStep(lines: seq<Line>)
    requires lines != []
    ensures
      var n := |lines| - 1;
      InReadSection(lines, |lines|) <==>
        lines[n].ReadStart? || (!lines[n].Blank? && !lines[n].BlockEnd? && InReadSection(lines[..n], n))
    ensures InReadSection(lines, |lines| - 1) <==> InReadSection(lines[..|lines| - 1], |lines| - 1)
  {
  }

  /** Nothing is lost, invented or reordered: the files, followed by what is still pending, are exactly
      the eligible lines, each file is non-empty, and files are numbered consecutively. */
  lemma {:induction false} ConConserves(lines: seq<Line>)
    ensures var s := ConRun(lines);
      && Contents(s.files) + s.pending == Eligible(lines)
      && (s.read <==> InReadSection(lines, |lines|)) && (s.read ==> s.block)
      && Numbered(s.files)
  {
    if lines != [] {
      var n := |lines| - 1;
      ConConserves(lines[..n]);
      SectionStep(lines);
      ConStepConserves(ConRun(lines[..n]), n, lines[n]);
    }
  }

  /** The files are exactly the groups, and what is pending is the eligible lines since the last cut: in
      particular nothing, right after one. */
  lemma {:induction false} ConIsGroups(lines: seq<Line>)
    ensures ConRun(lines).files == Groups(lines)
    ensures ConRun(lines).pending == EligibleFrom(lines, LastCut(lines))
    ensures lines != [] && Cuts(lines[|lines| - 1]) ==> ConRun(lines).pending == []
  {
    hide InReadSection, Eligible, Contents, Numbered;
    if lines != [] {
      var n := |lines| - 1;
      ConIsGroups(lines[..n]);
      ConConserves(lines[..n]);
      SectionStep(lines);
    }
  }

  ghost predicate Numbered(files: seq<File>) {
    forall k :: 0 <= k < |files| ==> files[k].number == k && |files[k].content| > 0
  }

  lemma FlushKeeps(s: ConState)
    requires Numbered(s.files)
    ensures Numbered(FlushCon(s).files) && FlushCon(s).pending == []
    ensures Contents(FlushCon(s).files) == Contents(s.files) + s.pending
  {
  }

  lemma ConStepConserves(s: ConState, pos: nat, line: Line)
    requires Numbered(s.files)
    ensures var s' := ConStep(s, pos, line);
      && Numbered(s'.files)
      && Contents(s'.files) + s'.pending
         == Contents(s.files) + s.pending
            + (if line.Stack? && !line.interceptor && s.read && s.block then [Item(pos, line.text)] else [])
  {
    match line
    case Blank => FlushKeeps(s);
    case BlockEnd => FlushKeeps(s.(block := false, read := false));
    case Stack(interceptor, text) =>
      assert Contents(s.files) + (s.pending + [Item(pos, text)]) == Contents(s.files) + s.pending + [Item(pos, text)];
    case _ =>
  }

  method RunNormalConAnalysis(lines: seq<Line>) returns (files: seq<File>)
    ensures files == ConRun(Visible(lines)).files == Groups(Visible(lines))
  {
    var boundary := CheckBlockIntegrity(lines);
    var outFileNo := 0;
    var block, read := false, false;
    var result: seq<Item> := [];
    files := [];
    var i := 0;
    while i + 1 < boundary
      invariant i <= |Visible(lines)|
      invariant outFileNo == |files|
      invariant ConRun(Visible(lines)[..i]) == ConState(block, read, result, files)
    {
      var line := lines[i];
      assert Visible(lines)[..i + 1][..i] == Visible(lines)[..i];
      match line {
        case BlockStart => block := true;
        case ReadStart => read, block := true, true;
        case Stack(interceptor, text) =>
          if read && block && !interceptor { result := result + [Item(i, text)]; }
        case Blank =>
          if |result| > 0 {
            files := files + [File(outFileNo, result)];
            outFileNo, result := outFileNo + 1, [];
          }
          read := false;
        case BlockEnd =>
          block, read := false, false;
          if |result| > 0 {
            files := files + [File(outFileNo, result)];
            outFileNo, result := outFileNo + 1, [];
          }
        case _ =>
      }
      i := i + 1;
    }
    assert Visible(lines)[..i] == Visible(lines);
    ConIsGroups(Visible(lines));
  }

  lemma {:induction false} ConFilesGrow(lines: seq<Line>, more: seq<Line>)
    ensures ConRun(lines).files <= ConRun(lines + more).files
    decreases |more|
  {
    if more == [] {
      assert lines + more == lines;
    } else {
      var n := |more| - 1;
      ConFilesGrow(lines, more[..n]);
      var all := lines + more;
      assert all[..|all| - 1] == lines + more[..n];
    }
  }

  lemma ConAppendOnly(lines: seq<Line>, more: seq<Line>)
    ensures ConRun(Visible(lines)).files <= ConRun(Visible(lines + more)).files
  {
    BoundaryGrows(lines, more);
    var a, b := Visible(lines), Visible(lines + more);
    assert b == a + b[|a|..];
    ConFilesGrow(a, b[|a|..]);
  }
}
