/** Whole runs of calls that map pages, map blocks and unmap pages refine a plain map of pages and blocks. */
module PageRuns {
  import opened Wrappers
  import opened PageTable
  import opened PageMapper
  import opened PageBlocks

  datatype Op = MapOp(va: nat, pa: nat, attrs: Attrs) | BlockOp(va: nat, pa: nat, attrs: Attrs) | UnmapOp(va: nat)

  /** The last-level table at a prefix, if there is one. */
  ghost function TablesAt(s: Tree, prefix: seq<nat>): set<nat> {
    set t | t in s.prefix && s.prefix[t] == prefix
  }

  /** One call, as `MapPage`, `MapL2Block` and `UnmapPage` promise it. */
  ghost predicate Does(mem: Memory, s: Tree, op: Op, mem': Memory, s': Tree) {
    && Ok(mem, s)
    && match op
       case MapOp(va, pa, attrs) =>
         if BlockOnPath(mem, s.root, PathOf(va))
         then s' == s && mem' == Scribbled(mem, BlockBase(mem, s.root, PathOf(va)), PathOf(va)[3], PageEntry(pa, attrs))
         else
           && Ok(mem', s') && Framed(mem, s, mem', s')
           && (forall path: Path :: Walk(mem', s.root, path) ==
                 if path == PathOf(va) then Some(Mapping(pa, attrs, true)) else Walk(mem, s.root, path))
           && (forall path: Path :: BlockOnPath(mem', s.root, path) == BlockOnPath(mem, s.root, path))
       case BlockOp(va, pa, attrs) =>
         && Ok(mem', s') && FramedBut(mem, s, mem', s', TablesAt(s, PathOf(va)[..3]))
         && (forall path: Path :: Walk(mem', s.root, path) ==
               if path[..3] == PathOf(va)[..3] then Some(Mapping(pa + path[3] * PAGE_SIZE, attrs, true))
                   else Walk(mem, s.root, path))
         && (forall path: Path :: BlockOnPath(mem', s.root, path) <==>
               path[..3] == PathOf(va)[..3] || BlockOnPath(mem, s.root, path))
       case UnmapOp(va) =>
         && Ok(mem', s') && Framed(mem, s, mem', s')
         && (forall path: Path :: Walk(mem', s.root, path) ==
               if path == PathOf(va) && !BlockOnPath(mem, s.root, path) then None else Walk(mem, s.root, path))
         && (forall path: Path :: BlockOnPath(mem', s.root, path) == BlockOnPath(mem, s.root, path))
  }

  method Call(m: Mapper, root: nat, op: Op, ghost s: Tree) returns (ghost s': Tree)
    requires Ok(m.mem, s) && root == s.root
    modifies m
    ensures Does(old(m.mem), s, op, m.mem, s')
  {
    hide Ok, Framed, FramedBut, Walk, BlockOnPath, PathOf, BlockBase, LastLevel;
    match op {
      case MapOp(va, pa, attrs) => s' := m.MapPage(root, pa, va, attrs, s);
      case BlockOp(va, pa, attrs) =>
        ghost var leaked;
        s', leaked := m.MapL2Block(root, pa, va, attrs, s);
        assert leaked == TablesAt(s, PathOf(va)[..3]);
      case UnmapOp(va) => s' := m.UnmapPage(root, va, s);
    }
  }

  datatype State = State(mem: Memory, tree: Tree)

  ghost predicate IsRun(states: seq<State>, ops: seq<Op>) {
    && |states| == |ops| + 1
    && forall i :: 0 <= i < |ops| ==> Does(states[i].mem, states[i].tree, ops[i], states[i + 1].mem, states[i + 1].tree)
  }

  /** The call maps a page inside a block whose base is a table of the tree. */
  ghost predicate Strays(st: State, op: Op) {
    && op.MapOp? && BlockOnPath(st.mem, st.tree.root, PathOf(op.va))
    && BlockBase(st.mem, st.tree.root, PathOf(op.va)) in st.tree.prefix
  }

  /** The pages and the blocks mapped, a block by the first three indices of its pages. */
  datatype Plain = Plain(pages: map<Path, Mapping>, blocks: map<seq<nat>, Mapping>)

  const NOTHING := Plain(map[], map[])

  function Apply(m: Plain, op: Op): Plain {
    match op
    case MapOp(va, pa, attrs) =>
      if PathOf(va)[..3] in m.blocks then m else m.(pages := m.pages[PathOf(va) := Mapping(pa, attrs, true)])
    case BlockOp(va, pa, attrs) =>
      var prefix := PathOf(va)[..3];
      Plain(map path | path in m.pages && path[..3] != prefix ::
          m.pages[path], m.blocks[prefix := Mapping(pa, attrs, true)])
    case UnmapOp(va) =>
      if PathOf(va)[..3] in m.blocks then m else m.(pages := m.pages - {PathOf(va)})
  }

  function ApplyAll(m: Plain, ops: seq<Op>): Plain {
    if ops == [] then m else Apply(ApplyAll(m, ops[..|ops| - 1]), ops[|ops| - 1])
  }

  function Lookup(m: Plain, path: Path): Option<Mapping> {
    if path[..3] in m.blocks then
      var block := m.blocks[path[..3]];
      Some(Mapping(block.frame + path[3] * PAGE_SIZE, block.attrs, block.accessed))
    else if path in m.pages then Some(m.pages[path])
    else None
  }

  ghost predicate Agrees(mem: Memory, root: nat, m: Plain) {
    forall path: Path ::
      Walk(mem, root, path) == Lookup(m, path) && (BlockOnPath(mem, root, path) <==> path[..3] in m.blocks)
  }

  /** No page is kept under a block. */
  ghost predicate Apart(m: Plain) {
    forall path: Path :: path in m.pages ==> path[..3] !in m.blocks
  }

  lemma StepAgrees(mem: Memory, s: Tree, op: Op, mem': Memory, s': Tree, m: Plain)
    requires Does(mem, s, op, mem', s') && Agrees(mem, s.root, m) && Apart(m) && !Strays(State(mem, s), op)
    ensures Ok(mem', s') && s'.root == s.root && Agrees(mem', s'.root, Apply(m, op)) && Apart(Apply(m, op))
  {
    hide Ok, Walk, BlockOnPath, PathOf, BlockBase, WalkFrom, TablesAt;
    match op
    case MapOp(va, pa, attrs) =>
      if BlockOnPath(mem, s.root, PathOf(va)) {
        AsideKeeps(mem, s, BlockBase(mem, s.root, PathOf(va)), PathOf(va)[3], pa, attrs);
      }
    case BlockOp(va, pa, attrs) => BlockAgrees(mem, s, op, mem', s', m);
    case UnmapOp(va) =>
  }

  lemma BlockAgrees(mem: Memory, s: Tree, op: Op, mem': Memory, s': Tree, m: Plain)
    requires Does(mem, s, op, mem', s') && Agrees(mem, s.root, m) && Apart(m) && op.BlockOp?
    ensures s'.root == s.root && Agrees(mem', s'.root, Apply(m, op)) && Apart(Apply(m, op))
  {
    hide Ok, Walk, BlockOnPath, PathOf, BlockBase, TablesAt, FramedBut;
    FramedButRoot(mem, s, mem', s', TablesAt(s, PathOf(op.va)[..3]));
    forall path: Path
      ensures Walk(mem', s.root, path) == Lookup(Apply(m, op), path)
      ensures BlockOnPath(mem', s.root, path) <==> path[..3] in Apply(m, op).blocks
    {
      assert Walk(mem, s.root, path) == Lookup(m, path);
    }
  }

  /** An entry written outside the tree changes no translation of it. */
  lemma AsideKeeps(mem: Memory, s: Tree, t: nat, i: nat, pa: nat, attrs: Attrs)
    requires Ok(mem, s) && t !in s.prefix && i < TABLE_ENTRIES
    ensures var mem' := Scribbled(mem, t, i, PageEntry(pa, attrs)); Ok(mem', s) && SameWalks(mem, mem', s.root)
  {
    hide LinksDown, LinksUp, NoneEmpty, WalkFrom, TableAt;
    var mem' := Scribbled(mem, t, i, PageEntry(pa, attrs));
    ScribbledOkIff(mem, s, t, i, pa, attrs);
    forall path: Path
      ensures Walk(mem', s.root, path) == Walk(mem, s.root, path)
                && BlockOnPath(mem', s.root, path) == BlockOnPath(mem, s.root, path)
    {
      ScribbledWalk(mem, s, t, i, pa, attrs, path);
      SameTable(mem, s, mem', s, path, 2);
      TableAtSound(mem, s, path, 2);
      Within(mem, s);
    }
  }

  /**
   * From an empty root, after any sequence of calls that writes no table through a
   * block, the four-level walk is the map of pages and blocks the same calls build.
   */
  lemma {:induction false} RunRefinesPlainMap(states: seq<State>, ops: seq<Op>)
    requires IsRun(states, ops) && forall i :: 0 <= i < |ops| ==> !Strays(states[i], ops[i])
    requires states[0].tree == FreshTree(states[0].tree.root) && Ok(states[0].mem, states[0].tree)
    requires states[0].mem[states[0].tree.root] == EmptyTable()
    ensures var last, m := states[|ops|], ApplyAll(NOTHING, ops);
            && Ok(last.mem, last.tree) && last.tree.root == states[0].tree.root
            && Agrees(last.mem, last.tree.root, m) && Apart(m)
    decreases |ops|
  {
    if ops == [] {
      FreshAgrees(states[0].mem, states[0].tree.root);
    } else {
      var n := |ops| - 1;
      RunRefinesPlainMap(states[..n + 1], ops[..n]);
      hide Ok, Agrees, Apply, Apart, Does;
      assert Does(states[n].mem, states[n].tree, ops[n], states[n + 1].mem, states[n + 1].tree);
      StepAgrees(states[n].mem, states[n].tree, ops[n], states[n + 1].mem, states[n + 1].tree,
          ApplyAll(NOTHING, ops[..n]));
    }
  }

  lemma FreshAgrees(mem: Memory, root: nat)
    requires root in mem && root != 0 && mem[root] == EmptyTable()
    ensures Agrees(mem, root, NOTHING)
  {
    FreshTreeOk(mem, root);
    forall path: Path ensures !BlockOnPath(mem, root, path) {
      assert TableAt(mem, root, path, 1) == None;
      assert TableAt(mem, root, path, 2) == None;
    }
  }

  lemma {:induction false} PagesOnly(ops: seq<Op>)
    requires forall i :: 0 <= i < |ops| ==> !ops[i].BlockOp?
    ensures ApplyAll(NOTHING, ops).blocks == map[]
  {
    if ops != [] { PagesOnly(ops[..|ops| - 1]); }
  }

  lemma NoBlockNoStray(st: State, m: Plain, op: Op)
    requires Agrees(st.mem, st.tree.root, m) && m.blocks == map[]
    ensures !Strays(st, op)
  {
    hide Walk, BlockOnPath, PathOf, BlockBase;
  }

  /** A run that maps no block never strays. */
  lemma {:induction false} PagesNeverStray(states: seq<State>, ops: seq<Op>, n: nat)
    requires IsRun(states, ops) && forall i :: 0 <= i < |ops| ==> !ops[i].BlockOp?
    requires states[0].tree == FreshTree(states[0].tree.root) && Ok(states[0].mem, states[0].tree)
    requires states[0].mem[states[0].tree.root] == EmptyTable() && n <= |ops|
    ensures forall i :: 0 <= i < n ==> !Strays(states[i], ops[i])
  {
    if n > 0 {
      PagesNeverStray(states, ops, n - 1);
      var st, m := states[n - 1], ApplyAll(NOTHING, ops[..n - 1]);
      RunRefinesPlainMap(states[..n], ops[..n - 1]);
      PagesOnly(ops[..n - 1]);
      hide Does, Agrees, Strays, Ok;
      NoBlockNoStray(st, m, ops[n - 1]);
    }
  }

  // ---------------------------------------------------------------- which tables are live, and which are lost

  /** A table other than the root is live exactly while a page or a block below it is mapped. */
  lemma LiveTablesServePlainMap(mem: Memory, s: Tree, m: Plain, t: nat)
    requires Ok(mem, s) && Agrees(mem, s.root, m) && t in s.prefix && t != s.root
    ensures exists path: Path :: Lookup(m, path).Some? && OnPath(s, t, path)
  {
    var path := TableServesMapping(mem, s, t);
    assert Lookup(m, path).Some?;
  }

  lemma PlainMapNeedsTables(mem: Memory, s: Tree, m: Plain, path: Path, n: nat)
    requires Ok(mem, s) && Agrees(mem, s.root, m) && Lookup(m, path).Some? && n <= if path[..3] in m.blocks then 2
               else 3
    ensures exists t :: t in s.prefix && s.prefix[t] == path[..n]
  {
    hide TableAt, LinksDown, LinksUp, NoneEmpty;
    Within(mem, s);
    assert Walk(mem, s.root, path).Some?;
    MappingNeedsTables(mem, s, path);
    assert s.prefix[s.root] == path[..0];
  }

  /** The call covers mapped pages with a block. */
  ghost predicate Covers(m: Plain, op: Op) {
    op.BlockOp? && exists path: Path :: path in m.pages && path[..3] == PathOf(op.va)[..3]
  }

  /** Tables that are neither in the tree nor freed. */
  ghost function Outside(st: State): set<nat> {
    st.mem.Keys - st.tree.prefix.Keys
  }

  ghost function Losses(ops: seq<Op>): nat {
    if ops == [] then 0
    else
      var n := |ops| - 1;
      Losses(ops[..n]) + if Covers(ApplyAll(NOTHING, ops[..n]), ops[n]) then 1 else 0
  }

  /** A block takes a table out of the tree just when it covers a mapped page. */
  lemma CoversIff(mem: Memory, s: Tree, m: Plain, op: Op)
    requires Ok(mem, s) && Agrees(mem, s.root, m) && Apart(m) && op.BlockOp?
    ensures var lost := TablesAt(s, PathOf(op.va)[..3]); |lost| == if Covers(m, op) then 1 else 0
  {
    hide LinksDown, LinksUp, NoneEmpty, PathOf, Walk, TableAt;
    var prefix := PathOf(op.va)[..3];
    var lost := TablesAt(s, prefix);
    if t :| t in lost {
      Within(mem, s);
      var path := TableServesMapping(mem, s, t);
      TableAtComplete(mem, s, path, 3, t);
      NoBlockAbove(mem, s.root, path);
      assert path in m.pages && path[..3] == prefix;
      forall u | u in lost ensures u == t { PrefixInjective(mem, s, t, u); }
      assert lost == {t};
    }
    if path: Path :| path in m.pages && path[..3] == prefix {
      assert Lookup(m, path).Some?;
      PlainMapNeedsTables(mem, s, m, path, 3);
      var t :| t in s.prefix && s.prefix[t] == prefix;
      assert t in lost;
    }
  }

  lemma StepOutside(mem: Memory, s: Tree, op: Op, mem': Memory, s': Tree)
    requires Does(mem, s, op, mem', s')
    ensures Outside(State(mem', s')) == Outside(State(mem, s)) + if op.BlockOp? then TablesAt(s, PathOf(op.va)[..3])
              else {}
  {
    hide Ok, Walk, BlockOnPath, PathOf, BlockBase;
    assert Ok(mem, s);
  }

  /** After a run the tables lost are as many as the calls that covered mapped pages with a block. */
  lemma {:induction false} LossesCounted(states: seq<State>, ops: seq<Op>)
    requires IsRun(states, ops) && forall i :: 0 <= i < |ops| ==> !Strays(states[i], ops[i])
    requires states[0].tree == FreshTree(states[0].tree.root) && Ok(states[0].mem, states[0].tree)
    requires states[0].mem[states[0].tree.root] == EmptyTable()
    ensures |Outside(states[|ops|])| == |Outside(states[0])| + Losses(ops)
    decreases |ops|
  {
    hide Ok, Agrees, Apply, Apart, Does, Covers, Strays, Outside;
    if ops != [] {
      var n := |ops| - 1;
      LossesCounted(states[..n + 1], ops[..n]);
      RunRefinesPlainMap(states[..n + 1], ops[..n]);
      StepLoses(states[n], ops[n], states[n + 1], ApplyAll(NOTHING, ops[..n]));
    }
  }

  lemma StepLoses(st: State, op: Op, next: State, m: Plain)
    requires Does(st.mem, st.tree, op, next.mem, next.tree) && Agrees(st.mem, st.tree.root, m) && Apart(m)
    ensures |Outside(next)| == |Outside(st)| + if Covers(m, op) then 1 else 0
  {
    assert Ok(st.mem, st.tree);
    hide Ok, Agrees, Apart, Does, Covers, PathOf;
    StepOutside(st.mem, st.tree, op, next.mem, next.tree);
    if op.BlockOp? {
      var lost := TablesAt(st.tree, PathOf(op.va)[..3]);
      CoversIff(st.mem, st.tree, m, op);
      assert Outside(st) !! lost;
    } else {
      NoCover(m, op);
      assert Outside(st) + {} == Outside(st);
    }
  }

  lemma NoCover(m: Plain, op: Op)
    requires !op.BlockOp?
    ensures !Covers(m, op)
  {
  }
}
