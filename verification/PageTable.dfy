/**
 * Four-level translation tables in memory. A tree of tables is described by the
 * prefix of index bits that leads to each of its tables, so that a walk, the
 * tables it passes and the tables a tree owns can all be told from prefixes.
 */
module PageTable {
  import opened Wrappers

  const TABLE_ENTRIES: nat := 2048
  const PAGE_SIZE: nat := 16384

  datatype Attrs = Attrs(access: nat, share: nat, executable: bool, privilegedExecutable: bool, attrIndex: nat)
  datatype Entry = Entry(valid: bool, isTable: bool, addr: nat, accessed: bool, attrs: Attrs) {
    /** Valid and with the table bit set: a table pointer, or a page at the last level. */
    predicate Link() { valid && isTable }
    predicate IsBlock() { valid && !isTable }
  }
  type Table = t: seq<Entry> | |t| == TABLE_ENTRIES witness EmptyTable()
  type Memory = map<nat, Table>

  /** Index bits from the root down: 1 + 11 + 11 + 11. */
  type Path = p: seq<nat> | |p| == 4 && p[0] < 2 && p[1] < TABLE_ENTRIES && p[2] < TABLE_ENTRIES && p[3] < TABLE_ENTRIES
    witness [0, 0, 0, 0]

  /** What a page translates to; a page whose access flag is clear faults when it is used. */
  datatype Mapping = Mapping(frame: nat, attrs: Attrs, accessed: bool)

  const NO_ATTRS: Attrs := Attrs(0, 0, false, false, 0)
  const INVALID: Entry := Entry(false, false, 0, false, NO_ATTRS)

  function EmptyTable(): (t: seq<Entry>)
    ensures |t| == TABLE_ENTRIES && forall i :: 0 <= i < |t| ==> t[i] == INVALID
  {
    seq(TABLE_ENTRIES, _ => INVALID)
  }

  function PathOf(va: nat): Path {
    [(va / 0x8000_0000_0000) % 2, (va / 0x10_0000_0000) % 2048, (va / 0x200_0000) % 2048, (va / 0x4000) % 2048]
  }

  // ---------------------------------------------------------------- the walk

  /** The table a walk reaches after `n` levels. */
  function TableAt(mem: Memory, root: nat, path: seq<nat>, n: nat): Option<nat>
    requires n <= |path|
  {
    if n == 0 then Some(root)
    else
      match TableAt(mem, root, path, n - 1)
      case None => None
      case Some(t) =>
        if t in mem && path[n - 1] < TABLE_ENTRIES && mem[t][path[n - 1]].Link()
        then Some(mem[t][path[n - 1]].addr) else None
  }

  /** The translation of a page: through a page entry at the last level or a block entry one level up. */
  function Walk(mem: Memory, root: nat, path: Path): Option<Mapping> {
    match TableAt(mem, root, path, 3)
    case Some(t) =>
      if t in mem && mem[t][path[3]].Link()
          then Some(Mapping(mem[t][path[3]].addr, mem[t][path[3]].attrs, mem[t][path[3]].accessed)) else None
    case None =>
      match TableAt(mem, root, path, 2)
      case None => None
      case Some(t) =>
        if t in mem && mem[t][path[2]].IsBlock()
        then Some(Mapping(mem[t][path[2]].addr + path[3] * PAGE_SIZE, mem[t][path[2]].attrs, mem[t][path[2]].accessed))
            else None
  }

  // ---------------------------------------------------------------- trees

  /** A tree: its root, and for each of its tables the indices that lead there and the table above. */
  datatype Tree = Tree(root: nat, prefix: map<nat, seq<nat>>, parent: map<nat, nat>)

  ghost predicate Rooted(mem: Memory, s: Tree) {
    && s.prefix.Keys <= mem.Keys && 0 !in s.prefix
    && s.root in s.prefix
    && (forall t :: t in s.prefix ==> |s.prefix[t]| <= 3 && (s.prefix[t] == [] <==> t == s.root))
  }

  /**
   * The entries of the tables above the last level: links go to tables of the tree, invalid
   * entries hold no address.
   */
  ghost predicate EntryOk(mem: Memory, s: Tree, t: nat, i: nat)
    requires t in s.prefix && t in mem && i < TABLE_ENTRIES
  {
    var e := mem[t][i];
    && (!e.valid ==> e.addr == 0)
    && (|s.prefix[t]| < 3 ==>
          && (e.Link() ==> e.addr in s.prefix && s.prefix[e.addr] == s.prefix[t] + [i])
          && (e.IsBlock() ==> |s.prefix[t]| == 2))
    && (|s.prefix[t]| == 3 ==> !e.IsBlock())
    && (e.valid && t == s.root ==> i < 2)
  }

  ghost predicate LinksDown(mem: Memory, s: Tree)
    requires Rooted(mem, s)
  {
    forall t, i :: t in s.prefix && 0 <= i < TABLE_ENTRIES ==> EntryOk(mem, s, t, i)
  }

  /** The table is linked from the table above it, at the last index of its prefix. */
  ghost predicate LinkedUp(mem: Memory, s: Tree, t: nat)
    requires t in s.prefix && s.prefix[t] != []
  {
    var n := |s.prefix[t]| - 1;
    && t in s.parent && s.parent[t] in s.prefix && s.parent[t] in mem
    && s.prefix[s.parent[t]] == s.prefix[t][..n]
    && s.prefix[t][n] < TABLE_ENTRIES
    && mem[s.parent[t]][s.prefix[t][n]].Link() && mem[s.parent[t]][s.prefix[t][n]].addr == t
  }

  ghost predicate LinksUp(mem: Memory, s: Tree)
    requires Rooted(mem, s)
  {
    forall t :: t in s.prefix && t != s.root ==> LinkedUp(mem, s, t)
  }

  predicate HasEntry(t: Table) {
    exists i :: 0 <= i < TABLE_ENTRIES && t[i].valid
  }

  /** No table but the root and, for the moment, those of `open` is empty. */
  ghost predicate NoneEmpty(mem: Memory, s: Tree, open: set<nat>)
    requires Rooted(mem, s)
  {
    forall t :: t in s.prefix && t != s.root && t !in open ==> HasEntry(mem[t])
  }

  ghost predicate Shape(mem: Memory, s: Tree) {
    Rooted(mem, s) && LinksDown(mem, s) && LinksUp(mem, s)
  }

  ghost predicate Ok(mem: Memory, s: Tree) {
    Shape(mem, s) && NoneEmpty(mem, s, {})
  }

  // Readings of the shape of a tree at one table or one entry.

  lemma Within(mem: Memory, s: Tree)
    requires Shape(mem, s)
    ensures Rooted(mem, s)
  {
  }

  lemma EntryAt(mem: Memory, s: Tree, t: nat, i: nat)
    requires Shape(mem, s) && t in s.prefix && i < TABLE_ENTRIES
    ensures t in mem && EntryOk(mem, s, t, i)
  {
  }

  lemma UpAt(mem: Memory, s: Tree, t: nat)
    requires Shape(mem, s) && t in s.prefix && t != s.root
    ensures s.prefix[t] != [] && LinkedUp(mem, s, t)
  {
  }

  lemma ShapeFrom(mem: Memory, s: Tree)
    requires Rooted(mem, s)
    requires forall t, i :: t in s.prefix && 0 <= i < TABLE_ENTRIES ==> EntryOk(mem, s, t, i)
    requires forall t :: t in s.prefix && t != s.root ==> LinkedUp(mem, s, t)
    ensures Shape(mem, s)
  {
  }

  lemma SameParent(p: seq<nat>, i: nat, q: seq<nat>, j: nat)
    requires p + [i] == q + [j]
    ensures p == q && i == j
  {
    assert p == (p + [i])[..|p|] && q == (q + [j])[..|q|];
    assert (p + [i])[|p|] == i && (q + [j])[|q|] == j;
  }

  /** Two tables of a tree with the same prefix are the same table. */
  lemma {:induction false} PrefixInjective(mem: Memory, s: Tree, t: nat, u: nat)
    requires Shape(mem, s) && t in s.prefix && u in s.prefix && s.prefix[t] == s.prefix[u]
    ensures t == u
    decreases |s.prefix[t]|
  {
    hide LinksDown, LinksUp;
    if s.prefix[t] != [] {
      UpAt(mem, s, t);
      UpAt(mem, s, u);
      PrefixInjective(mem, s, s.parent[t], s.parent[u]);
    }
  }

  /** A walk reaches exactly the tables whose prefix it follows. */
  lemma {:induction false} TableAtSound(mem: Memory, s: Tree, path: Path, n: nat)
    requires Shape(mem, s) && n <= 3
    ensures var r := TableAt(mem, s.root, path, n);
            r.Some? ==> r.value in s.prefix && s.prefix[r.value] == path[..n]
  {
    hide LinksDown, LinksUp;
    if n > 0 {
      TableAtSound(mem, s, path, n - 1);
      var r := TableAt(mem, s.root, path, n - 1);
      if r.Some? {
        EntryAt(mem, s, r.value, path[n - 1]);
        assert path[..n] == path[..n - 1] + [path[n - 1]];
      }
    }
  }

  lemma {:induction false} TableAtComplete(mem: Memory, s: Tree, path: Path, n: nat, t: nat)
    requires Shape(mem, s) && n <= 3 && t in s.prefix && s.prefix[t] == path[..n]
    ensures TableAt(mem, s.root, path, n) == Some(t)
  {
    hide LinksDown, LinksUp;
    if n > 0 {
      UpAt(mem, s, t);
      assert path[..n][..n - 1] == path[..n - 1];
      TableAtComplete(mem, s, path, n - 1, s.parent[t]);
    }
  }

  /** A prefix that no table has is not reached. */
  lemma NotReached(mem: Memory, s: Tree, path: Path, n: nat)
    requires Shape(mem, s) && n <= 3 && forall t :: t in s.prefix ==> s.prefix[t] != path[..n]
    ensures TableAt(mem, s.root, path, n) == None
  {
    TableAtSound(mem, s, path, n);
  }

  /** Where an entry is no link, no table of the tree has the prefix it would lead to. */
  lemma NoLinkNoTable(mem: Memory, s: Tree, t: nat, i: nat, u: nat)
    requires Shape(mem, s) && t in s.prefix && i < TABLE_ENTRIES && !mem[t][i].Link() && u in s.prefix
    ensures s.prefix[u] != s.prefix[t] + [i]
  {
    hide LinksDown, LinksUp;
    if s.prefix[u] == s.prefix[t] + [i] {
      UpAt(mem, s, u);
      assert s.prefix[u][..|s.prefix[u]| - 1] == s.prefix[t];
      PrefixInjective(mem, s, s.parent[u], t);
    }
  }

  /** Trees that agree on the tables with the prefix of a walk agree on where the walk goes. */
  lemma SameTable(mem: Memory, s: Tree, mem': Memory, s': Tree, path: Path, n: nat)
    requires Shape(mem, s) && Shape(mem', s') && n <= 3
    requires forall t :: t in s.prefix && s.prefix[t] == path[..n] ==> t in s'.prefix && s'.prefix[t] == path[..n]
    requires forall t :: t in s'.prefix && s'.prefix[t] == path[..n] ==> t in s.prefix && s.prefix[t] == path[..n]
    ensures TableAt(mem, s.root, path, n) == TableAt(mem', s'.root, path, n)
  {
    TableAtSound(mem, s, path, n);
    TableAtSound(mem', s', path, n);
    var r, r' := TableAt(mem, s.root, path, n), TableAt(mem', s'.root, path, n);
    if r.Some? {
      TableAtComplete(mem', s', path, n, r.value);
    } else if r'.Some? {
      TableAtComplete(mem, s, path, n, r'.value);
    }
  }

  // ---------------------------------------------------------------- linking a new table

  function Linked(e: Entry, t: nat): Entry {
    e.(valid := true, isTable := true, addr := t)
  }

  function AddTable(mem: Memory, t: nat, i: nat, child: nat): Memory
    requires t in mem && i < TABLE_ENTRIES
  {
    mem[child := EmptyTable()][t := mem[t][i := Linked(mem[t][i], child)]]
  }

  function AddBranch(s: Tree, t: nat, i: nat, child: nat): Tree
    requires t in s.prefix
  {
    Tree(s.root, s.prefix[child := s.prefix[t] + [i]], s.parent[child := t])
  }

  ghost predicate CanAdd(mem: Memory, s: Tree, t: nat, i: nat, child: nat) {
    && Shape(mem, s) && t in s.prefix && |s.prefix[t]| < 3 && i < TABLE_ENTRIES && (t == s.root ==> i < 2)
    && !mem[t][i].valid && child !in mem && child != 0
  }

  lemma AddEntryOk(mem: Memory, s: Tree, t: nat, i: nat, child: nat, u: nat, j: nat)
    requires CanAdd(mem, s, t, i, child) && j < TABLE_ENTRIES && (u in s.prefix || u == child)
    ensures EntryOk(AddTable(mem, t, i, child), AddBranch(s, t, i, child), u, j)
  {
    hide LinksDown, LinksUp;
    if u != child { EntryAt(mem, s, u, j); }
  }

  lemma AddLinkedUp(mem: Memory, s: Tree, t: nat, i: nat, child: nat, u: nat)
    requires CanAdd(mem, s, t, i, child) && u != s.root && (u in s.prefix || u == child)
    ensures AddBranch(s, t, i, child).prefix[u] != []
              && LinkedUp(AddTable(mem, t, i, child), AddBranch(s, t, i, child), u)
  {
    hide LinksDown, LinksUp;
    if u != child { UpAt(mem, s, u); }
  }

  lemma AddTableShape(mem: Memory, s: Tree, t: nat, i: nat, child: nat)
    requires CanAdd(mem, s, t, i, child)
    ensures Shape(AddTable(mem, t, i, child), AddBranch(s, t, i, child))
  {
    hide EntryOk, LinkedUp, LinksDown, LinksUp;
    var mem', s' := AddTable(mem, t, i, child), AddBranch(s, t, i, child);
    assert Rooted(mem', s');
    forall u, j | u in s'.prefix && 0 <= j < TABLE_ENTRIES ensures EntryOk(mem', s', u, j) {
      AddEntryOk(mem, s, t, i, child, u, j);
    }
    forall u | u in s'.prefix && u != s'.root ensures LinkedUp(mem', s', u) {
      AddLinkedUp(mem, s, t, i, child, u);
    }
    ShapeFrom(mem', s');
  }

  lemma AddTableNoneEmpty(mem: Memory, s: Tree, t: nat, i: nat, child: nat, open: set<nat>)
    requires CanAdd(mem, s, t, i, child) && NoneEmpty(mem, s, open)
               && Shape(AddTable(mem, t, i, child), AddBranch(s, t, i, child))
    ensures NoneEmpty(AddTable(mem, t, i, child), AddBranch(s, t, i, child), open - {t} + {child})
  {
    var mem' := AddTable(mem, t, i, child);
    assert mem'[t][i].valid;
  }

  lemma AddTableAt(mem: Memory, s: Tree, t: nat, i: nat, child: nat, path: Path, n: nat)
    requires CanAdd(mem, s, t, i, child) && n <= 3
    ensures TableAt(AddTable(mem, t, i, child), s.root, path, n) ==
              if path[..n] == s.prefix[t] + [i] then Some(child) else TableAt(mem, s.root, path, n)
    ensures path[..n] == s.prefix[t] + [i] ==> TableAt(mem, s.root, path, n) == None
  {
    var mem', s' := AddTable(mem, t, i, child), AddBranch(s, t, i, child);
    AddTableShape(mem, s, t, i, child);
    assert child !in s.prefix;
    hide Shape, Rooted, LinksDown, LinksUp, TableAt;
    if path[..n] == s.prefix[t] + [i] {
      forall u | u in s.prefix ensures s.prefix[u] != path[..n] { NoLinkNoTable(mem, s, t, i, u); }
      TableAtComplete(mem', s', path, n, child);
      NotReached(mem, s, path, n);
    } else {
      SameTable(mem, s, mem', s', path, n);
    }
  }

  /** Linking an empty table changes no translation. */
  lemma AddTableWalk(mem: Memory, s: Tree, t: nat, i: nat, child: nat, path: Path)
    requires CanAdd(mem, s, t, i, child)
    ensures Walk(AddTable(mem, t, i, child), s.root, path) == Walk(mem, s.root, path)
  {
    hide TableAt, LinksDown, LinksUp;
    AddTableAt(mem, s, t, i, child, path, 3);
    AddTableAt(mem, s, t, i, child, path, 2);
    TableAtSound(mem, s, path, 3);
    TableAtSound(mem, s, path, 2);
    assert path[..3] == path[..2] + [path[2]];
    if path[..3] == s.prefix[t] + [i] {
      assert path[..2] == s.prefix[t] && path[2] == i;
      TableAtComplete(mem, s, path, 2, t);
    } else if path[..2] == s.prefix[t] + [i] {
      NoDeeper(mem, s, path);
    }
  }

  /** The walk of `path` meets a block entry at level 2. */
  predicate BlockOnPath(mem: Memory, root: nat, path: Path) {
    match TableAt(mem, root, path, 2)
    case None => false
    case Some(t) => t in mem && mem[t][path[2]].IsBlock()
  }

  lemma AddTableBlock(mem: Memory, s: Tree, t: nat, i: nat, child: nat, path: Path)
    requires CanAdd(mem, s, t, i, child)
    ensures BlockOnPath(AddTable(mem, t, i, child), s.root, path) == BlockOnPath(mem, s.root, path)
  {
    hide TableAt, LinksDown, LinksUp;
    AddTableAt(mem, s, t, i, child, path, 2);
    TableAtSound(mem, s, path, 2);
  }

  /** A walk that stops before level 2 does not get to level 3. */
  lemma NoDeeper(mem: Memory, s: Tree, path: Path)
    requires TableAt(mem, s.root, path, 2) == None
    ensures TableAt(mem, s.root, path, 3) == None
  {
  }

  // ---------------------------------------------------------------- writing an entry

  function SetEntry(mem: Memory, t: nat, i: nat, e: Entry): Memory
    requires t in mem && i < TABLE_ENTRIES
  {
    mem[t := mem[t][i := e]]
  }

  /** The entry `e` may stand at a last-level position: a page, or nothing. */
  predicate IsLeaf(e: Entry) {
    if e.valid then e.isTable else e.addr == 0
  }

  lemma SetLeafShape(mem: Memory, s: Tree, t: nat, i: nat, e: Entry)
    requires Shape(mem, s) && t in s.prefix && |s.prefix[t]| == 3 && i < TABLE_ENTRIES && IsLeaf(e)
    ensures Shape(SetEntry(mem, t, i, e), s)
  {
    hide LinksDown, LinksUp;
    var mem' := SetEntry(mem, t, i, e);
    forall u, j | u in s.prefix && 0 <= j < TABLE_ENTRIES ensures EntryOk(mem', s, u, j) {
      EntryAt(mem, s, u, j);
    }
    forall u | u in s.prefix && u != s.root ensures LinkedUp(mem', s, u) {
      UpAt(mem, s, u);
    }
    ShapeFrom(mem', s);
  }

  lemma SetLeafNoneEmpty(mem: Memory, s: Tree, t: nat, i: nat, e: Entry, open: set<nat>)
    requires Shape(mem, s) && t in s.prefix && i < TABLE_ENTRIES && NoneEmpty(mem, s, open)
    ensures NoneEmpty(SetEntry(mem, t, i, e), s, if e.valid then open - {t} else open + {t})
  {
    var mem' := SetEntry(mem, t, i, e);
    assert mem'[t][i] == e;
  }

  lemma SetLeafHere(mem: Memory, s: Tree, t: nat, i: nat, e: Entry, path: Path)
    requires Shape(mem, s) && t in s.prefix && |s.prefix[t]| == 3 && i < TABLE_ENTRIES && IsLeaf(e)
               && path == s.prefix[t] + [i]
    ensures Walk(SetEntry(mem, t, i, e), s.root, path) == if e.valid then Some(Mapping(e.addr, e.attrs, e.accessed))
              else None
  {
    SetLeafShape(mem, s, t, i, e);
    hide LinksDown, LinksUp, TableAt;
    assert path[..3] == s.prefix[t] && path[3] == i;
    TableAtComplete(SetEntry(mem, t, i, e), s, path, 3, t);
  }

  lemma SetLeafThere(mem: Memory, s: Tree, t: nat, i: nat, e: Entry, path: Path)
    requires Shape(mem, s) && t in s.prefix && |s.prefix[t]| == 3 && i < TABLE_ENTRIES && IsLeaf(e)
               && path != s.prefix[t] + [i]
    ensures Walk(SetEntry(mem, t, i, e), s.root, path) == Walk(mem, s.root, path)
  {
    var mem' := SetEntry(mem, t, i, e);
    SetLeafShape(mem, s, t, i, e);
    Within(mem, s);
    hide Shape, Rooted, LinksDown, LinksUp, TableAt, IsLeaf;
    SameTable(mem, s, mem', s, path, 3);
    SameTable(mem, s, mem', s, path, 2);
    SetLeafElsewhere(mem, s, t, i, path);
  }

  /** Writing a last-level entry changes the translation of its page and of no other. */
  lemma SetLeafWalk(mem: Memory, s: Tree, t: nat, i: nat, e: Entry, path: Path)
    requires Shape(mem, s) && t in s.prefix && |s.prefix[t]| == 3 && i < TABLE_ENTRIES && IsLeaf(e)
    ensures Walk(SetEntry(mem, t, i, e), s.root, path) ==
              if path == s.prefix[t] + [i] then (if e.valid then Some(Mapping(e.addr, e.attrs, e.accessed)) else None)
              else Walk(mem, s.root, path)
  {
    hide LinksDown, LinksUp, Walk, IsLeaf;
    if path == s.prefix[t] + [i] {
      SetLeafHere(mem, s, t, i, e, path);
    } else {
      SetLeafThere(mem, s, t, i, e, path);
    }
  }

  lemma SetLeafBlock(mem: Memory, s: Tree, t: nat, i: nat, e: Entry, path: Path)
    requires Shape(mem, s) && t in s.prefix && |s.prefix[t]| == 3 && i < TABLE_ENTRIES && IsLeaf(e)
    ensures BlockOnPath(SetEntry(mem, t, i, e), s.root, path) == BlockOnPath(mem, s.root, path)
  {
    SetLeafShape(mem, s, t, i, e);
    hide LinksDown, LinksUp, TableAt;
    SameTable(mem, s, SetEntry(mem, t, i, e), s, path, 2);
    TableAtSound(mem, s, path, 2);
  }

  lemma SetLeafElsewhere(mem: Memory, s: Tree, t: nat, i: nat, path: Path)
    requires Shape(mem, s) && t in s.prefix && |s.prefix[t]| == 3 && path != s.prefix[t] + [i]
    ensures TableAt(mem, s.root, path, 3) == Some(t) ==> path[3] != i
    ensures TableAt(mem, s.root, path, 2) != Some(t)
  {
    TableAtSound(mem, s, path, 3);
    TableAtSound(mem, s, path, 2);
    assert path == path[..3] + [path[3]];
  }

  // ---------------------------------------------------------------- dropping an empty table

  function Cleared(e: Entry): Entry {
    e.(valid := false, addr := 0)
  }

  function DropTable(mem: Memory, t: nat, i: nat, child: nat): Memory
    requires t in mem && i < TABLE_ENTRIES
  {
    SetEntry(mem, t, i, Cleared(mem[t][i])) - {child}
  }

  function DropBranch(s: Tree, child: nat): Tree {
    Tree(s.root, s.prefix - {child}, s.parent - {child})
  }

  /** `child` is an empty table linked at index i of t. */
  ghost predicate CanDrop(mem: Memory, s: Tree, t: nat, i: nat, child: nat) {
    && Shape(mem, s) && t in s.prefix && |s.prefix[t]| < 3 && i < TABLE_ENTRIES
    && mem[t][i].Link() && mem[t][i].addr == child && child in s.prefix
    && !HasEntry(mem[child])
  }

  lemma DropApart(mem: Memory, s: Tree, t: nat, i: nat, child: nat)
    requires CanDrop(mem, s, t, i, child)
    ensures s.prefix[child] == s.prefix[t] + [i] && child != t && child != s.root
    ensures forall u :: u in s.prefix && u != s.root ==> u in s.parent && s.parent[u] != child
  {
    hide LinksDown, LinksUp;
    EntryAt(mem, s, t, i);
    forall u | u in s.prefix && u != s.root ensures u in s.parent && s.parent[u] != child { UpAt(mem, s, u); }
  }

  lemma DropEntryOk(mem: Memory, s: Tree, t: nat, i: nat, child: nat, u: nat, j: nat)
    requires CanDrop(mem, s, t, i, child) && u in s.prefix && u != child && j < TABLE_ENTRIES && child != t
    ensures EntryOk(DropTable(mem, t, i, child), DropBranch(s, child), u, j)
  {
    hide LinksDown, LinksUp, HasEntry;
    var mem' := DropTable(mem, t, i, child);
    EntryAt(mem, s, u, j);
    EntryAt(mem, s, t, i);
    if mem'[u][j].Link() && mem'[u][j].addr == child && |s.prefix[u]| < 3 {
      SameParent(s.prefix[u], j, s.prefix[t], i);
      PrefixInjective(mem, s, u, t);
    }
  }

  lemma DropLinkedUp(mem: Memory, s: Tree, t: nat, i: nat, child: nat, u: nat)
    requires CanDrop(mem, s, t, i, child) && u in s.prefix && u != child && u != s.root
    requires child != t && u in s.parent && s.parent[u] != child
    ensures s.prefix[u] != [] && LinkedUp(DropTable(mem, t, i, child), DropBranch(s, child), u)
  {
    hide LinksDown, LinksUp, HasEntry;
    UpAt(mem, s, u);
  }

  lemma DropTableShape(mem: Memory, s: Tree, t: nat, i: nat, child: nat)
    requires CanDrop(mem, s, t, i, child)
    ensures Shape(DropTable(mem, t, i, child), DropBranch(s, child))
  {
    var mem', s' := DropTable(mem, t, i, child), DropBranch(s, child);
    DropApart(mem, s, t, i, child);
    hide EntryOk, LinkedUp, HasEntry, LinksDown, LinksUp;
    assert Rooted(mem', s');
    forall u, j | u in s'.prefix && 0 <= j < TABLE_ENTRIES ensures EntryOk(mem', s', u, j) {
      DropEntryOk(mem, s, t, i, child, u, j);
    }
    forall u | u in s'.prefix && u != s'.root ensures LinkedUp(mem', s', u) {
      DropLinkedUp(mem, s, t, i, child, u);
    }
    ShapeFrom(mem', s');
  }

  lemma DropTableNoneEmpty(mem: Memory, s: Tree, t: nat, i: nat, child: nat, open: set<nat>)
    requires CanDrop(mem, s, t, i, child) && NoneEmpty(mem, s, open)
               && Shape(DropTable(mem, t, i, child), DropBranch(s, child))
    ensures NoneEmpty(DropTable(mem, t, i, child), DropBranch(s, child), open - {child} + {t})
  {
  }

  lemma DropTableAt(mem: Memory, s: Tree, t: nat, i: nat, child: nat, path: Path, n: nat)
    requires CanDrop(mem, s, t, i, child) && n <= 3
    ensures TableAt(DropTable(mem, t, i, child), s.root, path, n) ==
              if path[..n] == s.prefix[child] then None else TableAt(mem, s.root, path, n)
    ensures path[..n] == s.prefix[child] ==> TableAt(mem, s.root, path, n) == Some(child)
  {
    var mem', s' := DropTable(mem, t, i, child), DropBranch(s, child);
    DropTableShape(mem, s, t, i, child);
    hide LinksDown, LinksUp, TableAt;
    if path[..n] == s.prefix[child] {
      TableAtComplete(mem, s, path, n, child);
      forall u | u in s'.prefix ensures s'.prefix[u] != path[..n] {
        if s'.prefix[u] == path[..n] { PrefixInjective(mem, s, u, child); }
      }
      NotReached(mem', s', path, n);
    } else {
      SameTable(mem, s, mem', s', path, n);
    }
  }

  /** The entries of the tables that stay are the same, but for the link. */
  lemma DropEntries(mem: Memory, s: Tree, t: nat, i: nat, child: nat, u: nat, j: nat)
    requires CanDrop(mem, s, t, i, child) && u in s.prefix && u != child && child != t && j < TABLE_ENTRIES
    ensures var mem' := DropTable(mem, t, i, child);
            u in mem' && u in mem && if u == t && j == i then !mem'[u][j].valid && mem[u][j].Link()
                else mem'[u][j] == mem[u][j]
  {
    hide LinksDown, LinksUp;
  }

  lemma DropWalkInside(mem: Memory, s: Tree, t: nat, i: nat, child: nat, path: Path)
    requires CanDrop(mem, s, t, i, child) && path[..3] == s.prefix[child]
    ensures Walk(DropTable(mem, t, i, child), s.root, path) == Walk(mem, s.root, path)
  {
    DropApart(mem, s, t, i, child);
    Within(mem, s);
    hide Rooted, LinksDown, LinksUp, TableAt, DropTable;
    DropTableAt(mem, s, t, i, child, path, 3);
    DropTableAt(mem, s, t, i, child, path, 2);
    assert path[..3] == path[..2] + [path[2]];
    SameParent(path[..2], path[2], s.prefix[t], i);
    TableAtComplete(mem, s, path, 2, t);
    DropEntries(mem, s, t, i, child, t, i);
    assert !mem[child][path[3]].valid;
  }

  lemma DropWalkAbove(mem: Memory, s: Tree, t: nat, i: nat, child: nat, path: Path)
    requires CanDrop(mem, s, t, i, child) && path[..2] == s.prefix[child]
    ensures Walk(DropTable(mem, t, i, child), s.root, path) == Walk(mem, s.root, path)
  {
    DropApart(mem, s, t, i, child);
    Within(mem, s);
    hide Rooted, LinksDown, LinksUp, DropTable;
    DropTableAt(mem, s, t, i, child, path, 2);
    NoDeeper(DropTable(mem, t, i, child), s, path);
    assert !mem[child][path[2]].valid;
  }

  lemma DropWalkElsewhere(mem: Memory, s: Tree, t: nat, i: nat, child: nat, path: Path)
    requires CanDrop(mem, s, t, i, child) && path[..3] != s.prefix[child] && path[..2] != s.prefix[child]
    ensures Walk(DropTable(mem, t, i, child), s.root, path) == Walk(mem, s.root, path)
  {
    DropApart(mem, s, t, i, child);
    hide Shape, Rooted, LinksDown, LinksUp, TableAt, DropTable, HasEntry;
    DropTableAt(mem, s, t, i, child, path, 3);
    DropTableAt(mem, s, t, i, child, path, 2);
    TableAtSound(mem, s, path, 3);
    TableAtSound(mem, s, path, 2);
    assert path[..3] == path[..2] + [path[2]];
    var r3, r2 := TableAt(mem, s.root, path, 3), TableAt(mem, s.root, path, 2);
    if r3.Some? { DropEntries(mem, s, t, i, child, r3.value, path[3]); }
    if r2.Some? { DropEntries(mem, s, t, i, child, r2.value, path[2]); }
  }

  /** Dropping an empty table changes no translation. */
  lemma DropTableWalk(mem: Memory, s: Tree, t: nat, i: nat, child: nat, path: Path)
    requires CanDrop(mem, s, t, i, child)
    ensures Walk(DropTable(mem, t, i, child), s.root, path) == Walk(mem, s.root, path)
  {
    hide LinksDown, LinksUp, Walk, HasEntry;
    if path[..3] == s.prefix[child] {
      DropWalkInside(mem, s, t, i, child, path);
    } else if path[..2] == s.prefix[child] {
      DropWalkAbove(mem, s, t, i, child, path);
    } else {
      DropWalkElsewhere(mem, s, t, i, child, path);
    }
  }

  lemma DropTableBlock(mem: Memory, s: Tree, t: nat, i: nat, child: nat, path: Path)
    requires CanDrop(mem, s, t, i, child)
    ensures BlockOnPath(DropTable(mem, t, i, child), s.root, path) == BlockOnPath(mem, s.root, path)
  {
    DropApart(mem, s, t, i, child);
    hide TableAt, LinksDown, LinksUp;
    DropTableAt(mem, s, t, i, child, path, 2);
    TableAtSound(mem, s, path, 2);
  }

  // ---------------------------------------------------------------- writing a block

  /** The tree once the entry (t, i) of level 2 is a block: a table that was linked there is no longer part of it. */
  function BlockBranch(mem: Memory, s: Tree, t: nat, i: nat): Tree
    requires t in mem && i < TABLE_ENTRIES
  {
    if mem[t][i].Link() then DropBranch(s, mem[t][i].addr) else s
  }

  ghost predicate AtLevel2(mem: Memory, s: Tree, t: nat, i: nat) {
    Shape(mem, s) && t in s.prefix && |s.prefix[t]| == 2 && i < TABLE_ENTRIES
  }

  lemma BlockEntryOk(mem: Memory, s: Tree, t: nat, i: nat, e: Entry, u: nat, j: nat)
    requires AtLevel2(mem, s, t, i) && e.IsBlock() && u in BlockBranch(mem, s, t, i).prefix && j < TABLE_ENTRIES
    ensures u in mem && EntryOk(SetEntry(mem, t, i, e), BlockBranch(mem, s, t, i), u, j)
  {
    hide LinksDown, LinksUp;
    EntryAt(mem, s, t, i);
    EntryAt(mem, s, u, j);
    if mem[t][i].Link() && mem[u][j].Link() && mem[u][j].addr == mem[t][i].addr && |s.prefix[u]| < 3 {
      SameParent(s.prefix[u], j, s.prefix[t], i);
      PrefixInjective(mem, s, u, t);
    }
  }

  lemma BlockLinkedUp(mem: Memory, s: Tree, t: nat, i: nat, e: Entry, u: nat)
    requires AtLevel2(mem, s, t, i) && e.IsBlock() && u in BlockBranch(mem, s, t, i).prefix && u != s.root
    ensures s.prefix[u] != [] && LinkedUp(SetEntry(mem, t, i, e), BlockBranch(mem, s, t, i), u)
  {
    hide LinksDown, LinksUp;
    EntryAt(mem, s, t, i);
    UpAt(mem, s, u);
  }

  lemma SetBlockShape(mem: Memory, s: Tree, t: nat, i: nat, e: Entry)
    requires AtLevel2(mem, s, t, i) && e.IsBlock()
    ensures Shape(SetEntry(mem, t, i, e), BlockBranch(mem, s, t, i))
  {
    hide LinksDown, LinksUp, LinkedUp;
    var mem', s' := SetEntry(mem, t, i, e), BlockBranch(mem, s, t, i);
    EntryAt(mem, s, t, i);
    assert Rooted(mem', s');
    hide EntryOk;
    forall u, j | u in s'.prefix && 0 <= j < TABLE_ENTRIES ensures EntryOk(mem', s', u, j) {
      BlockEntryOk(mem, s, t, i, e, u, j);
    }
    forall u | u in s'.prefix && u != s'.root ensures LinkedUp(mem', s', u) {
      BlockLinkedUp(mem, s, t, i, e, u);
    }
    ShapeFrom(mem', s');
  }

  lemma SetBlockNoneEmpty(mem: Memory, s: Tree, t: nat, i: nat, e: Entry, open: set<nat>)
    requires AtLevel2(mem, s, t, i) && e.IsBlock() && NoneEmpty(mem, s, open)
    requires Shape(SetEntry(mem, t, i, e), BlockBranch(mem, s, t, i))
    ensures NoneEmpty(SetEntry(mem, t, i, e), BlockBranch(mem, s, t, i), open - {t})
  {
    var mem' := SetEntry(mem, t, i, e);
    assert mem'[t][i] == e;
  }

  lemma SetBlockAt(mem: Memory, s: Tree, t: nat, i: nat, e: Entry, path: Path)
    requires AtLevel2(mem, s, t, i) && e.IsBlock()
    ensures TableAt(SetEntry(mem, t, i, e), s.root, path, 2) == TableAt(mem, s.root, path, 2)
    ensures TableAt(SetEntry(mem, t, i, e), s.root, path, 3) ==
              if path[..3] == s.prefix[t] + [i] then None else TableAt(mem, s.root, path, 3)
  {
    var mem', s' := SetEntry(mem, t, i, e), BlockBranch(mem, s, t, i);
    SetBlockShape(mem, s, t, i, e);
    BlockBranchTables(mem, s, t, i);
    hide Shape, Rooted, LinksDown, LinksUp, TableAt, BlockBranch;
    SameTable(mem, s, mem', s', path, 2);
    if path[..3] == s.prefix[t] + [i] {
      forall u | u in s'.prefix ensures s'.prefix[u] != path[..3] { NoLinkNoTable(mem', s', t, i, u); }
      NotReached(mem', s', path, 3);
    } else {
      SameTable(mem, s, mem', s', path, 3);
    }
  }

  lemma BlockBranchTables(mem: Memory, s: Tree, t: nat, i: nat)
    requires AtLevel2(mem, s, t, i)
    ensures var s' := BlockBranch(mem, s, t, i);
            && s'.root == s.root && t in s'.prefix && t in mem
            && (forall u :: u in s'.prefix ==> u in s.prefix && s'.prefix[u] == s.prefix[u])
            && (forall u :: u in s.prefix && s.prefix[u] != s.prefix[t] + [i] ==> u in s'.prefix)
  {
    hide LinksDown, LinksUp;
    EntryAt(mem, s, t, i);
  }

  /** Writing a block entry maps the 2048 pages of the block and changes no other translation. */
  lemma SetBlockWalk(mem: Memory, s: Tree, t: nat, i: nat, e: Entry, path: Path)
    requires AtLevel2(mem, s, t, i) && e.IsBlock()
    ensures Walk(SetEntry(mem, t, i, e), s.root, path) ==
              if path[..3] == s.prefix[t] + [i] then Some(Mapping(e.addr + path[3] * PAGE_SIZE, e.attrs, e.accessed))
              else Walk(mem, s.root, path)
  {
    hide TableAt, LinksDown, LinksUp;
    SetBlockAt(mem, s, t, i, e, path);
    TableAtSound(mem, s, path, 3);
    TableAtSound(mem, s, path, 2);
    assert path[..3] == path[..2] + [path[2]];
    if path[..3] == s.prefix[t] + [i] {
      assert path[..2] == s.prefix[t] && path[2] == i;
      TableAtComplete(mem, s, path, 2, t);
    }
  }

  lemma SetBlockBlock(mem: Memory, s: Tree, t: nat, i: nat, e: Entry, path: Path)
    requires AtLevel2(mem, s, t, i) && e.IsBlock()
    ensures BlockOnPath(SetEntry(mem, t, i, e), s.root, path) <==>
              path[..3] == s.prefix[t] + [i] || BlockOnPath(mem, s.root, path)
  {
    hide TableAt, LinksDown, LinksUp;
    SetBlockAt(mem, s, t, i, e, path);
    TableAtSound(mem, s, path, 2);
    assert path[..3] == path[..2] + [path[2]];
    if path[..3] == s.prefix[t] + [i] {
      SameParent(path[..2], path[2], s.prefix[t], i);
      TableAtComplete(mem, s, path, 2, t);
    }
  }

  // ---------------------------------------------------------------- what the tables are for

  /** A fresh tree: an empty root. */
  function FreshTree(root: nat): Tree {
    Tree(root, map[root := []], map[])
  }

  lemma FreshTreeOk(mem: Memory, root: nat)
    requires root in mem && root != 0 && mem[root] == EmptyTable()
    ensures Ok(mem, FreshTree(root))
    ensures forall path: Path :: Walk(mem, root, path) == None
  {
    forall path: Path ensures Walk(mem, root, path) == None {
      assert TableAt(mem, root, path, 1) == None;
      assert TableAt(mem, root, path, 2) == None;
    }
  }

  /** The page lies below the table. */
  predicate OnPath(s: Tree, t: nat, path: Path)
    requires t in s.prefix && |s.prefix[t]| <= 3
  {
    path[..|s.prefix[t]|] == s.prefix[t]
  }

  lemma {:induction false} PrefixInRange(mem: Memory, s: Tree, t: nat)
    requires Shape(mem, s) && t in s.prefix
    ensures forall j :: 0 <= j < |s.prefix[t]| ==> s.prefix[t][j] < TABLE_ENTRIES && (j == 0 ==> s.prefix[t][j] < 2)
    decreases |s.prefix[t]|
  {
    hide LinksDown, LinksUp;
    if t != s.root {
      UpAt(mem, s, t);
      var u, n := s.parent[t], |s.prefix[t]| - 1;
      PrefixInRange(mem, s, u);
      assert s.prefix[t] == s.prefix[u] + [s.prefix[t][n]];
      EntryAt(mem, s, u, s.prefix[t][n]);
    }
  }

  lemma SomeEntry(mem: Memory, s: Tree, t: nat) returns (i: nat)
    requires Ok(mem, s) && t in s.prefix && t != s.root
    ensures i < TABLE_ENTRIES && t in mem && mem[t][i].valid
  {
    assert HasEntry(mem[t]);
    i :| 0 <= i < TABLE_ENTRIES && mem[t][i].valid;
  }

  lemma PageServesMapping(mem: Memory, s: Tree, t: nat, path: Path)
    requires Shape(mem, s) && t in s.prefix && s.prefix[t] == path[..3] && mem[t][path[3]].Link()
    ensures Walk(mem, s.root, path).Some?
  {
    hide LinksDown, LinksUp, TableAt;
    TableAtComplete(mem, s, path, 3, t);
  }

  lemma BlockServesMapping(mem: Memory, s: Tree, t: nat, path: Path)
    requires Shape(mem, s) && t in s.prefix && s.prefix[t] == path[..2] && mem[t][path[2]].IsBlock()
    ensures Walk(mem, s.root, path).Some?
  {
    hide LinksDown, LinksUp, TableAt;
    TableAtComplete(mem, s, path, 2, t);
    assert path[..3] == path[..2] + [path[2]];
    forall u | u in s.prefix ensures s.prefix[u] != path[..3] { NoLinkNoTable(mem, s, t, path[2], u); }
    NotReached(mem, s, path, 3);
  }

  /** Every table but the root is there for some mapped page below it: no table outlives its last mapping. */
  lemma {:induction false} TableServesMapping(mem: Memory, s: Tree, t: nat) returns (path: Path)
    requires Ok(mem, s) && t in s.prefix && t != s.root
    ensures OnPath(s, t, path) && Walk(mem, s.root, path).Some?
    decreases 3 - |s.prefix[t]|
  {
    hide LinksDown, LinksUp, NoneEmpty, Walk;
    PrefixInRange(mem, s, t);
    var p := s.prefix[t];
    var i := SomeEntry(mem, s, t);
    EntryAt(mem, s, t, i);
    if |p| == 3 {
      path := p + [i];
      assert path[..3] == p;
      PageServesMapping(mem, s, t, path);
    } else if mem[t][i].Link() {
      path := TableServesMapping(mem, s, mem[t][i].addr);
      assert path[..|p|] == path[..|p| + 1][..|p|];
    } else {
      path := p + [i, 0];
      assert path[..2] == p;
      BlockServesMapping(mem, s, t, path);
    }
  }

  /** And every table on the way to a mapped page belongs to the tree. */
  lemma MappingNeedsTables(mem: Memory, s: Tree, path: Path)
    requires Ok(mem, s) && Walk(mem, s.root, path).Some?
    ensures exists t :: t in s.prefix && s.prefix[t] == path[..1]
    ensures exists t :: t in s.prefix && s.prefix[t] == path[..2]
    ensures !BlockOnPath(mem, s.root, path) ==> exists t :: t in s.prefix && s.prefix[t] == path[..3]
  {
    TableAtSound(mem, s, path, 3);
    TableAtSound(mem, s, path, 2);
    TableAtSound(mem, s, path, 1);
  }

  // ---------------------------------------------------------------- addresses and paths

  /** The number of the 16 KiB page that holds a 48-bit address. */
  function PageNumber(va: nat): nat {
    (va / 0x4000) % 0x4_0000_0000
  }

  /** Two addresses have one path exactly when they lie in one page. */
  lemma PathIsPage(a: nat, b: nat)
    ensures PathOf(a) == PathOf(b) <==> PageNumber(a) == PageNumber(b)
  {
    PathDigits(a);
    PathDigits(b);
    hide PathOf, PageNumber;
    var p, q := PathOf(a), PathOf(b);
    DigitsUnique(p[0], p[1], p[2], p[3], q[0], q[1], q[2], q[3]);
    assert p == [p[0], p[1], p[2], p[3]] && q == [q[0], q[1], q[2], q[3]];
  }

  lemma DigitsUnique(a0: nat, a1: nat, a2: nat, a3: nat, b0: nat, b1: nat, b2: nat, b3: nat)
    requires a0 < 2 && a1 < 0x800 && a2 < 0x800 && a3 < 0x800 && b0 < 2 && b1 < 0x800 && b2 < 0x800 && b3 < 0x800
    ensures a0 * 0x2_0000_0000 + a1 * 0x40_0000 + a2 * 0x800 + a3 == b0 * 0x2_0000_0000 + b1 * 0x40_0000 + b2 * 0x800
              + b3
            <==> a0 == b0 && a1 == b1 && a2 == b2 && a3 == b3
  {
  }

  lemma PathDigits(a: nat)
    ensures var p := PathOf(a);
            PageNumber(a) == p[0] * 0x2_0000_0000 + p[1] * 0x40_0000 + p[2] * 0x800 + p[3]
  {
    var n := a / 0x4000;
    var q1 := n / 0x800;
    var q2 := q1 / 0x800;
    var q3 := q2 / 0x800;
    assert a / 0x200_0000 == q1 && a / 0x10_0000_0000 == q2 && a / 0x8000_0000_0000 == q3;
    Digits(n, q1, q2, q3);
  }

  lemma Digits(n: nat, q1: nat, q2: nat, q3: nat)
    requires q1 == n / 0x800 && q2 == q1 / 0x800 && q3 == q2 / 0x800
    ensures n % 0x4_0000_0000 == (q3 % 2) * 0x2_0000_0000 + (q2 % 0x800) * 0x40_0000 + (q1 % 0x800) * 0x800 + n % 0x800
  {
  }
}
