/** Mapping, unmapping and reclaiming: the operations that write tables in place. */
module PageMapper {
  import opened Wrappers
  import opened PageTable

  /** A page entry as `map_page` writes it over the entry that was there. */
  function PageEntry(pa: nat, attrs: Attrs): Entry {
    Entry(true, true, pa, true, attrs)
  }

  function BlockEntry(pa: nat, attrs: Attrs): Entry {
    Entry(true, false, pa, true, attrs)
  }

  /**
   * From (mem, s) to (mem', s') only tables of the tree were written or freed and
   * only new tables joined it; what lies outside both trees is the same memory.
   */
  ghost predicate Framed(mem: Memory, s: Tree, mem': Memory, s': Tree) {
    && s'.root == s.root
    && (forall t :: t in mem && t !in s.prefix ==> t in mem' && mem'[t] == mem[t] && t !in s'.prefix)
    && (forall t :: t in mem' && t !in s'.prefix ==> t in mem && t !in s.prefix)
  }

  /** The tree has grown by at most the table `child`. */
  ghost predicate Grown(s: Tree, s': Tree, child: nat) {
    && (forall t :: t in s.prefix ==> t in s'.prefix && s'.prefix[t] == s.prefix[t])
    && (forall t :: t in s'.prefix ==> t in s.prefix || t == child)
  }

  /** No translation differs, nor any block. */
  ghost predicate SameWalks(mem: Memory, mem': Memory, root: nat) {
    forall path: Path ::
        Walk(mem', root, path) == Walk(mem, root, path) && BlockOnPath(mem', root, path) == BlockOnPath(mem, root, path)
  }

  /** An address that holds no table, and is not null. */
  lemma {:induction false} UnusedAddress(mem: Memory, foreign: set<nat>) returns (a: nat)
    ensures a != 0 && a !in mem && a !in foreign
  {
    a := AboveAll(mem.Keys + foreign);
    assert a !in mem.Keys + foreign;
  }

  lemma {:induction false} AboveAll(keys: set<nat>) returns (a: nat)
    ensures a != 0 && forall k :: k in keys ==> k < a
  {
    if keys == {} {
      a := 1;
    } else {
      var k :| k in keys;
      var b := AboveAll(keys - {k});
      a := if b > k then b else k + 1;
      forall j | j in keys ensures j < a {
        assert j == k || j in keys - {k};
      }
    }
  }

  lemma AddTableSameWalks(mem: Memory, s: Tree, t: nat, i: nat, child: nat)
    requires CanAdd(mem, s, t, i, child)
    ensures SameWalks(mem, AddTable(mem, t, i, child), s.root)
  {
    hide Walk, BlockOnPath, AddTable, LinksDown, LinksUp;
    forall path: Path
      ensures Walk(AddTable(mem, t, i, child), s.root, path) == Walk(mem, s.root, path)
      ensures BlockOnPath(AddTable(mem, t, i, child), s.root, path) == BlockOnPath(mem, s.root, path)
    {
      AddTableWalk(mem, s, t, i, child, path);
      AddTableBlock(mem, s, t, i, child, path);
    }
  }

  lemma AddBranchGrown(mem: Memory, s: Tree, t: nat, i: nat, child: nat)
    requires CanAdd(mem, s, t, i, child)
    ensures Grown(s, AddBranch(s, t, i, child), child)
  {
  }

  lemma AddTableFramed(mem: Memory, s: Tree, t: nat, i: nat, child: nat)
    requires CanAdd(mem, s, t, i, child)
    ensures Framed(mem, s, AddTable(mem, t, i, child), AddBranch(s, t, i, child))
  {
    hide LinksDown, LinksUp;
  }

  lemma DropTableSameWalks(mem: Memory, s: Tree, t: nat, i: nat, child: nat)
    requires CanDrop(mem, s, t, i, child)
    ensures SameWalks(mem, DropTable(mem, t, i, child), s.root)
  {
    hide Walk, BlockOnPath, DropTable, LinksDown, LinksUp;
    forall path: Path
      ensures Walk(DropTable(mem, t, i, child), s.root, path) == Walk(mem, s.root, path)
      ensures BlockOnPath(DropTable(mem, t, i, child), s.root, path) == BlockOnPath(mem, s.root, path)
    {
      DropTableWalk(mem, s, t, i, child, path);
      DropTableBlock(mem, s, t, i, child, path);
    }
  }

  lemma DropTableFramed(mem: Memory, s: Tree, t: nat, i: nat, child: nat)
    requires CanDrop(mem, s, t, i, child)
    ensures Framed(mem, s, DropTable(mem, t, i, child), DropBranch(s, child))
  {
    hide LinksDown, LinksUp, HasEntry;
  }

  lemma FramedTransitive(m1: Memory, s1: Tree, m2: Memory, s2: Tree, m3: Memory, s3: Tree)
    requires Framed(m1, s1, m2, s2) && Framed(m2, s2, m3, s3)
    ensures Framed(m1, s1, m3, s3)
  {
  }

  /**
   * The translation once `n` pages from `va` are mapped to consecutive frames from `pa`; a
   * later page wins, and pages inside a block stay.
   */
  ghost function MapPages(mem: Memory, root: nat, path: Path, pa: nat, va: nat, n: nat, attrs: Attrs): Option<Mapping> {
    if n == 0 then Walk(mem, root, path)
    else if path == PathOf(va + (n - 1) * PAGE_SIZE) && !BlockOnPath(mem, root, path)
        then Some(Mapping(pa + (n - 1) * PAGE_SIZE, attrs, true))
    else MapPages(mem, root, path, pa, va, n - 1, attrs)
  }

  /** The translation once `n` pages from `va` are unmapped; pages inside a block stay. */
  ghost function UnmapPages(mem: Memory, root: nat, path: Path, va: nat, n: nat): Option<Mapping> {
    if (exists i :: 0 <= i < n && path == PathOf(va + i * PAGE_SIZE)) && !BlockOnPath(mem, root, path) then None
    else Walk(mem, root, path)
  }

  lemma PagesDistinct(va: nat, i: nat, j: nat)
    requires va % PAGE_SIZE == 0 && i < j && va + (j + 1) * PAGE_SIZE <= 0x1_0000_0000_0000
    ensures PathOf(va + i * PAGE_SIZE) != PathOf(va + j * PAGE_SIZE)
  {
    hide PathOf;
    PathIsPage(va + i * PAGE_SIZE, va + j * PAGE_SIZE);
    var n := va / PAGE_SIZE;
    assert (va + i * PAGE_SIZE) / PAGE_SIZE == n + i && (va + j * PAGE_SIZE) / PAGE_SIZE == n + j;
    assert n + j < 0x4_0000_0000;
  }

  /** Inside the 48-bit space the pages of a region have distinct paths, so each gets its own frame. */
  lemma {:induction false} MapPagesExact(mem: Memory, root: nat, pa: nat, va: nat, n: nat, attrs: Attrs, i: nat)
    requires va % PAGE_SIZE == 0 && va + n * PAGE_SIZE <= 0x1_0000_0000_0000 && i < n
    ensures var path := PathOf(va + i * PAGE_SIZE);
            MapPages(mem, root, path, pa, va, n, attrs) ==
              if BlockOnPath(mem, root, path) then Walk(mem, root, path)
                  else Some(Mapping(pa + i * PAGE_SIZE, attrs, true))
  {
    hide PathOf, Walk, BlockOnPath;
    var path := PathOf(va + i * PAGE_SIZE);
    if BlockOnPath(mem, root, path) {
      MapPagesUnderBlock(mem, root, path, pa, va, n, attrs);
    } else if i < n - 1 {
      PagesDistinct(va, i, n - 1);
      MapPagesExact(mem, root, pa, va, n - 1, attrs, i);
    }
  }

  lemma {:induction false} MapPagesUnderBlock(mem: Memory, root: nat, path: Path, pa: nat, va: nat, n: nat,
      attrs: Attrs)
    requires BlockOnPath(mem, root, path)
    ensures MapPages(mem, root, path, pa, va, n, attrs) == Walk(mem, root, path)
  {
    if n > 0 { MapPagesUnderBlock(mem, root, path, pa, va, n - 1, attrs); }
  }

  lemma {:induction false} MapPagesElsewhere(mem: Memory, root: nat, path: Path, pa: nat, va: nat, n: nat, attrs: Attrs)
    requires forall i :: 0 <= i < n ==> path != PathOf(va + i * PAGE_SIZE)
    ensures MapPages(mem, root, path, pa, va, n, attrs) == Walk(mem, root, path)
  {
    if n > 0 { MapPagesElsewhere(mem, root, path, pa, va, n - 1, attrs); }
  }

  /** `leaked` tables left the tree without being freed. */
  ghost predicate FramedBut(mem: Memory, s: Tree, mem': Memory, s': Tree, leaked: set<nat>) {
    && s'.root == s.root && leaked <= mem'.Keys && leaked !! s'.prefix.Keys
    && (forall t :: t in mem && t !in s.prefix ==> t in mem' && mem'[t] == mem[t] && t !in s'.prefix)
    && (forall t :: t in mem' && t !in s'.prefix ==> t in leaked || (t in mem && t !in s.prefix))
  }

  lemma SetBlockFramed(mem: Memory, s: Tree, t: nat, i: nat, e: Entry)
    requires AtLevel2(mem, s, t, i) && e.IsBlock()
    ensures FramedBut(mem, s, SetEntry(mem, t, i, e), BlockBranch(mem, s, t, i), if mem[t][i].Link()
              then {mem[t][i].addr} else {})
  {
    assert EntryOk(mem, s, t, i);
  }

  lemma FramedThenBut(m1: Memory, s1: Tree, m2: Memory, s2: Tree, m3: Memory, s3: Tree, leaked: set<nat>)
    requires Framed(m1, s1, m2, s2) && FramedBut(m2, s2, m3, s3, leaked)
    ensures FramedBut(m1, s1, m3, s3, leaked)
  {
  }

  lemma FramedSelf(mem: Memory, s: Tree)
    ensures Framed(mem, s, mem, s)
  {
  }

  lemma FramedRoot(m1: Memory, s1: Tree, m2: Memory, s2: Tree)
    requires Framed(m1, s1, m2, s2)
    ensures s2.root == s1.root
  {
  }

  /** The table that loses its link to a block is the one that had the block's prefix before. */
  lemma LeakedTables(s: Tree, before: Memory, s2: Tree, l2: nat, i: Path, leaked: set<nat>)
    requires AtLevel2(before, s2, l2, i[2]) && s2.prefix[l2] == i[..2]
    requires LastLevel(s2) == LastLevel(s)
    requires leaked == if before[l2][i[2]].Link() then {before[l2][i[2]].addr} else {}
    ensures forall t :: t in leaked <==> t in s.prefix && s.prefix[t] == i[..3]
    ensures LastLevel(BlockBranch(before, s2, l2, i[2])) == LastLevel(s) - leaked
  {
    hide LinksDown, LinksUp;
    EntryAt(before, s2, l2, i[2]);
    assert i[..3] == i[..2] + [i[2]];
    forall t | t in s.prefix && s.prefix[t] == i[..3] ensures t in leaked {
      assert t in LastLevel(s);
      NoLinkOrTable(before, s2, l2, i[2], t);
    }
    forall t | t in leaked ensures t in s.prefix && s.prefix[t] == i[..3] { assert t in LastLevel(s2); }
  }

  lemma NoLinkOrTable(mem: Memory, s: Tree, t: nat, i: nat, u: nat)
    requires Shape(mem, s) && t in s.prefix && i < TABLE_ENTRIES && |s.prefix[t]| < 3 && u in s.prefix
               && s.prefix[u] == s.prefix[t] + [i]
    ensures mem[t][i].Link() && mem[t][i].addr == u
  {
    if !mem[t][i].Link() {
      NoLinkNoTable(mem, s, t, i, u);
    } else {
      assert EntryOk(mem, s, t, i);
      PrefixInjective(mem, s, u, mem[t][i].addr);
    }
  }

  lemma SameWalksTransitive(m1: Memory, m2: Memory, m3: Memory, root: nat)
    requires SameWalks(m1, m2, root) && SameWalks(m2, m3, root)
    ensures SameWalks(m1, m3, root)
  {
  }

  lemma FramedButTransitive(m1: Memory, s1: Tree, m2: Memory, s2: Tree, m3: Memory, s3: Tree, a: set<nat>, b: set<nat>)
    requires FramedBut(m1, s1, m2, s2, a) && FramedBut(m2, s2, m3, s3, b)
    ensures FramedBut(m1, s1, m3, s3, a + b)
  {
  }

  // ---------------------------------------------------------------- teardown

  /** The tables of the tree below prefix `p` whose next index is less than `n`. */
  ghost function Below(s: Tree, p: seq<nat>, n: nat): set<nat> {
    set t | t in s.prefix && p < s.prefix[t] && s.prefix[t][|p|] < n
  }

  /** A table below a prefix has an ancestor exactly there. */
  lemma {:induction false} Ancestor(mem: Memory, s: Tree, t: nat, n: nat) returns (u: nat)
    requires Shape(mem, s) && t in s.prefix && n <= |s.prefix[t]|
    ensures u in s.prefix && s.prefix[u] == s.prefix[t][..n]
    decreases |s.prefix[t]|
  {
    hide LinksDown, LinksUp;
    if n == |s.prefix[t]| {
      u := t;
      assert s.prefix[t][..n] == s.prefix[t];
    } else {
      UpAt(mem, s, t);
      u := Ancestor(mem, s, s.parent[t], n);
    }
  }

  lemma BelowAt(mem: Memory, s: Tree, t: nat, i: nat, u: nat)
    requires Shape(mem, s) && t in s.prefix && |s.prefix[t]| < 3 && i < TABLE_ENTRIES && u in s.prefix
    requires s.prefix[t] < s.prefix[u] && s.prefix[u][|s.prefix[t]|] == i
    ensures var e := mem[t][i];
            e.Link() && e.addr in s.prefix && s.prefix[e.addr] == s.prefix[t] + [i]
            && (u == e.addr || u in Below(s, s.prefix[e.addr], TABLE_ENTRIES))
  {
    hide LinksDown, LinksUp;
    var p := s.prefix[t];
    var a := Ancestor(mem, s, u, |p| + 1);
    assert s.prefix[a] == p + [i];
    NoLinkOrTable(mem, s, t, i, a);
    PrefixInRange(mem, s, u);
    if s.prefix[u] == p + [i] { PrefixInjective(mem, s, u, a); }
  }

  /** One more index: the child linked there, if any, with everything below it. */
  lemma BelowStep(mem: Memory, s: Tree, t: nat, i: nat)
    requires Shape(mem, s) && t in s.prefix && |s.prefix[t]| < 3 && i < TABLE_ENTRIES
    ensures var e := mem[t][i];
            if e.Link() then e.addr in s.prefix && s.prefix[e.addr] == s.prefix[t] + [i] &&
              Below(s, s.prefix[t], i + 1) == Below(s, s.prefix[t], i) + {e.addr}
                  + Below(s, s.prefix[e.addr], TABLE_ENTRIES)
            else Below(s, s.prefix[t], i + 1) == Below(s, s.prefix[t], i)
  {
    hide LinksDown, LinksUp, Rooted;
    EntryAt(mem, s, t, i);
    var p, e := s.prefix[t], mem[t][i];
    forall u | u in Below(s, p, i + 1) && u !in Below(s, p, i)
      ensures e.Link() && (u == e.addr || u in Below(s, s.prefix[e.addr], TABLE_ENTRIES))
    {
      BelowAt(mem, s, t, i, u);
    }
    if e.Link() {
      forall u | u in Below(s, p + [i], TABLE_ENTRIES) ensures u in Below(s, p, i + 1) {
        assert s.prefix[u][|p|] == (p + [i])[|p|];
      }
    }
  }

  lemma BelowRoot(mem: Memory, s: Tree)
    requires Shape(mem, s)
    ensures Below(s, [], 2) == s.prefix.Keys - {s.root}
  {
    forall t | t in s.prefix && t != s.root ensures t in Below(s, [], 2) {
      PrefixInRange(mem, s, t);
    }
  }

  lemma NothingBelow(mem: Memory, s: Tree, t: nat)
    requires Shape(mem, s) && t in s.prefix && |s.prefix[t]| == 3
    ensures Below(s, s.prefix[t], TABLE_ENTRIES) == {}
  {
  }

  lemma FramedButSelf(mem: Memory, s: Tree)
    ensures FramedBut(mem, s, mem, s, {})
  {
  }

  lemma FramedButRoot(m1: Memory, s1: Tree, m2: Memory, s2: Tree, leaked: set<nat>)
    requires FramedBut(m1, s1, m2, s2, leaked)
    ensures s2.root == s1.root
  {
  }

  /** The path of a last-level table of the first 64 GiB, among its first n. */
  predicate Low(prefix: seq<nat>, n: nat) {
    |prefix| == 3 && prefix[0] == 0 && prefix[1] == 0 && prefix[2] < n
  }

  lemma LastLevelOf(mem: Memory, s: Tree)
    requires Ok(mem, s)
    ensures forall t :: t in LastLevel(s) <==> t in s.prefix && |s.prefix[t]| == 3
    ensures forall t :: t in LastLevel(s) ==> LastLevel(s)[t] == s.prefix[t] && s.prefix[t][2] < TABLE_ENTRIES
  {
    forall t | t in LastLevel(s) ensures s.prefix[t][2] < TABLE_ENTRIES { assert LinkedUp(mem, s, t); }
  }

  /** One more block of the first 64 GiB, and one more table that may leak. */
  lemma LowStep(mem: Memory, s: Tree, all: map<nat, seq<nat>>, leaked: set<nat>, more: set<nat>, i: nat)
    requires Ok(mem, s) && LastLevel(s) == all - leaked
    requires forall t :: t in leaked <==> t in all && Low(all[t], i)
    requires forall t :: t in more <==> t in s.prefix && s.prefix[t] == [0, 0, i]
    ensures forall t :: t in leaked + more <==> t in all && Low(all[t], i + 1)
    ensures LastLevel(s) - more == all - (leaked + more)
  {
    hide Ok, LastLevel;
    LastLevelOf(mem, s);
    forall t | t in more ensures t in all && all[t] == [0, 0, i] {
      assert t in LastLevel(s) && LastLevel(s)[t] == all[t];
    }
    forall t | t in all && t !in leaked && Low(all[t], i + 1) ensures t in more {
      assert t in LastLevel(s) && LastLevel(s)[t] == all[t];
      assert all[t] == [0, 0, i];
    }
  }

  lemma AllLow(mem: Memory, s: Tree, leaked: set<nat>)
    requires Ok(mem, s) && forall t :: t in leaked <==> t in LastLevel(s) && Low(LastLevel(s)[t], TABLE_ENTRIES)
    ensures forall t :: t in leaked <==> t in s.prefix && |s.prefix[t]| == 3 && s.prefix[t][..2] == [0, 0]
  {
    hide Ok, LastLevel;
    LastLevelOf(mem, s);
  }

  lemma BlockPath(i: nat)
    requires i < 2048
    ensures PathOf(i * 0x200_0000)[..3] == [0, 0, i]
  {
  }

  lemma LowPath(va: nat)
    requires va < 0x10_0000_0000
    ensures var p := PathOf(va);
              p[0] == 0 && p[1] == 0 && p[2] < 2048 && p[2] * 0x200_0000 + p[3] * PAGE_SIZE == va - va % PAGE_SIZE
  {
  }

  lemma SameWalksSelf(mem: Memory, root: nat)
    ensures SameWalks(mem, mem, root)
  {
  }

  lemma NotEmptyCloses(mem: Memory, s: Tree, t: nat)
    requires Shape(mem, s) && t in s.prefix && HasEntry(mem[t]) && NoneEmpty(mem, s, {t})
    ensures NoneEmpty(mem, s, {})
  {
  }

  lemma PathTables(mem: Memory, s: Tree, i: Path, l1: nat, l2: nat, l3: nat)
    requires Shape(mem, s) && l1 in s.prefix && s.prefix[l1] == i[..1] && l2 in s.prefix && s.prefix[l2] == i[..2]
               && l3 in s.prefix && s.prefix[l3] == i[..3]
    ensures s.root in mem && l1 in mem && l2 in mem && l3 in mem && s.root in s.prefix && s.prefix[s.root] == []
    ensures |s.prefix[l1]| == 1 && |s.prefix[l2]| == 2 && |s.prefix[l3]| == 3
  {
  }

  /** The walk has reached table n; the entry it reads there says where it goes on. */
  lemma Reached(mem: Memory, s: Tree, path: Path, n: nat)
    requires Ok(mem, s) && n <= 3 && (n > 0 ==> TableAt(mem, s.root, path, n).Some?)
    ensures TableAt(mem, s.root, path, n).Some?
    ensures var t := TableAt(mem, s.root, path, n).value;
            && t in s.prefix && t in mem && s.prefix[t] == path[..n]
            && (n < 3 ==> TableAt(mem, s.root, path, n + 1) == if mem[t][path[n]].Link() then Some(mem[t][path[n]].addr)
                else None)
    ensures n == 0 ==> TableAt(mem, s.root, path, n) == Some(s.root)
  {
    hide LinksDown, LinksUp;
    TableAtSound(mem, s, path, n);
  }

  /** A walk that stops at step n finds no page entry; step 4 is the entry itself. */
  lemma Stops(mem: Memory, root: nat, path: Path, n: nat)
    requires 1 <= n <= 4
    requires n < 4 ==> TableAt(mem, root, path, n) == None
    requires n == 4 ==>
               TableAt(mem, root, path, 3).Some? && TableAt(mem, root, path, 3).value in mem
               && !mem[TableAt(mem, root, path, 3).value][path[3]].valid
    ensures BlockOnPath(mem, root, path) || Walk(mem, root, path) == None
  {
    if n == 1 { assert TableAt(mem, root, path, 2) == None; }
    if n <= 2 { assert TableAt(mem, root, path, 3) == None; }
  }

  lemma NoBlockAbove(mem: Memory, root: nat, path: Path)
    requires TableAt(mem, root, path, 3).Some?
    ensures !BlockOnPath(mem, root, path)
  {
  }

  /** Page `i` is unmapped and nothing else has changed. */
  ghost predicate Unmapped(mem: Memory, mem': Memory, root: nat, i: Path) {
    forall path: Path ::
      && Walk(mem', root, path) == (if path == i then None else Walk(mem, root, path))
      && BlockOnPath(mem', root, path) == BlockOnPath(mem, root, path)
  }

  lemma ClearLeafUnmaps(mem: Memory, s: Tree, t: nat, i: Path)
    requires Ok(mem, s) && t in s.prefix && s.prefix[t] == i[..3]
    ensures var mem' := SetEntry(mem, t, i[3], Cleared(mem[t][i[3]]));
            Shape(mem', s) && NoneEmpty(mem', s, {t}) && Framed(mem, s, mem', s) && Unmapped(mem, mem', s.root, i)
  {
    var e := Cleared(mem[t][i[3]]);
    SetLeafShape(mem, s, t, i[3], e);
    SetLeafNoneEmpty(mem, s, t, i[3], e, {});
    assert {} + {t} == {t};
    assert i == i[..3] + [i[3]];
    hide LinksDown, LinksUp, Walk, BlockOnPath;
    forall path: Path
      ensures Walk(SetEntry(mem, t, i[3], e), s.root, path) == if path == i then None else Walk(mem, s.root, path)
      ensures BlockOnPath(SetEntry(mem, t, i[3], e), s.root, path) == BlockOnPath(mem, s.root, path)
    {
      SetLeafWalk(mem, s, t, i[3], e, path);
      SetLeafBlock(mem, s, t, i[3], e, path);
    }
  }

  lemma UnmappedThenSame(m1: Memory, m2: Memory, m3: Memory, root: nat, i: Path)
    requires Unmapped(m1, m2, root, i) && SameWalks(m2, m3, root)
    ensures Unmapped(m1, m3, root, i)
  {
  }

  lemma BlockStill(m1: Memory, m2: Memory, root: nat, path: Path)
    requires SameWalks(m1, m2, root)
    ensures BlockOnPath(m2, root, path) == BlockOnPath(m1, root, path)
  {
  }

  /** Where the block on the path of a page begins. */
  function BlockBase(mem: Memory, root: nat, path: Path): nat
    requires BlockOnPath(mem, root, path)
  {
    mem[TableAt(mem, root, path, 2).value][path[2]].addr
  }

  /** Writes entry i of the table an address is taken for; the tables change only if there is one. */
  function Scribbled(mem: Memory, t: nat, i: nat, e: Entry): Memory
    requires i < TABLE_ENTRIES
  {
    if t in mem then SetEntry(mem, t, i, e) else mem
  }

  /** The last-level tables of a tree. */
  ghost function LastLevel(s: Tree): map<nat, seq<nat>> {
    map t | t in s.prefix && |s.prefix[t]| == 3 :: s.prefix[t]
  }

  lemma GrownLastLevel(s: Tree, s': Tree, child: nat)
    requires Grown(s, s', child) && child in s'.prefix && |s'.prefix[child]| < 3
    ensures LastLevel(s') == LastLevel(s)
  {
  }

  lemma TwoLevels(mem: Memory, s: Tree, path: Path)
    requires Shape(mem, s)
    ensures TableAt(mem, s.root, path, 2).Some? ==> mem[s.root][path[0]].Link()
    ensures TableAt(mem, s.root, path, 2).Some? ==>
      var l1 := mem[s.root][path[0]].addr;
          l1 in mem && mem[l1][path[1]].Link() && TableAt(mem, s.root, path, 2) == Some(mem[l1][path[1]].addr)
  {
    hide LinksDown, LinksUp;
    assert TableAt(mem, s.root, path, 0) == Some(s.root);
    assert TableAt(mem, s.root, path, 1) == if mem[s.root][path[0]].Link() then Some(mem[s.root][path[0]].addr)
        else None;
  }

  lemma PageEntrySet(was: Memory, mem: Memory, s: Tree, s': Tree, t: nat, i: Path, e: Entry)
    requires Shape(mem, s') && NoneEmpty(mem, s', {t}) && Framed(was, s, mem, s') && SameWalks(was, mem, s.root)
    requires t in s'.prefix && s'.prefix[t] == i[..3] && e.Link()
    ensures var mem' := SetEntry(mem, t, i[3], e);
            && Ok(mem', s') && Framed(was, s, mem', s')
            && (forall path: Path ::
                Walk(mem', s.root, path) == if path == i then Some(Mapping(e.addr, e.attrs, e.accessed))
                else Walk(was, s.root, path))
            && (forall path: Path :: BlockOnPath(mem', s.root, path) == BlockOnPath(was, s.root, path))
  {
    hide LinksDown, LinksUp, NoneEmpty, Walk, BlockOnPath;
    SetLeafShape(mem, s', t, i[3], e);
    SetLeafNoneEmpty(mem, s', t, i[3], e, {t});
    assert {t} - {t} == {};
    assert i == i[..3] + [i[3]];
    forall path: Path
      ensures Walk(SetEntry(mem, t, i[3], e), s.root, path) == if path == i
                then Some(Mapping(e.addr, e.attrs, e.accessed))
                else Walk(was, s.root, path)
      ensures BlockOnPath(SetEntry(mem, t, i[3], e), s.root, path) == BlockOnPath(was, s.root, path)
    {
      SetLeafWalk(mem, s', t, i[3], e, path);
      SetLeafBlock(mem, s', t, i[3], e, path);
    }
  }

  /** What a page inside a block translates to. */
  lemma BlockTranslates(mem: Memory, root: nat, path: Path)
    requires BlockOnPath(mem, root, path)
    ensures Walk(mem, root, path) ==
      Some(Mapping(BlockBase(mem, root, path) + path[3] * PAGE_SIZE, BlockAttrs(mem, root, path),
          BlockAccessed(mem, root, path)))
  {
    assert TableAt(mem, root, path, 3) == None;
  }

  function BlockAttrs(mem: Memory, root: nat, path: Path): Attrs
    requires BlockOnPath(mem, root, path)
  {
    mem[TableAt(mem, root, path, 2).value][path[2]].attrs
  }

  predicate BlockAccessed(mem: Memory, root: nat, path: Path)
    requires BlockOnPath(mem, root, path)
  {
    mem[TableAt(mem, root, path, 2).value][path[2]].accessed
  }

  /** A page inside a block that translates as before lies in a block with the same base. */
  lemma SameBase(mem: Memory, mem': Memory, root: nat, path: Path)
    requires BlockOnPath(mem, root, path) && BlockOnPath(mem', root, path)
               && Walk(mem', root, path) == Walk(mem, root, path)
    ensures BlockBase(mem', root, path) == BlockBase(mem, root, path)
  {
    hide TableAt, Walk;
    BlockTranslates(mem, root, path);
    BlockTranslates(mem', root, path);
  }

  class Mapper {
    /** The memory that holds translation tables, by physical address. */
    var mem: Memory

    /** Memory that the table allocator does not own; it may be empty. */
    const foreign: set<nat>

    /** Any allocator: some non-null address that it owns and that holds no table, zeroed. */
    method AllocTable() returns (t: nat)
      modifies this
      ensures t != 0 && t !in old(mem) && t !in foreign && mem == old(mem)[t := EmptyTable()]
    {
      ghost var a := UnusedAddress(mem, foreign);
      assert a != 0 && a !in mem && a !in foreign;
      t :| t != 0 && t !in mem && t !in foreign;
      mem := mem[t := EmptyTable()];
    }

    /** No table has been allocated in memory the allocator does not own. */
    ghost predicate Owned(was: Memory, now: Memory) {
      forall t :: t in foreign && t in now ==> t in was
    }

    lemma OwnedTransitive(a: Memory, b: Memory, c: Memory)
      requires Owned(a, b) && Owned(b, c)
      ensures Owned(a, c)
    {
    }

    /** Only a table that is there can be freed. */
    method FreeTable(t: nat)
      requires t in mem
      modifies this
      ensures mem == old(mem) - {t}
    {
      mem := mem - {t};
    }

    method IsTableEmpty(t: nat) returns (empty: bool)
      requires t in mem
      ensures empty <==> !HasEntry(mem[t])
    {
      for i := 0 to TABLE_ENTRIES
        invariant forall j :: 0 <= j < i ==> !mem[t][j].valid
      {
        if mem[t][i].valid { return false; }
      }
      return true;
    }

    /** Links a new empty table at (t, i). */
    method NewChild(t: nat, i: nat, ghost s: Tree) returns (child: nat, ghost s': Tree)
      requires Shape(mem, s) && t in s.prefix && |s.prefix[t]| < 3 && i < TABLE_ENTRIES && (t == s.root ==> i < 2)
      requires !mem[t][i].valid && NoneEmpty(mem, s, {t})
      modifies this
      ensures s' == AddBranch(s, t, i, child)
      ensures Shape(mem, s') && NoneEmpty(mem, s', {child}) && Framed(old(mem), s, mem, s') && Grown(s, s', child)
      ensures child in s'.prefix && s'.prefix[child] == s.prefix[t] + [i]
      ensures SameWalks(old(mem), mem, s.root) && Owned(old(mem), mem)
    {
      assert t in mem;
      child := AllocTable();
      ghost var was := old(mem);
      hide Shape, LinksDown, LinksUp, NoneEmpty, SameWalks, Framed;
      assert CanAdd(was, s, t, i, child);
      s' := AddBranch(s, t, i, child);
      mem := SetEntry(mem, t, i, Linked(mem[t][i], child));
      assert mem == AddTable(was, t, i, child);
      assert Grown(s, s', child) by { AddBranchGrown(was, s, t, i, child); }
      hide AddTable, AddBranch, CanAdd;
      AddTableShape(was, s, t, i, child);
      AddTableNoneEmpty(was, s, t, i, child, {t});
      AddTableSameWalks(was, s, t, i, child);
      AddTableFramed(was, s, t, i, child);
      assert {t} - {t} + {child} == {child};
    }

    /** The table below (t, i) at the first two levels, allocated if there is none. */
    method Descend(t: nat, i: nat, ghost s: Tree) returns (child: nat, ghost s': Tree)
      requires Shape(mem, s) && t in s.prefix && |s.prefix[t]| < 2 && i < TABLE_ENTRIES && (t == s.root ==> i < 2)
      requires NoneEmpty(mem, s, {t})
      modifies this
      ensures Shape(mem, s') && NoneEmpty(mem, s', {child}) && Framed(old(mem), s, mem, s') && Grown(s, s', child)
      ensures child in s'.prefix && s'.prefix[child] == s.prefix[t] + [i]
      ensures SameWalks(old(mem), mem, s.root) && Owned(old(mem), mem)
      ensures old(mem[t][i]).Link() ==> mem == old(mem) && s' == s && child == old(mem[t][i]).addr
    {
      assert EntryOk(mem, s, t, i);
      var e := mem[t][i];
      if e.addr != 0 && e.isTable {
        child, s' := e.addr, s;
        assert HasEntry(mem[t]);
      } else {
        child, s' := NewChild(t, i, s);
      }
    }

    /**
     * The table below (t, i) at the third level. Only the valid bit is tested, so a block is
     * taken for a table at its base.
     */
    method DescendLast(t: nat, i: nat, ghost s: Tree) returns (child: nat, ghost s': Tree)
      requires Shape(mem, s) && t in s.prefix && |s.prefix[t]| == 2 && i < TABLE_ENTRIES
      requires NoneEmpty(mem, s, {t})
      modifies this
      ensures old(mem[t][i]).IsBlock() ==> child == old(mem[t][i]).addr && mem == old(mem) && s' == s
      ensures Owned(old(mem), mem)
      ensures !old(mem[t][i]).IsBlock() ==>
        && Shape(mem, s') && NoneEmpty(mem, s', {child}) && Framed(old(mem), s, mem, s') && Grown(s, s', child)
        && child in s'.prefix && s'.prefix[child] == s.prefix[t] + [i]
        && SameWalks(old(mem), mem, s.root)
    {
      assert EntryOk(mem, s, t, i);
      var e := mem[t][i];
      if e.valid {
        child, s' := e.addr, s;
        assert HasEntry(mem[t]);
      } else {
        child, s' := NewChild(t, i, s);
      }
    }

    /** Walks down to the level-2 table of a page, allocating the tables that are missing. */
    method Level2For(root: nat, path: Path, ghost s: Tree) returns (l2: nat, ghost s': Tree)
      requires Ok(mem, s) && root == s.root
      modifies this
      ensures Shape(mem, s') && NoneEmpty(mem, s', {l2}) && Framed(old(mem), s, mem, s')
      ensures l2 in s'.prefix && l2 in mem && l2 != root && s'.prefix[l2] == path[..2]
      ensures SameWalks(old(mem), mem, root) && Owned(old(mem), mem)
      ensures LastLevel(s') == LastLevel(s)
      ensures TableAt(old(mem), root, path, 2).Some? ==>
                mem == old(mem) && s' == s && TableAt(old(mem), root, path, 2) == Some(l2)
    {
      hide Shape, LinksDown, LinksUp, NoneEmpty, SameWalks, Framed, TableAt, LastLevel, Grown, Owned;
      TreeStart(mem, s);
      TwoLevels(mem, s, path);
      ghost var m0 := mem;
      var l1, s1 := Descend(root, path[0], s);
      ghost var m1 := mem;
      GrownLastLevel(s, s1, l1);
      TreeInside(mem, s1, l1);
      l2, s' := Descend(l1, path[1], s1);
      GrownLastLevel(s1, s', l2);
      TreeInside(mem, s', l2);
      FramedTransitive(m0, s, m1, s1, mem, s');
      FramedRoot(m0, s, m1, s1);
      SameWalksTransitive(m0, m1, mem, root);
      OwnedTransitive(m0, m1, mem);
      assert s'.prefix[l2] == path[..2];
    }

    /** Walks down to the last-level table of a page, allocating the tables that are missing. */
    method TableFor(root: nat, path: Path, ghost s: Tree) returns (l3: nat, ghost s': Tree)
      requires Ok(mem, s) && root == s.root
      modifies this
      ensures Owned(old(mem), mem)
      ensures if BlockOnPath(old(mem), root, path)
                then mem == old(mem) && s' == s && l3 == BlockBase(old(mem), root, path)
              else
                && Shape(mem, s') && NoneEmpty(mem, s', {l3}) && Framed(old(mem), s, mem, s')
                && l3 in s'.prefix && s'.prefix[l3] == path[..3]
                && SameWalks(old(mem), mem, root)
    {
      hide Shape, LinksDown, LinksUp, NoneEmpty, SameWalks, Framed, TableAt;
      ghost var m0 := mem;
      var l2, s2 := Level2For(root, path, s);
      BlockStill(m0, mem, root, path);
      ghost var m2 := mem;
      FramedRoot(m0, s, m2, s2);
      TableAtComplete(mem, s2, path, 2, l2);
      l3, s' := DescendLast(l2, path[2], s2);
      if !BlockOnPath(m0, root, path) {
        FramedTransitive(m0, s, m2, s2, mem, s');
        SameWalksTransitive(m0, m2, mem, root);
        assert s'.prefix[l3] == path[..3];
      }
    }

    lemma TreeStart(mem: Memory, s: Tree)
      requires Ok(mem, s)
      ensures Shape(mem, s) && NoneEmpty(mem, s, {s.root}) && s.root in s.prefix && s.prefix[s.root] == []
    {
    }

    lemma TreeInside(mem: Memory, s: Tree, t: nat)
      requires Shape(mem, s) && t in s.prefix && s.prefix[t] != []
      ensures t in mem && t != s.root
    {
    }

    /**
     * Maps one page. With no block in the way the walk then differs from before
     * at this page only, and the tree still holds no table without a mapping
     * below it. A block in the way is taken for a table: the entry is written at
     * the block's base, and unless that is a table nothing is mapped.
     */
    method MapPage(root: nat, pa: nat, va: nat, attrs: Attrs, ghost s: Tree) returns (ghost s': Tree)
      requires Ok(mem, s) && root == s.root
      modifies this
      ensures Owned(old(mem), mem)
      ensures if BlockOnPath(old(mem), root, PathOf(va))
              then s' == s && mem == Scribbled(old(mem), BlockBase(old(mem), root, PathOf(va)), PathOf(va)[3],
                  PageEntry(pa, attrs))
              else
                && Ok(mem, s') && Framed(old(mem), s, mem, s')
                && (forall path: Path :: Walk(mem, root, path) ==
                      if path == PathOf(va) then Some(Mapping(pa, attrs, true)) else Walk(old(mem), root, path))
                && (forall path: Path :: BlockOnPath(mem, root, path) == BlockOnPath(old(mem), root, path))
    {
      hide Shape, LinksDown, LinksUp, NoneEmpty, Walk, BlockOnPath, PathOf, BlockBase;
      var i := PathOf(va);
      var l3;
      l3, s' := TableFor(root, i, s);
      ghost var before := mem;
      mem := Scribbled(mem, l3, i[3], PageEntry(pa, attrs));
      if !BlockOnPath(old(mem), root, i) {
        TreeInside(before, s', l3);
        PageEntrySet(old(mem), before, s, s', l3, i, PageEntry(pa, attrs));
      }
    }

    /** If the table below (t, i) is empty, frees it and clears the entry. */
    method Reclaim(t: nat, i: nat, child: nat, ghost s: Tree) returns (dropped: bool, ghost s': Tree)
      requires Shape(mem, s) && t in s.prefix && |s.prefix[t]| < 3 && i < TABLE_ENTRIES
      requires t in mem && mem[t][i].Link() && mem[t][i].addr == child && child in s.prefix && child in mem
      requires NoneEmpty(mem, s, {child})
      modifies this
      ensures Shape(mem, s') && Framed(old(mem), s, mem, s')
      ensures NoneEmpty(mem, s', if dropped then {t} else {})
      ensures dropped <==> !HasEntry(old(mem)[child])
      ensures dropped ==>
                s' == DropBranch(s, child) && child !in mem && mem == DropTable(old(mem), t, i, child) && t != child
      ensures !dropped ==> s' == s && mem == old(mem)
      ensures SameWalks(old(mem), mem, s.root)
    {
      hide Shape, LinksDown, LinksUp, NoneEmpty, Walk, SameWalks, Framed, HasEntry;
      dropped := IsTableEmpty(child);
      if !dropped {
        s' := s;
        FramedSelf(mem, s);
        SameWalksSelf(mem, s.root);
        NotEmptyCloses(mem, s, child);
        return;
      }
      ghost var was := mem;
      assert CanDrop(was, s, t, i, child);
      DropApart(was, s, t, i, child);
      FreeTable(child);
      mem := SetEntry(mem, t, i, Cleared(mem[t][i]));
      assert mem == DropTable(was, t, i, child);
      s' := DropBranch(s, child);
      hide DropTable, DropBranch;
      DropTableShape(was, s, t, i, child);
      DropTableNoneEmpty(was, s, t, i, child, {child});
      assert {child} - {child} + {t} == {t};
      DropTableSameWalks(was, s, t, i, child);
      DropTableFramed(was, s, t, i, child);
    }

    /**
     * Unmaps one page and gives back every table that is empty then. A page
     * that is not mapped by a page entry is left alone.
     */
    method UnmapPage(root: nat, va: nat, ghost s: Tree) returns (ghost s': Tree)
      requires Ok(mem, s) && root == s.root
      modifies this
      ensures Ok(mem, s') && Framed(old(mem), s, mem, s')
      ensures forall path: Path :: Walk(mem, root, path) ==
                if path == PathOf(va) && !BlockOnPath(old(mem), root, path) then None else Walk(old(mem), root, path)
      ensures forall path: Path :: BlockOnPath(mem, root, path) == BlockOnPath(old(mem), root, path)
    {
      hide LinksDown, LinksUp, NoneEmpty, TableAt, PathOf, Framed, Walk, BlockOnPath;
      var i := PathOf(va);
      s' := s;
      FramedSelf(mem, s);
      Reached(mem, s, i, 0);
      var e0 := mem[root][i[0]];
      if !e0.valid || !e0.isTable {
        Stops(mem, root, i, 1);
        return;
      }
      var l1 := e0.addr;
      Reached(mem, s, i, 1);
      var e1 := mem[l1][i[1]];
      if !e1.valid || !e1.isTable {
        Stops(mem, root, i, 2);
        return;
      }
      var l2 := e1.addr;
      Reached(mem, s, i, 2);
      var e2 := mem[l2][i[2]];
      if !e2.valid || !e2.isTable {
        Stops(mem, root, i, 3);
        return;
      }
      var l3 := e2.addr;
      Reached(mem, s, i, 3);
      var e3 := mem[l3][i[3]];
      if !e3.valid {
        Stops(mem, root, i, 4);
        return;
      }
      NoBlockAbove(mem, root, i);
      s' := ClearPage(root, i, l1, l2, l3, s);
    }

    method ClearPage(root: nat, i: Path, l1: nat, l2: nat, l3: nat, ghost s: Tree) returns (ghost s': Tree)
      requires Ok(mem, s) && root == s.root
      requires l1 in s.prefix && s.prefix[l1] == i[..1] && l2 in s.prefix && s.prefix[l2] == i[..2] && l3 in s.prefix
                 && s.prefix[l3] == i[..3]
      requires mem[root][i[0]].Link() && mem[root][i[0]].addr == l1
      requires mem[l1][i[1]].Link() && mem[l1][i[1]].addr == l2
      requires mem[l2][i[2]].Link() && mem[l2][i[2]].addr == l3
      modifies this
      ensures Ok(mem, s') && Framed(old(mem), s, mem, s')
      ensures Unmapped(old(mem), mem, root, i)
    {
      ghost var was := mem;
      ClearLeafUnmaps(was, s, l3, i);
      assert l3 in mem && root != l3 && l1 != l3 && l2 != l3;
      mem := SetEntry(mem, l3, i[3], Cleared(mem[l3][i[3]]));
      hide Shape, Rooted, LinksDown, LinksUp, NoneEmpty, Unmapped, SameWalks, Framed;
      ghost var before := mem;
      s' := ReclaimPath(root, i, l1, l2, l3, s);
      UnmappedThenSame(was, before, mem, root, i);
      FramedTransitive(was, s, before, s, mem, s');
    }

    /** Gives back the tables of the path that are empty, from the last level up. */
    method ReclaimPath(root: nat, i: Path, l1: nat, l2: nat, l3: nat, ghost s: Tree) returns (ghost s': Tree)
      requires Shape(mem, s) && NoneEmpty(mem, s, {l3}) && root == s.root
      requires l1 in s.prefix && s.prefix[l1] == i[..1] && l2 in s.prefix && s.prefix[l2] == i[..2] && l3 in s.prefix
                 && s.prefix[l3] == i[..3]
      requires mem[root][i[0]].Link() && mem[root][i[0]].addr == l1
      requires mem[l1][i[1]].Link() && mem[l1][i[1]].addr == l2
      requires mem[l2][i[2]].Link() && mem[l2][i[2]].addr == l3
      modifies this
      ensures Ok(mem, s') && Framed(old(mem), s, mem, s')
      ensures SameWalks(old(mem), mem, root)
    {
      PathTables(mem, s, i, l1, l2, l3);
      hide Shape, Rooted, LinksDown, LinksUp, NoneEmpty, SameWalks, Framed;
      ghost var m0 := mem;
      var dropped, s1 := Reclaim(l2, i[2], l3, s);
      s' := s1;
      if dropped {
        ghost var m1 := mem;
        var dropped2, s2 := Reclaim(l1, i[1], l2, s1);
        FramedTransitive(m0, s, m1, s1, mem, s2);
        SameWalksTransitive(m0, m1, mem, root);
        s' := s2;
        if dropped2 {
          ghost var m2 := mem;
          var dropped3, s3 := Reclaim(root, i[0], l1, s2);
          FramedTransitive(m0, s, m2, s2, mem, s3);
          SameWalksTransitive(m0, m2, mem, root);
          s' := s3;
          RootMayBeEmpty(mem, s3);
        }
      }
    }

    lemma RootMayBeEmpty(mem: Memory, s: Tree)
      requires Shape(mem, s) && (NoneEmpty(mem, s, {s.root}) || NoneEmpty(mem, s, {}))
      ensures NoneEmpty(mem, s, {})
    {
    }

    /**
     * Maps a 32 MiB block. A last-level table that was linked there loses its
     * only link: the translation is right, but the table is leaked.
     */
    method MapL2Block(root: nat, pa: nat, va: nat, attrs: Attrs, ghost s: Tree)
        returns (ghost s': Tree, ghost leaked: set<nat>)
      requires Ok(mem, s) && root == s.root
      modifies this
      ensures Ok(mem, s') && FramedBut(old(mem), s, mem, s', leaked)
      ensures forall t :: t in leaked <==> t in s.prefix && s.prefix[t] == PathOf(va)[..3]
      ensures LastLevel(s') == LastLevel(s) - leaked
      ensures forall path: Path :: Walk(mem, root, path) ==
                if path[..3] == PathOf(va)[..3] then Some(Mapping(pa + path[3] * PAGE_SIZE, attrs, true))
                    else Walk(old(mem), root, path)
      ensures forall path: Path :: BlockOnPath(mem, root, path) <==>
                path[..3] == PathOf(va)[..3] || BlockOnPath(old(mem), root, path)
    {
      hide Shape, LinksDown, LinksUp, NoneEmpty, Walk, PathOf, Framed, FramedBut, BlockOnPath;
      var i := PathOf(va);
      ghost var m0 := mem;
      var l2, s2 := Level2For(root, i, s);
      FramedRoot(m0, s, mem, s2);
      ghost var before := mem;
      assert AtLevel2(before, s2, l2, i[2]) && s2.prefix[l2] + [i[2]] == i[..3];
      mem := SetEntry(mem, l2, i[2], BlockEntry(pa, attrs));
      s' := BlockBranch(before, s2, l2, i[2]);
      leaked := if before[l2][i[2]].Link() then {before[l2][i[2]].addr} else {};
      SetBlockShape(before, s2, l2, i[2], BlockEntry(pa, attrs));
      SetBlockNoneEmpty(before, s2, l2, i[2], BlockEntry(pa, attrs), {l2});
      SetBlockFramed(before, s2, l2, i[2], BlockEntry(pa, attrs));
      FramedThenBut(m0, s, before, s2, mem, s', leaked);
      assert {l2} - {l2} == {};
      forall path: Path
        ensures Walk(mem, root, path) == if path[..3] == i[..3]
                  then Some(Mapping(pa + path[3] * PAGE_SIZE, attrs, true))
                  else Walk(old(mem), root, path)
      {
        SetBlockWalk(before, s2, l2, i[2], BlockEntry(pa, attrs), path);
      }
      forall path: Path
        ensures BlockOnPath(mem, root, path) <==> path[..3] == i[..3] || BlockOnPath(old(mem), root, path)
      {
        SetBlockBlock(before, s2, l2, i[2], BlockEntry(pa, attrs), path);
        BlockStill(m0, before, root, path);
      }
      LeakedTables(s, before, s2, l2, i, leaked);
    }

    /**
     * Maps a region page by page. The base of a block in the way is taken for a table, so none
     * may be or become one.
     */
    method MapRegion(root: nat, pa: nat, va: nat, size: nat, attrs: Attrs, ghost s: Tree) returns (ghost s': Tree)
      requires va % PAGE_SIZE == 0 && pa % PAGE_SIZE == 0 && size % PAGE_SIZE == 0 && size >= PAGE_SIZE
      requires Ok(mem, s) && root == s.root
      requires forall i :: 0 <= i < size / PAGE_SIZE ==> HarmlessBlock(PathOf(va + i * PAGE_SIZE), root)
      modifies this
      ensures Ok(mem, s') && Framed(old(mem), s, mem, s')
      ensures forall path: Path ::
                Walk(mem, root, path) == MapPages(old(mem), root, path, pa, va, size / PAGE_SIZE, attrs)
    {
      hide Ok, Shape, Walk, PathOf, Framed, BlockOnPath, BlockBase;
      var numPages := size / PAGE_SIZE;
      s' := s;
      FramedSelf(mem, s);
      for i := 0 to numPages
        invariant Ok(mem, s') && s'.root == root && Framed(old(mem), s, mem, s') && Owned(old(mem), mem)
        invariant forall path: Path :: Walk(mem, root, path) == MapPages(old(mem), root, path, pa, va, i, attrs)
        invariant forall path: Path :: BlockOnPath(mem, root, path) == BlockOnPath(old(mem), root, path)
      {
        ghost var before, s1, path := mem, s', PathOf(va + i * PAGE_SIZE);
        assert old(HarmlessBlock(path, root));
        if BlockOnPath(mem, root, path) {
          MapPagesUnderBlock(old(mem), root, path, pa, va, i, attrs);
          SameBase(old(mem), mem, root, path);
          FramedSelf(mem, s');
        }
        s' := MapPage(root, pa + i * PAGE_SIZE, va + i * PAGE_SIZE, attrs, s');
        FramedTransitive(old(mem), s, before, s1, mem, s');
        FramedRoot(before, s1, mem, s');
      }
    }

    /** If a block lies on the path, its base is no table and never becomes one. */
    ghost predicate HarmlessBlock(path: Path, root: nat)
      reads this
    {
      BlockOnPath(mem, root, path) ==> BlockBase(mem, root, path) in foreign && BlockBase(mem, root, path) !in mem
    }

    method UnmapRegion(root: nat, va: nat, size: nat, ghost s: Tree) returns (ghost s': Tree)
      requires va % PAGE_SIZE == 0 && size % PAGE_SIZE == 0
      requires Ok(mem, s) && root == s.root
      modifies this
      ensures Ok(mem, s') && Framed(old(mem), s, mem, s')
      ensures forall path: Path :: Walk(mem, root, path) == UnmapPages(old(mem), root, path, va, size / PAGE_SIZE)
    {
      hide Ok, Shape, Walk, PathOf, Framed, BlockOnPath;
      var numPages := size / PAGE_SIZE;
      s' := s;
      FramedSelf(mem, s);
      for i := 0 to numPages
        invariant Ok(mem, s') && s'.root == root && Framed(old(mem), s, mem, s')
        invariant forall path: Path :: Walk(mem, root, path) == UnmapPages(old(mem), root, path, va, i)
        invariant forall path: Path :: BlockOnPath(mem, root, path) == BlockOnPath(old(mem), root, path)
      {
        ghost var before, s1 := mem, s';
        s' := UnmapPage(root, va + i * PAGE_SIZE, s');
        FramedTransitive(old(mem), s, before, s1, mem, s');
        FramedRoot(before, s1, mem, s');
      }
    }

    /** Maps the first 64 GiB onto itself with 2048 blocks. */
    method IdMap(root: nat, attrs: Attrs, ghost s: Tree) returns (ghost s': Tree, ghost leaked: set<nat>)
      requires Ok(mem, s) && root == s.root
      modifies this
      ensures Ok(mem, s') && FramedBut(old(mem), s, mem, s', leaked)
      ensures forall va: nat :: va < 0x10_0000_0000 ==>
                Walk(mem, root, PathOf(va)) == Some(Mapping(va - va % PAGE_SIZE, attrs, true))
      ensures forall path: Path :: path[0] != 0 || path[1] != 0 ==> Walk(mem, root, path) == Walk(old(mem), root, path)
      ensures forall t :: t in leaked <==> t in s.prefix && |s.prefix[t]| == 3 && s.prefix[t][..2] == [0, 0]
    {
      hide Ok, Walk, FramedBut, LastLevel, PathOf;
      s', leaked := s, {};
      assert LastLevel(s) - {} == LastLevel(s);
      FramedButSelf(mem, s);
      for i := 0 to 2048
        invariant Ok(mem, s') && s'.root == root && FramedBut(old(mem), s, mem, s', leaked)
        invariant forall path: Path :: Walk(mem, root, path) ==
                    if path[0] == 0 && path[1] == 0 && path[2] < i
                        then Some(Mapping(path[2] * 0x200_0000 + path[3] * PAGE_SIZE, attrs, true))
                    else Walk(old(mem), root, path)
        invariant LastLevel(s') == LastLevel(s) - leaked
        invariant forall t :: t in leaked <==> t in LastLevel(s) && Low(LastLevel(s)[t], i)
      {
        ghost var before, s1 := mem, s';
        var currentAddr := i * 0x200_0000;
        ghost var more;
        s', more := MapL2Block(root, currentAddr, currentAddr, attrs, s');
        FramedButTransitive(old(mem), s, before, s1, mem, s', leaked, more);
        FramedButRoot(before, s1, mem, s', more);
        BlockPath(i);
        LowStep(before, s1, LastLevel(s), leaked, more, i);
        leaked := leaked + more;
      }
      forall va: nat | va < 0x10_0000_0000
          ensures Walk(mem, root, PathOf(va)) == Some(Mapping(va - va % PAGE_SIZE, attrs, true)) {
        LowPath(va);
      }
      AllLow(old(mem), s, leaked);
    }

    /** Frees every table below `t`: the nested loops of the teardown, level by level. */
    method FreeChildren(t: nat, ghost whole: Memory, ghost s: Tree, level: nat)
      requires Shape(whole, s) && t in s.prefix && level == |s.prefix[t]| < 3
      requires forall u :: u in s.prefix && s.prefix[t] <= s.prefix[u] ==> u in mem && mem[u] == whole[u]
      modifies this
      ensures mem == old(mem) - Below(s, s.prefix[t], if level == 0 then 2 else TABLE_ENTRIES)
      decreases 3 - level
    {
      hide Shape, LinksDown, LinksUp;
      ghost var p := s.prefix[t];
      assert Below(s, p, 0) == {};
      assert old(mem) - {} == mem;
      var bound := if level == 0 then 2 else TABLE_ENTRIES;
      for i := 0 to bound
        invariant mem == old(mem) - Below(s, p, i)
      {
        assert t !in Below(s, p, i);
        var e := mem[t][i];
        BelowStep(whole, s, t, i);
        if e.valid && e.isTable {
          var child := e.addr;
          assert forall u :: u in s.prefix && s.prefix[child] <= s.prefix[u] ==> u !in Below(s, p, i) by {
            assert s.prefix[child][|p|] == i;
          }
          if level == 2 {
            ClearLeaves(child);
            NothingBelow(whole, s, child);
          } else {
            FreeChildren(child, whole, s, level + 1);
          }
          assert child !in Below(s, s.prefix[child], TABLE_ENTRIES);
          FreeTable(child);
          assert mem == old(mem) - Below(s, p, i + 1);
        }
      }
    }

    /** Clears the valid bits of a last-level table that is about to be freed. */
    method ClearLeaves(t: nat)
      requires t in mem
      modifies this
      ensures mem.Keys == old(mem).Keys && forall u :: u in mem && u != t ==> mem[u] == old(mem)[u]
      ensures forall i :: 0 <= i < TABLE_ENTRIES ==> !mem[t][i].Link()
    {
      for i := 0 to TABLE_ENTRIES
        invariant mem.Keys == old(mem).Keys && forall u :: u in mem && u != t ==> mem[u] == old(mem)[u]
        invariant forall j :: 0 <= j < i ==> !mem[t][j].Link()
      {
        var e := mem[t][i];
        if e.valid && e.isTable {
          mem := SetEntry(mem, t, i, e.(valid := false));
        }
      }
    }

    /** Frees a whole tree: exactly its tables, each once, and nothing else. */
    method FreeTables(root: nat, ghost s: Tree)
      requires Shape(mem, s) && root == s.root
      modifies this
      ensures mem == old(mem) - s.prefix.Keys
    {
      BelowRoot(mem, s);
      FreeChildren(root, mem, s, 0);
      FreeTable(root);
    }
  }
}
