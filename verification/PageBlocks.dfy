/**
 * A page mapped where a block lies: the block is taken for a last-level table, so
 * an entry is written at its base. What that does to every translation, and when
 * the page ends up as asked.
 */
module PageBlocks {
  import opened Wrappers
  import opened PageTable
  import opened PageMapper

  /** The rest of a walk that has reached table t at level n. */
  function WalkFrom(mem: Memory, t: nat, path: Path, n: nat): Option<Mapping>
    requires n <= 3
    decreases 3 - n
  {
    if t !in mem then None
    else
      var e := mem[t][path[n]];
      if n == 3 then (if e.Link() then Some(Mapping(e.addr, e.attrs, e.accessed)) else None)
      else if e.Link() then WalkFrom(mem, e.addr, path, n + 1)
      else if n == 2 && e.IsBlock() then Some(Mapping(e.addr + path[3] * PAGE_SIZE, e.attrs, e.accessed))
      else None
  }

  /** A walk is what is left of it at any table it reaches. */
  lemma {:induction false} WalkSplits(mem: Memory, root: nat, path: Path, n: nat)
    requires n <= 3 && TableAt(mem, root, path, n).Some?
    ensures Walk(mem, root, path) == WalkFrom(mem, TableAt(mem, root, path, n).value, path, n)
    decreases 3 - n
  {
    var t := TableAt(mem, root, path, n).value;
    if n < 3 {
      if t in mem && mem[t][path[n]].Link() {
        WalkSplits(mem, root, path, n + 1);
      } else {
        NoFurther(mem, root, path, n + 1);
      }
    }
  }

  lemma NoFurther(mem: Memory, root: nat, path: Path, n: nat)
    requires 1 <= n <= 3 && TableAt(mem, root, path, n) == None
    ensures TableAt(mem, root, path, 3) == None && (n <= 2 ==> TableAt(mem, root, path, 2) == None)
  {
    if n == 1 { assert TableAt(mem, root, path, 2) == None; }
  }

  /** The walk of `path` reads entry i of table t. */
  ghost predicate Reads(s: Tree, t: nat, i: nat, path: Path) {
    t in s.prefix && |s.prefix[t]| <= 3 && path[..|s.prefix[t]|] == s.prefix[t] && path[|s.prefix[t]|] == i
  }

  /** An entry that a walk does not read does not matter to it. */
  lemma {:induction false} UnreadFrom(mem: Memory, s: Tree, t: nat, i: nat, e: Entry, path: Path, n: nat)
    requires Shape(mem, s) && t in mem && i < TABLE_ENTRIES && !Reads(s, t, i, path)
    requires n <= 3 && TableAt(mem, s.root, path, n).Some?
    ensures var u := TableAt(mem, s.root, path, n).value;
              WalkFrom(SetEntry(mem, t, i, e), u, path, n) == WalkFrom(mem, u, path, n)
    decreases 3 - n
  {
    hide LinksDown, LinksUp;
    TableAtSound(mem, s, path, n);
    var u := TableAt(mem, s.root, path, n).value;
    EntryAt(mem, s, u, path[n]);
    if n < 3 && mem[u][path[n]].Link() { UnreadFrom(mem, s, t, i, e, path, n + 1); }
  }

  /** A walk reaches the table whose entry it reads, also once that entry is another. */
  lemma {:induction false} ReadFrom(mem: Memory, s: Tree, t: nat, i: nat, e: Entry, path: Path, n: nat)
    requires Shape(mem, s) && t in mem && i < TABLE_ENTRIES && Reads(s, t, i, path) && n <= |s.prefix[t]|
    ensures TableAt(mem, s.root, path, n).Some?
    ensures WalkFrom(SetEntry(mem, t, i, e), s.root, path, 0) ==
              WalkFrom(SetEntry(mem, t, i, e), TableAt(mem, s.root, path, n).value, path, n)
    decreases n
  {
    hide LinksDown, LinksUp;
    if n > 0 {
      ReadFrom(mem, s, t, i, e, path, n - 1);
      var a := Ancestor(mem, s, t, n);
      assert s.prefix[t][..n] == path[..n];
      TableAtComplete(mem, s, path, n, a);
      var u := TableAt(mem, s.root, path, n - 1).value;
      TableAtSound(mem, s, path, n - 1);
    }
  }

  /**
   * The walk once entry i of some table is a page entry for `pa`: a walk that reads
   * the entry takes `pa` for its next table, or for its frame at the last level.
   */
  lemma ScribbledWalk(mem: Memory, s: Tree, t: nat, i: nat, pa: nat, attrs: Attrs, path: Path)
    requires Shape(mem, s) && i < TABLE_ENTRIES
    ensures var mem' := Scribbled(mem, t, i, PageEntry(pa, attrs));
            Walk(mem', s.root, path) ==
              if t in mem && Reads(s, t, i, path) then
                if |s.prefix[t]| == 3 then Some(Mapping(pa, attrs, true))
                    else WalkFrom(mem', pa, path, |s.prefix[t]| + 1)
              else Walk(mem, s.root, path)
  {
    hide LinksDown, LinksUp;
    var e := PageEntry(pa, attrs);
    if t in mem {
      var mem' := SetEntry(mem, t, i, e);
      WalkSplits(mem, s.root, path, 0);
      WalkSplits(mem', s.root, path, 0);
      if Reads(s, t, i, path) {
        var n := |s.prefix[t]|;
        ReadFrom(mem, s, t, i, e, path, n);
        TableAtComplete(mem, s, path, n, t);
      } else {
        UnreadFrom(mem, s, t, i, e, path, 0);
      }
    }
  }

  /** The tables stay a tree just when the entry is outside it, at its last level, or linked to `pa` before. */
  lemma ScribbledOkIff(mem: Memory, s: Tree, t: nat, i: nat, pa: nat, attrs: Attrs)
    requires Ok(mem, s) && i < TABLE_ENTRIES
    ensures Ok(Scribbled(mem, t, i, PageEntry(pa, attrs)), s) <==>
      t !in s.prefix || |s.prefix[t]| == 3 || (mem[t][i].Link() && mem[t][i].addr == pa)
  {
    hide LinksDown, LinksUp, NoneEmpty;
    var e := PageEntry(pa, attrs);
    var mem' := Scribbled(mem, t, i, e);
    Within(mem, s);
    if t !in s.prefix {
      SameTablesOk(mem, mem', s);
    } else if |s.prefix[t]| == 3 {
      SetLeafShape(mem, s, t, i, e);
      SetLeafNoneEmpty(mem, s, t, i, e, {});
      assert {} - {t} == {};
    } else if mem[t][i].Link() && mem[t][i].addr == pa {
      RelinkShape(mem, s, t, i, e);
      SetLeafNoneEmpty(mem, s, t, i, e, {});
      assert {} - {t} == {};
    } else if Ok(mem', s) {
      EntryAt(mem', s, t, i);
      NoLinkOrTable(mem, s, t, i, pa);
    }
  }

  lemma SameTablesOk(mem: Memory, mem': Memory, s: Tree)
    requires Ok(mem, s) && mem'.Keys == mem.Keys && forall t :: t in s.prefix ==> mem'[t] == mem[t]
    ensures Ok(mem', s)
  {
    hide LinksDown, LinksUp;
    Within(mem, s);
    forall t, i | t in s.prefix && 0 <= i < TABLE_ENTRIES ensures EntryOk(mem', s, t, i) { EntryAt(mem, s, t, i); }
    forall t | t in s.prefix && t != s.root ensures LinkedUp(mem', s, t) { UpAt(mem, s, t); }
    ShapeFrom(mem', s);
  }

  lemma RelinkShape(mem: Memory, s: Tree, t: nat, i: nat, e: Entry)
    requires Shape(mem, s) && t in s.prefix && i < TABLE_ENTRIES && mem[t][i].Link() && e.Link()
               && e.addr == mem[t][i].addr
    ensures Shape(SetEntry(mem, t, i, e), s)
  {
    hide LinksDown, LinksUp;
    Within(mem, s);
    var mem' := SetEntry(mem, t, i, e);
    forall u, j | u in s.prefix && 0 <= j < TABLE_ENTRIES ensures EntryOk(mem', s, u, j) { EntryAt(mem, s, u, j); }
    forall u | u in s.prefix && u != s.root ensures LinkedUp(mem', s, u) { UpAt(mem, s, u); }
    ShapeFrom(mem', s);
  }

  /**
   * A page mapped where a block lies translates as asked just when the block gave
   * it that translation already, unless the base of the block is one of the tables
   * the walk passes and the entry written one of those it reads there.
   */
  lemma TakesIff(mem: Memory, s: Tree, path: Path, pa: nat, attrs: Attrs)
    requires Ok(mem, s) && BlockOnPath(mem, s.root, path)
    ensures var base := BlockBase(mem, s.root, path);
            var mem' := Scribbled(mem, base, path[3], PageEntry(pa, attrs));
            && (Reads(s, base, path[3], path) ==> |s.prefix[base]| < 3)
            && (Walk(mem', s.root, path) == Some(Mapping(pa, attrs, true)) <==>
                  if Reads(s, base, path[3], path) then
                    WalkFrom(mem', pa, path, |s.prefix[base]| + 1) == Some(Mapping(pa, attrs, true))
                  else
                    && pa == base + path[3] * PAGE_SIZE && attrs == BlockAttrs(mem, s.root, path)
                    && BlockAccessed(mem, s.root, path))
  {
    hide LinksDown, LinksUp, NoneEmpty, TableAt, Walk, WalkFrom;
    var base := BlockBase(mem, s.root, path);
    Within(mem, s);
    BlockTranslates(mem, s.root, path);
    ScribbledWalk(mem, s, base, path[3], pa, attrs, path);
    if Reads(s, base, path[3], path) && |s.prefix[base]| == 3 {
      TableAtComplete(mem, s, path, 3, base);
      NoBlockAbove(mem, s.root, path);
    }
  }
}
