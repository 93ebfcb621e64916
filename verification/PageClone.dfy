/** Deep copies of translation trees, and why the copy and the original never disturb each other. */
module PageClone {
  import opened Wrappers
  import opened PageTable
  import opened PageMapper

  /** The copy of an entry: same bits, with a table pointer redirected to the copy of that table. */
  ghost predicate CopiedEntry(e: Entry, copy: Entry, lastLevel: bool, twin: map<nat, nat>) {
    && copy.valid == e.valid
    && (!e.valid ==> copy.addr == 0)
    && (e.valid ==>
          && copy.isTable == e.isTable && copy.attrs == e.attrs && copy.accessed == e.accessed
          && (if e.isTable && !lastLevel then e.addr in twin && copy.addr == twin[e.addr] else copy.addr == e.addr))
  }

  /** Table `twin[u]` copies table `u` entry by entry. */
  ghost predicate IsTwin(was: Memory, mem: Memory, s: Tree, u: nat, twin: map<nat, nat>) {
    && u in twin && u in was && u in s.prefix && twin[u] in mem
    && forall i :: 0 <= i < TABLE_ENTRIES ==> CopiedEntry(was[u][i], mem[twin[u]][i], |s.prefix[u]| == 3, twin)
  }

  /** `mem` is `was` with a new table for each table in the domain of `twin`, and nothing else new. */
  ghost predicate OnlyAdds(was: Memory, mem: Memory, twin: map<nat, nat>, others: set<nat>) {
    && (forall u :: u in was ==> u in mem && mem[u] == was[u])
    && (forall u :: u in mem ==> u in was || u in others || u in twin.Values)
    && (forall a :: a in twin ==> twin[a] !in was && twin[a] !in others && twin[a] != 0 && twin[a] in mem)
    && (forall a, b :: a in twin && b in twin && twin[a] == twin[b] ==> a == b)
  }

  ghost predicate AllTwins(was: Memory, mem: Memory, s: Tree, twin: map<nat, nat>) {
    forall u :: u in twin ==> IsTwin(was, mem, s, u, twin)
  }

  /** A table and everything below it. */
  ghost function Subtree(s: Tree, p: seq<nat>): set<nat> {
    set t | t in s.prefix && p <= s.prefix[t]
  }

  lemma SubtreeIs(mem: Memory, s: Tree, t: nat)
    requires Shape(mem, s) && t in s.prefix
    ensures Subtree(s, s.prefix[t]) == {t} + Below(s, s.prefix[t], TABLE_ENTRIES)
  {
    forall u | u in Subtree(s, s.prefix[t]) ensures u == t || u in Below(s, s.prefix[t], TABLE_ENTRIES) {
      PrefixInRange(mem, s, u);
      if s.prefix[u] == s.prefix[t] { PrefixInjective(mem, s, u, t); }
    }
  }

  /** The shape of a tree depends on its own tables only. */
  lemma ShapeFrame(mem: Memory, mem': Memory, s: Tree)
    requires Shape(mem, s) && forall u :: u in s.prefix ==> u in mem' && mem'[u] == mem[u]
    ensures Shape(mem', s)
    ensures forall open: set<nat> :: NoneEmpty(mem, s, open) ==> NoneEmpty(mem', s, open)
  {
    forall t, i | t in s.prefix && 0 <= i < TABLE_ENTRIES ensures EntryOk(mem', s, t, i) {
      assert EntryOk(mem, s, t, i);
    }
    forall t | t in s.prefix && t != s.root ensures LinkedUp(mem', s, t) { assert LinkedUp(mem, s, t); }
  }

  /** Copies made of disjoint parts are copies of the whole. */
  lemma MergeTwins(was: Memory, mem1: Memory, mem2: Memory, s: Tree, a: map<nat, nat>, b: map<nat, nat>)
    requires AllTwins(was, mem1, s, a) && AllTwins(was, mem2, s, b) && a.Keys !! b.Keys
    requires forall u :: u in mem1 ==> u in mem2 && mem2[u] == mem1[u]
    ensures AllTwins(was, mem2, s, a + b)
  {
    var twin := a + b;
    forall u | u in twin ensures IsTwin(was, mem2, s, u, twin) {
      var part, mem := if u in a then a else b, if u in a then mem1 else mem2;
      assert IsTwin(was, mem, s, u, part);
      forall i | 0 <= i < TABLE_ENTRIES ensures CopiedEntry(was[u][i], mem2[twin[u]][i], |s.prefix[u]| == 3, twin) {
        assert CopiedEntry(was[u][i], mem[part[u]][i], |s.prefix[u]| == 3, part);
      }
    }
  }

  /** Writing a table that is no copy leaves the copies. */
  lemma KeepTwins(was: Memory, mem: Memory, mem': Memory, s: Tree, twin: map<nat, nat>)
    requires AllTwins(was, mem, s, twin)
    requires forall a :: a in twin ==> twin[a] in mem' && mem'[twin[a]] == mem[twin[a]]
    ensures AllTwins(was, mem', s, twin)
  {
    forall u | u in twin ensures IsTwin(was, mem', s, u, twin) { assert IsTwin(was, mem, s, u, twin); }
  }

  /** The first `n` entries of `dst` copy those of `src`; the rest is still empty. */
  ghost predicate HalfCopied(was: Memory, mem: Memory, src: nat, dst: nat, n: nat, lastLevel: bool,
      twin: map<nat, nat>) {
    && src in was && dst in mem
    && (forall j :: 0 <= j < n && j < TABLE_ENTRIES ==> CopiedEntry(was[src][j], mem[dst][j], lastLevel, twin))
    && (forall j :: n <= j < TABLE_ENTRIES ==> mem[dst][j] == INVALID)
  }

  /** What the copying loop keeps at index `n`. */
  ghost predicate Copying(was: Memory, mem: Memory, s: Tree, src: nat, dst: nat, n: nat, lastLevel: bool,
      twin: map<nat, nat>) {
    && dst !in was && dst != 0
    && OnlyAdds(was, mem, twin, {dst}) && AllTwins(was, mem, s, twin)
    && HalfCopied(was, mem, src, dst, n, lastLevel, twin)
  }

  lemma CopyStart(was: Memory, mem: Memory, s: Tree, src: nat, dst: nat, lastLevel: bool)
    requires src in was && dst !in was && dst != 0 && mem == was[dst := EmptyTable()]
    ensures Copying(was, mem, s, src, dst, 0, lastLevel, map[])
  {
  }

  /** One more entry is written. */
  lemma CopyEntry(was: Memory, mem: Memory, s: Tree, src: nat, dst: nat, n: nat, lastLevel: bool, twin: map<nat, nat>,
      x: Entry)
    requires Copying(was, mem, s, src, dst, n, lastLevel, twin) && n < TABLE_ENTRIES
    requires CopiedEntry(was[src][n], x, lastLevel, twin)
    ensures Copying(was, SetEntry(mem, dst, n, x), s, src, dst, n + 1, lastLevel, twin)
  {
    var mem' := SetEntry(mem, dst, n, x);
    KeepTwins(was, mem, mem', s, twin);
    assert OnlyAdds(was, mem', twin, {dst});
  }

  lemma SkipEntry(was: Memory, mem: Memory, s: Tree, src: nat, dst: nat, n: nat, lastLevel: bool, twin: map<nat, nat>)
    requires Copying(was, mem, s, src, dst, n, lastLevel, twin) && n < TABLE_ENTRIES && !was[src][n].valid
    ensures Copying(was, mem, s, src, dst, n + 1, lastLevel, twin)
  {
  }

  /** A subtree has been copied in between. */
  lemma CopyChild(was: Memory, mem1: Memory, mem2: Memory, s: Tree, src: nat, dst: nat, n: nat, twin: map<nat, nat>,
      sub: map<nat, nat>)
    requires Copying(was, mem1, s, src, dst, n, false, twin)
    requires OnlyAdds(mem1, mem2, sub, {}) && AllTwins(mem1, mem2, s, sub) && twin.Keys !! sub.Keys
               && sub.Keys <= was.Keys
    ensures Copying(was, mem2, s, src, dst, n, false, twin + sub)
  {
    forall u | u in sub ensures IsTwin(was, mem2, s, u, sub) { assert IsTwin(mem1, mem2, s, u, sub); }
    MergeTwins(was, mem1, mem2, s, twin, sub);
    var all := twin + sub;
    AddsBoth(was, mem1, mem2, dst, twin, sub);
    forall j | 0 <= j < n && j < TABLE_ENTRIES ensures CopiedEntry(was[src][j], mem2[dst][j], false, all) {
      assert CopiedEntry(was[src][j], mem1[dst][j], false, twin);
    }
  }

  lemma AddsBoth(was: Memory, mem1: Memory, mem2: Memory, dst: nat, twin: map<nat, nat>, sub: map<nat, nat>)
    requires OnlyAdds(was, mem1, twin, {dst}) && OnlyAdds(mem1, mem2, sub, {}) && twin.Keys !! sub.Keys && dst in mem1
    ensures OnlyAdds(was, mem2, twin + sub, {dst})
  {
    var all := twin + sub;
    forall u | u in mem2 ensures u in was || u in {dst} || u in all.Values {
      if u in sub.Values {
        var a :| a in sub && sub[a] == u;
        assert a in all && all[a] == u;
      } else if u in twin.Values {
        var a :| a in twin && twin[a] == u;
        assert a in all && all[a] == u;
      }
    }
    forall a | a in all ensures all[a] !in was && all[a] !in {dst} && all[a] != 0 && all[a] in mem2 {
    }
    forall a, b | a in all && b in all && all[a] == all[b] ensures a == b {
      assert a in twin ==> twin[a] in mem1;
      assert b in twin ==> twin[b] in mem1;
    }
  }

  /** The table itself joins its copied subtree. */
  lemma CopyDone(was: Memory, mem: Memory, s: Tree, src: nat, dst: nat, lastLevel: bool, twin: map<nat, nat>)
    requires Shape(was, s) && src in s.prefix && lastLevel == (|s.prefix[src]| == 3)
    requires Copying(was, mem, s, src, dst, TABLE_ENTRIES, lastLevel, twin)
               && twin.Keys == Below(s, s.prefix[src], TABLE_ENTRIES)
    ensures var all := twin[src := dst];
            OnlyAdds(was, mem, all, {}) && AllTwins(was, mem, s, all) && all.Keys == Subtree(s, s.prefix[src])
  {
    var all := twin[src := dst];
    SubtreeIs(was, s, src);
    assert src !in twin && src in was;
    hide Shape, Rooted, Below, Subtree, OnlyAdds, IsTwin;
    forall u | u in all ensures IsTwin(was, mem, s, u, all) {
      DoneTwin(was, mem, s, src, dst, lastLevel, twin, u);
    }
    DoneAdds(was, mem, src, dst, twin);
  }

  lemma DoneTwin(was: Memory, mem: Memory, s: Tree, src: nat, dst: nat, lastLevel: bool, twin: map<nat, nat>, u: nat)
    requires src in s.prefix && src in was && src !in twin && lastLevel == (|s.prefix[src]| == 3)
    requires AllTwins(was, mem, s, twin) && HalfCopied(was, mem, src, dst, TABLE_ENTRIES, lastLevel, twin)
    requires u == src || u in twin
    ensures IsTwin(was, mem, s, u, twin[src := dst])
  {
    var all := twin[src := dst];
    if u != src { assert IsTwin(was, mem, s, u, twin); }
    forall i | 0 <= i < TABLE_ENTRIES ensures CopiedEntry(was[u][i], mem[all[u]][i], |s.prefix[u]| == 3, all) {
      if u != src {
        assert CopiedEntry(was[u][i], mem[twin[u]][i], |s.prefix[u]| == 3, twin);
      } else {
        assert CopiedEntry(was[src][i], mem[dst][i], lastLevel, twin);
      }
    }
  }

  lemma DoneAdds(was: Memory, mem: Memory, src: nat, dst: nat, twin: map<nat, nat>)
    requires OnlyAdds(was, mem, twin, {dst}) && src !in twin && dst !in was && dst != 0 && dst in mem
    ensures OnlyAdds(was, mem, twin[src := dst], {})
  {
    var all := twin[src := dst];
    assert src in all && all[src] == dst;
    forall u | u in mem ensures u in was || u in all.Values {
      if u in twin.Values {
        var a :| a in twin && twin[a] == u;
        assert a in all && all[a] == u;
      }
    }
  }

  lemma NextIsApart(s: Tree, p: seq<nat>, i: nat)
    ensures Below(s, p, i) !! Subtree(s, p + [i])
  {
    forall u | u in Subtree(s, p + [i]) ensures u !in Below(s, p, i) {
      assert s.prefix[u][|p|] == (p + [i])[|p|];
    }
  }

  /** Copies a table and everything below it into new tables. */
  method CloneTable(m: Mapper, src: nat, level: nat, ghost s: Tree) returns (dst: nat, ghost twin: map<nat, nat>)
    requires Shape(m.mem, s) && src in s.prefix && level == |s.prefix[src]|
    modifies m
    ensures OnlyAdds(old(m.mem), m.mem, twin, {}) && AllTwins(old(m.mem), m.mem, s, twin)
    ensures twin.Keys == Subtree(s, s.prefix[src]) && src in twin && twin[src] == dst
    decreases 3 - level
  {
    assert src in m.mem && level <= 3;
    ghost var was, p := m.mem, s.prefix[src];
    dst := m.AllocTable();
    twin := map[];
    CopyStart(was, m.mem, s, src, dst, level == 3);
    assert Below(s, p, 0) == {};
    if level == 3 {
      NothingBelow(was, s, src);
      dst := CopyLast(m, src, dst, was, s);
    } else {
      hide Shape, Copying, Below, Subtree;
      for i := 0 to TABLE_ENTRIES
        invariant Copying(was, m.mem, s, src, dst, i, false, twin)
        invariant twin.Keys == Below(s, p, i)
      {
        twin := CloneEntry(m, src, dst, i, level, was, s, twin);
      }
    }
    CopyDone(was, m.mem, s, src, dst, level == 3, twin);
    twin := twin[src := dst];
  }

  /** The last level: entries are copied as they are. */
  method CopyLast(m: Mapper, src: nat, dst: nat, ghost was: Memory, ghost s: Tree) returns (r: nat)
    requires Shape(was, s) && src in s.prefix && |s.prefix[src]| == 3
    requires Copying(was, m.mem, s, src, dst, 0, true, map[])
    modifies m
    ensures Copying(was, m.mem, s, src, dst, TABLE_ENTRIES, true, map[]) && r == dst
  {
    for i := 0 to TABLE_ENTRIES
      invariant Copying(was, m.mem, s, src, dst, i, true, map[])
    {
      assert EntryOk(was, s, src, i);
      CopyEntry(was, m.mem, s, src, dst, i, true, map[], was[src][i]);
      m.mem := SetEntry(m.mem, dst, i, m.mem[src][i]);
    }
    r := dst;
  }

  /** One entry above the last level: nothing, a block, or a table to be copied first. */
  method CloneEntry(m: Mapper, src: nat, dst: nat, i: nat, level: nat, ghost was: Memory, ghost s: Tree,
      ghost twin: map<nat, nat>)
    returns (ghost twin': map<nat, nat>)
    requires Shape(was, s) && src in s.prefix && level == |s.prefix[src]| < 3 && i < TABLE_ENTRIES
    requires Copying(was, m.mem, s, src, dst, i, false, twin) && twin.Keys == Below(s, s.prefix[src], i)
    modifies m
    ensures Copying(was, m.mem, s, src, dst, i + 1, false, twin') && twin'.Keys == Below(s, s.prefix[src], i + 1)
    decreases 3 - level, 0
  {
    BelowStep(was, s, src, i);
    twin' := twin;
    var entry := m.mem[src][i];
    if !entry.valid {
      SkipEntry(was, m.mem, s, src, dst, i, false, twin);
    } else if entry.isTable {
      hide Shape, Copying, Below;
      twin' := CloneLink(m, src, dst, i, level, was, s, twin);
    } else {
      CopyEntry(was, m.mem, s, src, dst, i, false, twin, entry);
      m.mem := SetEntry(m.mem, dst, i, entry);
    }
  }

  method CloneLink(m: Mapper, src: nat, dst: nat, i: nat, level: nat, ghost was: Memory, ghost s: Tree,
      ghost twin: map<nat, nat>)
    returns (ghost twin': map<nat, nat>)
    requires Shape(was, s) && src in s.prefix && level == |s.prefix[src]| < 3 && i < TABLE_ENTRIES && was[src][i].Link()
    requires Copying(was, m.mem, s, src, dst, i, false, twin) && twin.Keys == Below(s, s.prefix[src], i)
    modifies m
    ensures Copying(was, m.mem, s, src, dst, i + 1, false, twin') && twin'.Keys == Below(s, s.prefix[src], i + 1)
    decreases 3 - level, 0, 0
  {
    ghost var mem1, p := m.mem, s.prefix[src];
    assert src in mem1 && mem1[src] == was[src];
    var entry := m.mem[src][i];
    CloneLinkFacts(was, mem1, s, src, dst, i, twin);
    hide Shape, Copying, AllTwins, OnlyAdds, Below, Subtree;
    var child, sub := CloneTable(m, entry.addr, level + 1, s);
    CopyChild(was, mem1, m.mem, s, src, dst, i, twin, sub);
    twin' := twin + sub;
    CopyingHolds(was, m.mem, s, src, dst, i, twin');
    CopyEntry(was, m.mem, s, src, dst, i, false, twin', entry.(addr := child));
    m.mem := SetEntry(m.mem, dst, i, entry.(addr := child));
  }

  lemma CopyingHolds(was: Memory, mem: Memory, s: Tree, src: nat, dst: nat, i: nat, twin: map<nat, nat>)
    requires Copying(was, mem, s, src, dst, i, false, twin)
    ensures dst in mem
  {
  }

  lemma CloneLinkFacts(was: Memory, mem1: Memory, s: Tree, src: nat, dst: nat, i: nat, twin: map<nat, nat>)
    requires Shape(was, s) && src in s.prefix && |s.prefix[src]| < 3 && i < TABLE_ENTRIES && was[src][i].Link()
    requires Copying(was, mem1, s, src, dst, i, false, twin) && twin.Keys == Below(s, s.prefix[src], i)
    ensures Shape(mem1, s)
    ensures var c := was[src][i].addr;
            && c in s.prefix && s.prefix[c] == s.prefix[src] + [i]
            && Subtree(s, s.prefix[c]) <= was.Keys && twin.Keys !! Subtree(s, s.prefix[c])
            && Below(s, s.prefix[src], i + 1) == twin.Keys + Subtree(s, s.prefix[c])
  {
    BelowStep(was, s, src, i);
    ShapeFrame(was, mem1, s);
    NextIsApart(s, s.prefix[src], i);
    SubtreeIs(was, s, was[src][i].addr);
  }

  // ---------------------------------------------------------------- the copy as a tree

  ghost function Original(twin: map<nat, nat>, n: nat): (u: nat)
    requires n in twin.Values
    ensures u in twin && twin[u] == n
  {
    var u :| u in twin && twin[u] == n;
    u
  }

  /** The tree of the copies. */
  ghost function TwinTree(s: Tree, twin: map<nat, nat>): Tree
    requires twin.Keys == s.prefix.Keys && s.root in twin
  {
    Tree(twin[s.root],
         map n | n in twin.Values :: s.prefix[Original(twin, n)],
         map n | n in twin.Values && Original(twin, n) in s.parent && s.parent[Original(twin, n)] in twin
           :: twin[s.parent[Original(twin, n)]])
  }

  /** A full copy of the tree was added to memory. */
  ghost predicate Cloned(was: Memory, mem: Memory, s: Tree, twin: map<nat, nat>) {
    Ok(was, s) && OnlyAdds(was, mem, twin, {}) && AllTwins(was, mem, s, twin) && twin.Keys == s.prefix.Keys
        && s.root in twin
  }

  lemma OriginalIs(was: Memory, mem: Memory, s: Tree, twin: map<nat, nat>, u: nat)
    requires Cloned(was, mem, s, twin) && u in twin
    ensures twin[u] in twin.Values && Original(twin, twin[u]) == u
    ensures twin[u] in TwinTree(s, twin).prefix && TwinTree(s, twin).prefix[twin[u]] == s.prefix[u]
  {
  }

  lemma TwinRooted(was: Memory, mem: Memory, s: Tree, twin: map<nat, nat>)
    requires Cloned(was, mem, s, twin)
    ensures Rooted(mem, TwinTree(s, twin))
  {
    var s' := TwinTree(s, twin);
    forall n | n in s'.prefix
      ensures n in mem && n != 0 && |s'.prefix[n]| <= 3 && (s'.prefix[n] == [] <==> n == s'.root)
    {
      OriginalIs(was, mem, s, twin, Original(twin, n));
    }
    OriginalIs(was, mem, s, twin, s.root);
  }

  lemma TwinEntry(was: Memory, mem: Memory, s: Tree, twin: map<nat, nat>, u: nat, i: nat)
    requires Cloned(was, mem, s, twin) && u in twin && i < TABLE_ENTRIES && Rooted(mem, TwinTree(s, twin))
    requires twin[u] in TwinTree(s, twin).prefix
    ensures EntryOk(mem, TwinTree(s, twin), twin[u], i)
  {
    OriginalIs(was, mem, s, twin, u);
    assert EntryOk(was, s, u, i);
    assert IsTwin(was, mem, s, u, twin);
    assert CopiedEntry(was[u][i], mem[twin[u]][i], |s.prefix[u]| == 3, twin);
    if was[u][i].Link() && |s.prefix[u]| < 3 {
      OriginalIs(was, mem, s, twin, was[u][i].addr);
    }
  }

  lemma TwinLinkedUp(was: Memory, mem: Memory, s: Tree, twin: map<nat, nat>, u: nat)
    requires Cloned(was, mem, s, twin) && u in twin && u != s.root
    requires twin[u] in TwinTree(s, twin).prefix && TwinTree(s, twin).prefix[twin[u]] == s.prefix[u] != []
    ensures LinkedUp(mem, TwinTree(s, twin), twin[u])
  {
    OriginalIs(was, mem, s, twin, u);
    assert LinkedUp(was, s, u);
    var t, i := s.parent[u], s.prefix[u][|s.prefix[u]| - 1];
    OriginalIs(was, mem, s, twin, t);
    assert IsTwin(was, mem, s, t, twin);
    assert CopiedEntry(was[t][i], mem[twin[t]][i], |s.prefix[t]| == 3, twin);
  }

  /** The copy is a well-formed tree with no empty tables, and none of its tables belonged to anything before. */
  lemma TwinOk(was: Memory, mem: Memory, s: Tree, twin: map<nat, nat>)
    requires Cloned(was, mem, s, twin)
    ensures Ok(mem, TwinTree(s, twin))
    ensures forall n :: n in TwinTree(s, twin).prefix ==> n !in was
  {
    var s' := TwinTree(s, twin);
    TwinRooted(was, mem, s, twin);
    forall n, i | n in s'.prefix && 0 <= i < TABLE_ENTRIES ensures EntryOk(mem, s', n, i) {
      TwinEntry(was, mem, s, twin, Original(twin, n), i);
    }
    forall n | n in s'.prefix && n != s'.root ensures LinkedUp(mem, s', n) {
      var u := Original(twin, n);
      OriginalIs(was, mem, s, twin, u);
      TwinLinkedUp(was, mem, s, twin, u);
    }
    forall n | n in s'.prefix && n != s'.root ensures HasEntry(mem[n]) {
      var u := Original(twin, n);
      OriginalIs(was, mem, s, twin, u);
      assert HasEntry(was[u]);
      var i :| 0 <= i < TABLE_ENTRIES && was[u][i].valid;
      assert IsTwin(was, mem, s, u, twin);
      assert CopiedEntry(was[u][i], mem[n][i], |s.prefix[u]| == 3, twin);
    }
  }

  lemma TwinCopied(was: Memory, mem: Memory, s: Tree, twin: map<nat, nat>, u: nat, i: nat)
    requires Cloned(was, mem, s, twin) && u in twin && i < TABLE_ENTRIES
    ensures u in was && u in s.prefix && twin[u] in mem
    ensures CopiedEntry(was[u][i], mem[twin[u]][i], |s.prefix[u]| == 3, twin)
  {
    assert IsTwin(was, mem, s, u, twin);
  }

  lemma CloneSound(was: Memory, mem: Memory, s: Tree, twin: map<nat, nat>, path: Path, n: nat)
    requires Cloned(was, mem, s, twin) && n <= 3
    ensures s.root in twin
    ensures var r := TableAt(was, s.root, path, n);
              r.Some? ==> r.value in s.prefix && r.value in twin && s.prefix[r.value] == path[..n]
  {
    TableAtSound(was, s, path, n);
  }

  lemma {:induction false} TwinTableAt(was: Memory, mem: Memory, s: Tree, twin: map<nat, nat>, path: Path, n: nat)
    requires Cloned(was, mem, s, twin) && n <= 3
    ensures s.root in twin
    ensures var r := TableAt(was, s.root, path, n); var r' := TableAt(mem, twin[s.root], path, n);
            if r.None? then r'.None? else r.value in twin && r' == Some(twin[r.value])
  {
    hide Ok, Cloned;
    CloneSound(was, mem, s, twin, path, n);
    if n > 0 {
      CloneSound(was, mem, s, twin, path, n - 1);
      TwinTableAt(was, mem, s, twin, path, n - 1);
      var r := TableAt(was, s.root, path, n - 1);
      if r.Some? {
        TwinCopied(was, mem, s, twin, r.value, path[n - 1]);
      }
    }
  }

  /** The copy translates every page as the original does. */
  lemma TwinWalk(was: Memory, mem: Memory, s: Tree, twin: map<nat, nat>, path: Path)
    requires Cloned(was, mem, s, twin)
    ensures Walk(mem, twin[s.root], path) == Walk(was, s.root, path)
  {
    hide Ok, Cloned, TableAt;
    TwinTableAt(was, mem, s, twin, path, 3);
    TwinTableAt(was, mem, s, twin, path, 2);
    CloneSound(was, mem, s, twin, path, 3);
    CloneSound(was, mem, s, twin, path, 2);
    var r3, r2 := TableAt(was, s.root, path, 3), TableAt(was, s.root, path, 2);
    if r3.Some? {
      TwinCopied(was, mem, s, twin, r3.value, path[3]);
    } else if r2.Some? {
      TwinCopied(was, mem, s, twin, r2.value, path[2]);
    }
  }

  /** Clones a whole tree: same translations, no shared table, the original untouched. */
  method ClonePageTables(m: Mapper, root: nat, ghost s: Tree) returns (copy: nat, ghost s': Tree)
    requires Ok(m.mem, s) && root == s.root
    modifies m
    ensures Ok(m.mem, s') && s'.root == copy && Ok(m.mem, s)
    ensures s'.prefix.Keys !! old(m.mem).Keys && m.mem.Keys == old(m.mem).Keys + s'.prefix.Keys
    ensures forall u :: u in old(m.mem) ==> m.mem[u] == old(m.mem)[u]
    ensures forall path: Path :: Walk(m.mem, copy, path) == Walk(old(m.mem), root, path)
  {
    ghost var was := m.mem;
    ghost var twin;
    copy, twin := CloneTable(m, root, 0, s);
    assert Subtree(s, []) == s.prefix.Keys;
    assert Cloned(was, m.mem, s, twin);
    s' := TwinTree(s, twin);
    TwinOk(was, m.mem, s, twin);
    ShapeFrame(was, m.mem, s);
    assert s'.prefix.Keys == twin.Values;
    forall path: Path ensures Walk(m.mem, copy, path) == Walk(was, root, path) {
      TwinWalk(was, m.mem, s, twin, path);
    }
  }

  // ---------------------------------------------------------------- independence

  lemma {:induction false} TableAtFrame(mem: Memory, mem': Memory, o: Tree, path: Path, n: nat)
    requires Shape(mem, o) && n <= 3 && forall u :: u in o.prefix ==> u in mem' && mem'[u] == mem[u]
    ensures TableAt(mem', o.root, path, n) == TableAt(mem, o.root, path, n)
  {
    if n > 0 {
      TableAtFrame(mem, mem', o, path, n - 1);
      TableAtSound(mem, o, path, n - 1);
    }
  }

  lemma WalkFrame(mem: Memory, mem': Memory, o: Tree, path: Path)
    requires Shape(mem, o) && forall u :: u in o.prefix ==> u in mem' && mem'[u] == mem[u]
    ensures Walk(mem', o.root, path) == Walk(mem, o.root, path)
  {
    TableAtFrame(mem, mem', o, path, 3);
    TableAtFrame(mem, mem', o, path, 2);
    TableAtSound(mem, o, path, 3);
    TableAtSound(mem, o, path, 2);
    hide TableAt, LinksDown, LinksUp;
  }

  /** Whatever is done to one tree, a tree that shares no table with it keeps all its translations. */
  lemma DisjointTreesIndependent(mem: Memory, s: Tree, mem': Memory, s': Tree, o: Tree)
    requires Ok(mem, s) && Ok(mem, o) && s.prefix.Keys !! o.prefix.Keys && Framed(mem, s, mem', s')
    ensures Ok(mem', o) && s'.prefix.Keys !! o.prefix.Keys
    ensures forall path: Path :: Walk(mem', o.root, path) == Walk(mem, o.root, path)
  {
    ShapeFrame(mem, mem', o);
    hide Walk, LinksDown, LinksUp;
    forall path: Path ensures Walk(mem', o.root, path) == Walk(mem, o.root, path) {
      WalkFrame(mem, mem', o, path);
    }
  }
}
