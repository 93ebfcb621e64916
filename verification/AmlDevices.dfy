/**
 * From AML to the device tree: the terms of a region are drained, folded into
 * the properties of a device, and walked with every region nested in them.
 */
module AmlDevices {
  import opened Wrappers
  import opened AmlGrammar
  import opened AmlParser

  // ---------------------------------------------------------------- draining a region

  /** Everything the parser returns from `c` on, until it reports the end. */
  function TermsFrom(b: seq<Byte>, c: nat, utf8: seq<Byte> -> bool): seq<Result<Term>>
    requires c <= |b|
    decreases |b| - c
  {
    if c == |b| then []
    else
      TermAdvances(b, c, utf8);
      match TermAt(b, c, utf8)
      case Got(t, next) => [Ok(t)] + TermsFrom(b, next, utf8)
      case Fail(next) => [Err] + TermsFrom(b, next, utf8)
  }

  /** All terms, if none of them failed. */
  function Collected(rs: seq<Result<Term>>): Result<seq<Term>> {
    if rs == [] then Ok([])
    else if rs[0].Err? then Err
    else match Collected(rs[1..]) case Err => Err case Ok(ts) => Ok([rs[0].value] + ts)
  }

  function RegionTerms(b: seq<Byte>, utf8: seq<Byte> -> bool): Result<seq<Term>> {
    Collected(TermsFrom(b, 0, utf8))
  }

  /** The bytes left to look into, counting one for each term itself. */
  function Size(terms: seq<Term>): nat {
    if terms == [] then 0 else |Contents(terms[0])| + 1 + Size(terms[1..])
  }

  /** The terms of a region hold less than the region. */
  lemma {:induction false} TermsFit(b: seq<Byte>, c: nat, utf8: seq<Byte> -> bool)
    requires c <= |b| && Collected(TermsFrom(b, c, utf8)).Ok?
    ensures Size(Collected(TermsFrom(b, c, utf8)).value) <= |b| - c
    decreases |b| - c
  {
    hide TermAt;
    if c < |b| {
      TermAdvances(b, c, utf8);
      var rs := TermsFrom(b, c, utf8);
      assert rs[1..] == TermsFrom(b, TermAt(b, c, utf8).next, utf8);
      TermsFit(b, TermAt(b, c, utf8).next, utf8);
      ContentsSmaller(b, c, utf8);
      var ts := Collected(rs).value;
      assert ts[1..] == Collected(rs[1..]).value;
    }
  }

  /** Takes terms until the end or the first failure. */
  method Collect(contents: seq<Byte>, utf8: seq<Byte> -> bool) returns (r: Result<seq<Term>>)
    ensures r == RegionTerms(contents, utf8)
  {
    hide TermAt, Before;
    var parser := new Parser(contents, utf8);
    var terms := [];
    NoneBefore(RegionTerms(contents, utf8));
    while true
      invariant parser.Valid() && parser.bytes == contents && parser.utf8 == utf8
      invariant RegionTerms(contents, utf8) == Before(terms, Collected(TermsFrom(contents, parser.cursor, utf8)))
      decreases |contents| - parser.cursor
    {
      ghost var c := parser.cursor;
      ghost var rs := TermsFrom(contents, c, utf8);
      var next := parser.ParseNext();
      if next.Err? {
        FailedAfter(terms);
        return Err;
      }
      if next.value.None? {
        AllBefore(terms);
        return Ok(terms);
      }
      assert rs[1..] == TermsFrom(contents, parser.cursor, utf8);
      MoreBefore(terms, next.value.value, Collected(rs[1..]));
      terms := terms + [next.value.value];
    }
  }

  function Before(terms: seq<Term>, rest: Result<seq<Term>>): Result<seq<Term>> {
    if rest.Err? then Err else Ok(terms + rest.value)
  }

  lemma NoneBefore(rest: Result<seq<Term>>)
    ensures Before([], rest) == rest
  {
    if rest.Ok? { assert [] + rest.value == rest.value; }
  }

  lemma AllBefore(terms: seq<Term>)
    ensures Before(terms, Ok([])) == Ok(terms)
  {
    assert terms + [] == terms;
  }

  lemma FailedAfter(terms: seq<Term>)
    ensures Before(terms, Err) == Err
  {
  }

  lemma MoreBefore(terms: seq<Term>, t: Term, rest: Result<seq<Term>>)
    ensures Before(terms + [t], rest) == Before(terms, if rest.Err? then Err else Ok([t] + rest.value))
  {
    if rest.Ok? { assert terms + [t] + rest.value == terms + ([t] + rest.value); }
  }

  // ---------------------------------------------------------------- properties of a device

  datatype Properties = Properties(
    hid: Option<string>, cids: seq<string>, uid: Option<nat>, resources: seq<seq<Byte>>, subTerms: seq<Term>)

  const NO_PROPERTIES := Properties(None, [], None, [], [])

  /** How names and values read as text and as numbers. */
  datatype Reading = Reading(show: seq<Byte> -> string, text: Value -> Option<string>, number: Value -> Option<nat>,
      utf8: seq<Byte> -> bool)

  predicate EndsWith(s: string, suffix: string) {
    |suffix| <= |s| && s[|s| - |suffix|..] == suffix
  }

  function AddTerm(p: Properties, t: Term, how: Reading): Properties {
    match t
    case Name(name, value) =>
      var s := how.show(name);
      if EndsWith(s, "_HID") then p.(hid := how.text(value))
      else if EndsWith(s, "_CID") then
        if how.text(value).Some? then p.(cids := p.cids + [how.text(value).value]) else p
      else if EndsWith(s, "_UID") then p.(uid := how.number(value))
      else if EndsWith(s, "_CRS") then
        if value.Buffer? then p.(resources := p.resources + [value.data]) else p
      else p.(subTerms := p.subTerms + [t])
    case _ => p.(subTerms := p.subTerms + [t])
  }

  function AddTerms(p: Properties, terms: seq<Term>, how: Reading): Properties
    decreases |terms|
  {
    if terms == [] then p else AddTerms(AddTerm(p, terms[0], how), terms[1..], how)
  }

  // What a list of terms says about a device, property by property.

  predicate Named(t: Term, suffix: string, how: Reading) {
    t.Name? && EndsWith(how.show(t.name), suffix)
  }

  /** The terms that are none of the four properties, in order. */
  function Others(terms: seq<Term>, how: Reading): seq<Term> {
    if terms == [] then []
    else
      var t := terms[|terms| - 1];
      var rest := Others(terms[..|terms| - 1], how);
      if Named(t, "_HID", how) || Named(t, "_CID", how) || Named(t, "_UID", how) || Named(t, "_CRS", how) then rest
          else rest + [t]
  }

  /** The last term with the suffix, if there is one. */
  function LastNamed(terms: seq<Term>, suffix: string, how: Reading): Option<Value> {
    if terms == [] then None
    else if Named(terms[|terms| - 1], suffix, how) then Some(terms[|terms| - 1].value)
    else LastNamed(terms[..|terms| - 1], suffix, how)
  }

  /** The compatible ids, in order: one for each _CID whose value reads as text. */
  function Ids(terms: seq<Term>, how: Reading): seq<string> {
    if terms == [] then []
    else
      var t := terms[|terms| - 1];
      var rest := Ids(terms[..|terms| - 1], how);
      if Named(t, "_CID", how) && how.text(t.value).Some? then rest + [how.text(t.value).value] else rest
  }

  /** The resource templates, in order: one for each _CRS that is a buffer. */
  function Templates(terms: seq<Term>, how: Reading): seq<seq<Byte>> {
    if terms == [] then []
    else
      var t := terms[|terms| - 1];
      var rest := Templates(terms[..|terms| - 1], how);
      if Named(t, "_CRS", how) && t.value.Buffer? then rest + [t.value.data] else rest
  }

  /** The four suffixes exclude each other. */
  lemma OneSuffix(s: string)
    ensures EndsWith(s, "_HID") ==> !EndsWith(s, "_CID") && !EndsWith(s, "_UID") && !EndsWith(s, "_CRS")
    ensures EndsWith(s, "_UID") ==> !EndsWith(s, "_CID") && !EndsWith(s, "_CRS")
    ensures EndsWith(s, "_CID") ==> !EndsWith(s, "_CRS")
  {
    if |s| >= 4 {
      var tail := s[|s| - 4..];
      assert tail == "_HID" ==> tail[1] == 'H';
      assert tail == "_CID" ==> tail[1] == 'C' && tail[2] == 'I';
      assert tail == "_UID" ==> tail[1] == 'U';
      assert tail == "_CRS" ==> tail[1] == 'C' && tail[2] == 'R';
    }
  }

  lemma {:induction false} AddTermsSnoc(p: Properties, terms: seq<Term>, t: Term, how: Reading)
    ensures AddTerms(p, terms + [t], how) == AddTerm(AddTerms(p, terms, how), t, how)
    decreases |terms|
  {
    if terms != [] {
      AddTermsSnoc(AddTerm(p, terms[0], how), terms[1..], t, how);
      assert (terms + [t])[1..] == terms[1..] + [t];
    }
  }

  /**
   * The hardware and unique ids come from the last term that names them; compatible ids,
   * resources and other terms are kept in order.
   */
  lemma {:induction false} FoldMeaning(terms: seq<Term>, how: Reading)
    ensures var p := AddTerms(NO_PROPERTIES, terms, how);
            && p.hid == (match LastNamed(terms, "_HID", how) case None => None case Some(v) => how.text(v))
            && p.uid == (match LastNamed(terms, "_UID", how) case None => None case Some(v) => how.number(v))
            && p.cids == Ids(terms, how) && p.resources == Templates(terms, how)
            && p.subTerms == Others(terms, how)
    decreases |terms|
  {
    if terms != [] {
      var rest, t := terms[..|terms| - 1], terms[|terms| - 1];
      assert terms == rest + [t];
      FoldMeaning(rest, how);
      AddTermsSnoc(NO_PROPERTIES, rest, t, how);
      if t.Name? { OneSuffix(how.show(t.name)); }
    }
  }

  /** The properties in a region, if all of it parses. */
  function PropertiesOf(b: seq<Byte>, how: Reading): Result<Properties> {
    match RegionTerms(b, how.utf8)
    case Err => Err
    case Ok(terms) => Ok(AddTerms(NO_PROPERTIES, terms, how))
  }

  /** Folds the whole region. After a failure the rest is still drained, and the failure is what is returned. */
  method FromAml(parser: Parser, how: Reading) returns (r: Result<Properties>)
    requires parser.Valid() && parser.utf8 == how.utf8 && parser.cursor == 0
    modifies parser
    ensures parser.Valid() && parser.cursor == |parser.bytes|
    ensures r == PropertiesOf(parser.bytes, how)
  {
    hide TermAt, AddTerm;
    r := Ok(NO_PROPERTIES);
    while true
      invariant parser.Valid()
      invariant PropertiesOf(parser.bytes, how) == FoldOn(r, TermsFrom(parser.bytes, parser.cursor, how.utf8), how)
      decreases |parser.bytes| - parser.cursor
    {
      ghost var rs := TermsFrom(parser.bytes, parser.cursor, how.utf8);
      var next := parser.ParseNext();
      if next.Ok? && next.value.None? {
        return;
      }
      assert rs[1..] == TermsFrom(parser.bytes, parser.cursor, how.utf8);
      if r.Ok? {
        r := if next.Err? then Err else Ok(AddTerm(r.value, next.value.value, how));
      }
    }
  }

  /** What the fold makes of the results still to come. */
  function FoldOn(r: Result<Properties>, rs: seq<Result<Term>>, how: Reading): Result<Properties> {
    if r.Err? then Err
    else match Collected(rs) case Err => Err case Ok(terms) => Ok(AddTerms(r.value, terms, how))
  }

  lemma {:induction false} SubTermsFit(p: Properties, terms: seq<Term>, how: Reading)
    ensures Size(AddTerms(p, terms, how).subTerms) <= Size(p.subTerms) + Size(terms)
    decreases |terms|
  {
    if terms != [] {
      SizePush(p.subTerms, terms[0]);
      SubTermsFit(AddTerm(p, terms[0], how), terms[1..], how);
    }
  }

  lemma {:induction false} SizePush(terms: seq<Term>, t: Term)
    ensures Size(terms + [t]) == Size(terms) + |Contents(t)| + 1
  {
    if terms != [] {
      SizePush(terms[1..], t);
      assert (terms + [t])[1..] == terms[1..] + [t];
    }
  }

  /** What a device region leaves to walk is smaller than the region. */
  lemma PropertiesFit(b: seq<Byte>, how: Reading)
    requires PropertiesOf(b, how).Ok?
    ensures Size(PropertiesOf(b, how).value.subTerms) <= |b|
  {
    TermsFit(b, 0, how.utf8);
    SubTermsFit(NO_PROPERTIES, RegionTerms(b, how.utf8).value, how);
  }

  // ---------------------------------------------------------------- the device tree

  datatype Class = Uart | PciHostBridge | Other

  datatype Node = Node(parent: Option<nat>, kind: Class, compatible: seq<string>, resources: seq<seq<Byte>>,
      children: seq<nat>)

  datatype Tree = Tree(nodes: seq<Node>, roots: seq<nat>)

  predicate ParentOk(tree: Tree, parent: Option<nat>) {
    parent.Some? ==> parent.value < |tree.nodes|
  }

  /** Parents are older than their children, links go both ways, and children and roots are kept in order of age. */
  ghost predicate TreeOk(tree: Tree) {
    && Rising(tree.roots) && (forall i :: 0 <= i < |tree.nodes| ==> Rising(tree.nodes[i].children))
    && (forall i :: 0 <= i < |tree.nodes| ==> NodeOk(tree, i))
    && (forall i :: i in tree.roots ==> i < |tree.nodes| && tree.nodes[i].parent.None?)
    && (forall p: nat, i: nat :: IsChild(tree, p, i) ==> i < |tree.nodes| && tree.nodes[i].parent == Some(p))
  }

  predicate Rising(ids: seq<nat>) {
    forall i, j :: 0 <= i < j < |ids| ==> ids[i] < ids[j]
  }

  lemma RisingPush(ids: seq<nat>, id: nat)
    requires Rising(ids) && forall i :: i in ids ==> i < id
    ensures Rising(ids + [id])
  {
    forall i | 0 <= i < |ids| ensures ids[i] < id { assert ids[i] in ids; }
  }

  predicate IsChild(tree: Tree, p: nat, i: nat) {
    p < |tree.nodes| && i in tree.nodes[p].children
  }

  ghost predicate NodeOk(tree: Tree, i: nat)
    requires i < |tree.nodes|
  {
    match tree.nodes[i].parent
    case None => i in tree.roots
    case Some(p) => p < i && IsChild(tree, p, i)
  }

  function AddDevice(tree: Tree, parent: Option<nat>, kind: Class, compatible: seq<string>,
      resources: seq<seq<Byte>>): (t: Tree)
    requires ParentOk(tree, parent)
    ensures |t.nodes| == |tree.nodes| + 1
  {
    var id := |tree.nodes|;
    var nodes := tree.nodes + [Node(parent, kind, compatible, resources, [])];
    match parent
    case None => Tree(nodes, tree.roots + [id])
    case Some(p) => Tree(nodes[p := nodes[p].(children := nodes[p].children + [id])], tree.roots)
  }

  lemma AddDeviceOk(tree: Tree, parent: Option<nat>, kind: Class, compatible: seq<string>, resources: seq<seq<Byte>>)
    requires TreeOk(tree) && ParentOk(tree, parent)
    ensures TreeOk(AddDevice(tree, parent, kind, compatible, resources))
  {
    var t, id := AddDevice(tree, parent, kind, compatible, resources), |tree.nodes|;
    forall p: nat, i: nat ensures IsChild(t, p, i) <==> IsChild(tree, p, i) || (parent == Some(p) && i == id) {
      NewChild(tree, parent, kind, compatible, resources, p, i);
    }
    forall i | 0 <= i < |t.nodes| ensures NodeOk(t, i) {
      if i < id { assert NodeOk(tree, i); }
    }
    if parent.None? {
      RisingPush(tree.roots, id);
    } else {
      forall i | i in tree.nodes[parent.value].children ensures i < id { assert IsChild(tree, parent.value, i); }
      RisingPush(tree.nodes[parent.value].children, id);
    }
  }

  /** The only new child is the new node. */
  lemma NewChild(tree: Tree, parent: Option<nat>, kind: Class, compatible: seq<string>, resources: seq<seq<Byte>>,
      p: nat, i: nat)
    requires ParentOk(tree, parent)
    ensures var t := AddDevice(tree, parent, kind, compatible, resources);
            IsChild(t, p, i) <==> IsChild(tree, p, i) || (parent == Some(p) && i == |tree.nodes|)
  {
  }

  // ---------------------------------------------------------------- the walk

  datatype State = State(tree: Tree, scopes: map<string, nat>)

  ghost predicate StateOk(s: State) {
    && TreeOk(s.tree)
    && forall path :: path in s.scopes ==> s.scopes[path] < |s.tree.nodes|
  }

  function TrimDots(s: string): string {
    if s != [] && s[0] == '.' then TrimDots(s[1..]) else s
  }

  /** Only dots go, and all that lead. */
  lemma {:induction false} TrimmedExactly(s: string)
    ensures var n := |s| - |TrimDots(s)|;
            && 0 <= n <= |s| && s[n..] == TrimDots(s) && (n < |s| ==> s[n] != '.')
            && forall i :: 0 <= i < n ==> s[i] == '.'
  {
    if s != [] && s[0] == '.' {
      TrimmedExactly(s[1..]);
      assert forall i :: 1 <= i < |s| ==> s[i] == s[1..][i - 1];
    }
  }

  function JoinPath(parent: string, child: string): string {
    if child != [] && child[0] == '\\' then child
    else if parent == "" || parent == "\\" then "\\" + TrimDots(child)
    else parent + "." + TrimDots(child)
  }

  predicate IsAbsolute(path: string) {
    path != "" && path[0] == '\\'
  }

  // What a path is, from the names it is made of.

  /** The number of names up to the last absolute one. */
  function LastAbsolute(names: seq<string>): (n: nat)
    ensures n <= |names|
  {
    if names == [] then 0
    else if IsAbsolute(names[|names| - 1]) then |names|
    else LastAbsolute(names[..|names| - 1])
  }

  lemma {:induction false} LastAbsoluteIs(names: seq<string>)
    ensures var n := LastAbsolute(names);
            (n > 0 ==> IsAbsolute(names[n - 1])) && forall i :: n <= i < |names| ==> !IsAbsolute(names[i])
  {
    if names != [] && !IsAbsolute(names[|names| - 1]) { LastAbsoluteIs(names[..|names| - 1]); }
  }

  /** The names with dots between them. */
  function Dotted(names: seq<string>): string {
    if names == [] then ""
    else if |names| == 1 then names[0]
    else Dotted(names[..|names| - 1]) + "." + names[|names| - 1]
  }

  function Trimmed(names: seq<string>): seq<string> {
    if names == [] then [] else Trimmed(names[..|names| - 1]) + [TrimDots(names[|names| - 1])]
  }

  function WithoutEmptyFront(names: seq<string>): seq<string> {
    if names != [] && names[0] == "" then WithoutEmptyFront(names[1..]) else names
  }

  /** Names below a base, in order with dots between them. Below the root, empty names in front leave no trace. */
  function Below(base: string, names: seq<string>): string {
    if names == [] then base
    else if base == "" || base == "\\" then "\\" + Dotted(WithoutEmptyFront(names))
    else base + "." + Dotted(names)
  }

  /**
   * The path that names around each other make, outermost first: it begins at the last
   * absolute one, or at `start` if there is none, and the rest follow without leading dots.
   */
  function FullPath(start: string, names: seq<string>): string {
    var n := LastAbsolute(names);
    Below(if n == 0 then start else names[n - 1], Trimmed(names[n..]))
  }

  /** Joining one name after the other makes the path of all of them. */
  lemma JoinIsFullPath(start: string, names: seq<string>, child: string)
    ensures FullPath(start, names + [child]) == JoinPath(FullPath(start, names), child)
  {
    hide LastAbsolute, IsAbsolute, Below, Trimmed, JoinPath;
    LastAbsolutePush(names, child);
    var all, n := names + [child], LastAbsolute(names);
    if IsAbsolute(child) {
      assert all[|all|..] == [];
      NothingBelow(child);
      AbsoluteJoins(FullPath(start, names), child);
    } else {
      assert all[n..] == names[n..] + [child];
      TrimmedPush(names[n..], child);
      BelowPush(if n == 0 then start else names[n - 1], Trimmed(names[n..]), child);
    }
  }

  lemma NothingBelow(base: string)
    ensures Below(base, Trimmed([])) == base
  {
  }

  lemma AbsoluteJoins(parent: string, child: string)
    requires IsAbsolute(child)
    ensures JoinPath(parent, child) == child
  {
  }

  lemma LastAbsolutePush(names: seq<string>, child: string)
    ensures LastAbsolute(names + [child]) == if IsAbsolute(child) then |names| + 1 else LastAbsolute(names)
  {
    assert (names + [child])[..|names|] == names;
  }

  lemma TrimmedPush(names: seq<string>, child: string)
    ensures Trimmed(names + [child]) == Trimmed(names) + [TrimDots(child)]
  {
    assert (names + [child])[..|names|] == names;
  }

  lemma FullPathOfNone(start: string)
    ensures FullPath(start, []) == start
  {
  }

  lemma BelowPush(base: string, names: seq<string>, child: string)
    requires !IsAbsolute(child)
    ensures Below(base, names + [TrimDots(child)]) == JoinPath(Below(base, names), child)
  {
    hide TrimDots, Dotted, WithoutEmptyFront;
    var name, front := TrimDots(child), WithoutEmptyFront(names);
    DottedPush(names, name);
    DottedPush(front, name);
    FrontPush(names, name);
    DottedFront(names);
    if base == "" || base == "\\" {
      if front == [] && name == "" { DottedPush([], name); }
      if names != [] && front != [] {
        assert ("\\" + Dotted(front)) + "." + name == "\\" + (Dotted(front) + "." + name);
      }
    } else if names != [] {
      assert (base + "." + Dotted(names)) + "." + name == base + "." + (Dotted(names) + "." + name);
    }
  }

  lemma DottedPush(names: seq<string>, name: string)
    ensures Dotted(names + [name]) == if names == [] then name else Dotted(names) + "." + name
  {
    assert (names + [name])[..|names|] == names;
  }

  lemma {:induction false} FrontPush(names: seq<string>, name: string)
    ensures var front := WithoutEmptyFront(names);
      WithoutEmptyFront(names + [name]) == if front == [] && name == "" then [] else front + [name]
  {
    if names == [] {
      assert WithoutEmptyFront([name]) == if name == "" then WithoutEmptyFront([name][1..]) else [name];
    } else if names[0] == "" {
      FrontPush(names[1..], name);
      assert (names + [name])[1..] == names[1..] + [name];
    }
  }

  lemma {:induction false} DottedFront(names: seq<string>)
    ensures var front := WithoutEmptyFront(names); front != [] ==> Dotted(front) != ""
    ensures Dotted([]) == "" && (names == [] ==> WithoutEmptyFront(names) == [])
  {
    if names != [] && names[0] == "" { DottedFront(names[1..]); }
  }

  /** Below an absolute path, or the empty one, every path is absolute. */
  lemma PathsAbsolute(parent: string, child: string)
    requires parent == "" || IsAbsolute(parent)
    ensures IsAbsolute(JoinPath(parent, child))
  {
  }

  /** The device a scope's contents hang below: the one it names, or else the one around it. */
  function TargetParent(s: State, path: string, parent: Option<nat>): Option<nat> {
    if path in s.scopes then Some(s.scopes[path]) else parent
  }

  function Compatible(p: Properties): seq<string> {
    (if p.hid.Some? then [p.hid.value] else []) + p.cids
  }

  function Classify(p: Properties): Class {
    var id := if p.hid.Some? then p.hid.value else if p.cids != [] then p.cids[0] else "";
    if id == "ARMH0011" then Uart
    else if id == "PNP0A08" || id == "PNP0A03" then PciHostBridge
    else Other
  }

  /** A device under `path`, known by that path from then on. */
  function Declare(s: State, path: string, parent: Option<nat>, p: Properties): State
    requires ParentOk(s.tree, parent)
  {
    State(AddDevice(s.tree, parent, Classify(p), Compatible(p), p.resources), s.scopes[path := |s.tree.nodes|])
  }

  lemma DeclareOk(s: State, path: string, parent: Option<nat>, p: Properties)
    requires StateOk(s) && ParentOk(s.tree, parent)
    ensures StateOk(Declare(s, path, parent, p)) && |Declare(s, path, parent, p).tree.nodes| == |s.tree.nodes| + 1
  {
    AddDeviceOk(s.tree, parent, Classify(p), Compatible(p), p.resources);
  }

  /** The walk over terms and everything nested in them, and whether it got to the end. */
  ghost function Walk(s: State, terms: seq<Term>, path: string, parent: Option<nat>, how: Reading): (r: (State, bool))
    requires StateOk(s) && ParentOk(s.tree, parent)
    ensures StateOk(r.0) && |s.tree.nodes| <= |r.0.tree.nodes|
    decreases Size(terms)
  {
    if terms == [] then (s, true)
    else
      var one := WalkOne(s, terms, path, parent, how);
      if one.1 then Walk(one.0, terms[1..], path, parent, how) else one
  }

  /** The walk over the first term. */
  ghost function WalkOne(s: State, terms: seq<Term>, path: string, parent: Option<nat>,
      how: Reading): (r: (State, bool))
    requires StateOk(s) && ParentOk(s.tree, parent) && terms != []
    ensures StateOk(r.0) && |s.tree.nodes| <= |r.0.tree.nodes|
    decreases Size(terms), 0
  {
    match terms[0]
    case Scope(name, contents) =>
      var inner := JoinPath(path, how.show(name));
      (match RegionTerms(contents, how.utf8)
       case Err => (s, false)
       case Ok(sub) =>
         TermsFit(contents, 0, how.utf8);
         Walk(s, sub, inner, TargetParent(s, inner, parent), how))
    case Device(name, contents) =>
      var inner := JoinPath(path, how.show(name));
      (match PropertiesOf(contents, how)
       case Err => (s, false)
       case Ok(p) =>
         PropertiesFit(contents, how);
         DeclareOk(s, inner, parent, p);
         Walk(Declare(s, inner, parent, p), p.subTerms, inner, Some(|s.tree.nodes|), how))
    case _ => (s, true)
  }

  class TreeBuilder {
    var state: State
    const how: Reading

    constructor (how: Reading)
      ensures StateOk(state) && state == State(Tree([], []), map[]) && this.how == how
    {
      state, this.how := State(Tree([], []), map[]), how;
    }

    /** Adds a node and links it to its parent, or to the roots. */
    method AddNode(parent: Option<nat>, kind: Class, compatible: seq<string>,
        resources: seq<seq<Byte>>) returns (id: nat)
      requires ParentOk(state.tree, parent)
      modifies this
      ensures id == |old(state).tree.nodes|
      ensures state == old(state).(tree := AddDevice(old(state).tree, parent, kind, compatible, resources))
    {
      id := |state.tree.nodes|;
      var nodes := state.tree.nodes + [Node(parent, kind, compatible, resources, [])];
      var roots := state.tree.roots;
      if parent.Some? {
        nodes := nodes[parent.value := nodes[parent.value].(children := nodes[parent.value].children + [id])];
      } else {
        roots := roots + [id];
      }
      state := state.(tree := Tree(nodes, roots));
    }

    /** Walks the terms, and recursively whatever regions they hold. */
    method ProcessTerms(terms: seq<Term>, path: string, parent: Option<nat>) returns (ok: bool)
      requires StateOk(state) && ParentOk(state.tree, parent)
      modifies this
      ensures (state, ok) == Walk(old(state), terms, path, parent, how)
      decreases Size(terms)
    {
      hide TreeOk, StateOk;
      for n := 0 to |terms|
        invariant StateOk(state) && ParentOk(state.tree, parent)
        invariant Walk(old(state), terms, path, parent, how) == Walk(state, terms[n..], path, parent, how)
      {
        SizeOfRest(terms, n);
        ghost var before := state;
        assert terms[n..][1..] == terms[n + 1..] && terms[n..][0] == terms[n];
        var done := ProcessTerm(terms[n], path, parent, terms[n..]);
        if !done { return false; }
      }
      ok := true;
    }

    method ProcessTerm(term: Term, path: string, parent: Option<nat>, ghost terms: seq<Term>) returns (ok: bool)
      requires StateOk(state) && ParentOk(state.tree, parent) && terms != [] && terms[0] == term
      modifies this
      ensures (state, ok) == WalkOne(old(state), terms, path, parent, how)
      decreases Size(terms), 0
    {
      match term
      case Scope(name, contents) =>
        var inner := JoinPath(path, how.show(name));
        var target := TargetParent(state, inner, parent);
        var sub := Collect(contents, how.utf8);
        if sub.Err? { return false; }
        TermsFit(contents, 0, how.utf8);
        ok := ProcessTerms(sub.value, inner, target);
      case Device(name, contents) =>
        var inner := JoinPath(path, how.show(name));
        var parser := new Parser(contents, how.utf8);
        var props := FromAml(parser, how);
        if props.Err? { return false; }
        PropertiesFit(contents, how);
        DeclareOk(state, inner, parent, props.value);
        var id := AddNode(parent, Classify(props.value), Compatible(props.value), props.value.resources);
        state := state.(scopes := state.scopes[inner := id]);
        ok := ProcessTerms(props.value.subTerms, inner, Some(id));
      case _ =>
        ok := true;
    }
  }

  lemma {:induction false} SizeOfRest(terms: seq<Term>, n: nat)
    requires n < |terms|
    ensures Size(terms[n..]) <= Size(terms)
  {
    if n > 0 {
      SizeOfRest(terms[1..], n - 1);
      assert terms[1..][n - 1..] == terms[n..];
    }
  }

  // ---------------------------------------------------------------- what the walk adds

  /** Every region nested in the terms parses. */
  ghost predicate Parses(terms: seq<Term>, how: Reading)
    decreases Size(terms)
  {
    terms == [] || (ParsesOne(terms, how) && Parses(terms[1..], how))
  }

  ghost predicate ParsesOne(terms: seq<Term>, how: Reading)
    requires terms != []
    decreases Size(terms), 0
  {
    match terms[0]
    case Scope(_, contents) =>
      && RegionTerms(contents, how.utf8).Ok?
      && (RegionFits(contents, how); Parses(RegionTerms(contents, how.utf8).value, how))
    case Device(_, contents) =>
      && RegionTerms(contents, how.utf8).Ok?
      && (OthersFit(contents, how); Parses(Others(RegionTerms(contents, how.utf8).value, how), how))
    case _ => true
  }

  /** What a device stands in: the k-th device of the walk, or a scope entered after `at` devices. */
  datatype Context = InDevice(k: nat) | InScope(path: string, at: nat)

  /** A device as it is written: its path, what it stands in, and the terms of its region. */
  datatype Declared = Declared(path: string, around: seq<Context>, terms: seq<Term>)

  /**
   * The devices in the terms and in every region nested in them, as they are written. The terms
   * stand in regions with these names, outermost first, and `k` devices come before.
   */
  ghost function Listing(terms: seq<Term>, start: string, names: seq<string>, around: seq<Context>, k: nat,
      how: Reading): seq<Declared>
    requires Parses(terms, how)
    decreases Size(terms)
  {
    if terms == [] then []
    else
      var first := ListingOne(terms, start, names, around, k, how);
      first + Listing(terms[1..], start, names, around, k + |first|, how)
  }

  ghost function ListingOne(terms: seq<Term>, start: string, names: seq<string>, around: seq<Context>, k: nat,
      how: Reading): seq<Declared>
    requires terms != [] && ParsesOne(terms, how)
    decreases Size(terms), 0
  {
    match terms[0]
    case Scope(name, contents) =>
      var inner := names + [how.show(name)];
      RegionFits(contents, how);
      Listing(RegionTerms(contents, how.utf8).value, start, inner, around + [InScope(FullPath(start, inner), k)], k,
          how)
    case Device(name, contents) =>
      var inner := names + [how.show(name)];
      OthersFit(contents, how);
      var sub := RegionTerms(contents, how.utf8).value;
      [Declared(FullPath(start, inner), around, sub)]
      + Listing(Others(sub, how), start, inner, around + [InDevice(k)], k + 1, how)
    case _ => []
  }

  ghost predicate AllAbsolute(decls: seq<Declared>) {
    forall j :: 0 <= j < |decls| ==> IsAbsolute(decls[j].path)
  }

  /** Every device is listed under an absolute path. */
  lemma {:induction false} ListingAbsolute(terms: seq<Term>, start: string, names: seq<string>, around: seq<Context>,
      k: nat, how: Reading)
    requires Parses(terms, how) && (FullPath(start, names) == "" || IsAbsolute(FullPath(start, names)))
    ensures AllAbsolute(Listing(terms, start, names, around, k, how))
    decreases Size(terms)
  {
    hide IsAbsolute, AllAbsolute, ListingOne, ParsesOne, FullPath;
    if terms == [] {
      BothAbsolute([], []);
    } else {
      ListingOneAbsolute(terms, start, names, around, k, how);
      var first := ListingOne(terms, start, names, around, k, how);
      ListingAbsolute(terms[1..], start, names, around, k + |first|, how);
      BothAbsolute(first, Listing(terms[1..], start, names, around, k + |first|, how));
    }
  }

  lemma BothAbsolute(first: seq<Declared>, rest: seq<Declared>)
    ensures AllAbsolute([])
    ensures AllAbsolute(first) && AllAbsolute(rest) ==> AllAbsolute(first + rest)
  {
  }

  lemma {:induction false} ListingOneAbsolute(terms: seq<Term>, start: string, names: seq<string>,
      around: seq<Context>, k: nat, how: Reading)
    requires terms != [] && ParsesOne(terms, how)
    requires FullPath(start, names) == "" || IsAbsolute(FullPath(start, names))
    ensures AllAbsolute(ListingOne(terms, start, names, around, k, how))
    decreases Size(terms), 0
  {
    hide JoinPath, RegionTerms, Others, IsAbsolute, FullPath;
    match terms[0]
    case Scope(name, contents) =>
      var inner := names + [how.show(name)];
      JoinIsFullPath(start, names, how.show(name));
      PathsAbsolute(FullPath(start, names), how.show(name));
      RegionFits(contents, how);
      ListingAbsolute(RegionTerms(contents, how.utf8).value, start, inner,
                      around + [InScope(FullPath(start, inner), k)], k, how);
    case Device(name, contents) =>
      JoinIsFullPath(start, names, how.show(name));
      PathsAbsolute(FullPath(start, names), how.show(name));
      OthersFit(contents, how);
      ListingAbsolute(Others(RegionTerms(contents, how.utf8).value, how), start, names + [how.show(name)],
                      around + [InDevice(k)], k + 1, how);
    case _ =>
  }

  /** The scope map once the devices of a list are declared from node n on. */
  ghost function Known(scopes: map<string, nat>, n: nat, decls: seq<Declared>): map<string, nat> {
    if decls == [] then scopes
    else
      var last := |decls| - 1;
      Known(scopes, n, decls[..last])[decls[last].path := n + last]
  }

  /**
   * The parent a device gets: the device around it, unless a scope in between names one known
   * when the scope is entered.
   */
  ghost function Owner(around: seq<Context>, decls: seq<Declared>, scopes: map<string, nat>, n: nat,
      parent: Option<nat>): Option<nat> {
    if around == [] then parent
    else
      var last := |around| - 1;
      match around[last]
      case InDevice(k) => Some(n + k)
      case InScope(path, at) =>
        if at <= |decls| && path in Known(scopes, n, decls[..at]) then Some(Known(scopes, n, decls[..at])[path])
        else Owner(around[..last], decls, scopes, n, parent)
  }

  /** The scopes were all entered by the time k devices were declared. */
  ghost predicate EnteredBy(around: seq<Context>, k: nat) {
    forall i :: 0 <= i < |around| && around[i].InScope? ==> around[i].at <= k
  }

  lemma {:induction false} OwnerStays(around: seq<Context>, decls: seq<Declared>, more: seq<Declared>,
      scopes: map<string, nat>, n: nat, parent: Option<nat>)
    requires EnteredBy(around, |decls|)
    ensures EnteredBy(around, |decls + more|)
    ensures Owner(around, decls + more, scopes, n, parent) == Owner(around, decls, scopes, n, parent)
  {
    if around != [] {
      var last := |around| - 1;
      OwnerStays(around[..last], decls, more, scopes, n, parent);
      if around[last].InScope? { assert (decls + more)[..around[last].at] == decls[..around[last].at]; }
    }
  }

  /** The identifiers a device's terms give it: the text of its last _HID, if any, then those of its _CIDs in order. */
  function Identifiers(terms: seq<Term>, how: Reading): seq<string> {
    match LastNamed(terms, "_HID", how)
    case None => Ids(terms, how)
    case Some(v) => (if how.text(v).Some? then [how.text(v).value] else []) + Ids(terms, how)
  }

  /**
   * Node n + j is the j-th device of the list, below its owner, as its terms describe it; its
   * class is that of its first identifier.
   */
  ghost predicate IsDeclared(tree: Tree, n: nat, decls: seq<Declared>, j: nat, scopes: map<string, nat>,
      parent: Option<nat>, how: Reading)
    requires j < |decls| && n + j < |tree.nodes|
  {
    var node, terms := tree.nodes[n + j], decls[j].terms;
    && node.parent == Owner(decls[j].around, decls, scopes, n, parent)
    && node.compatible == Identifiers(terms, how) && node.resources == Templates(terms, how)
    && (node.kind.Uart? <==> ["ARMH0011"] <= node.compatible)
    && (node.kind.PciHostBridge? <==> ["PNP0A08"] <= node.compatible || ["PNP0A03"] <= node.compatible)
  }

  lemma DescribedByTerms(terms: seq<Term>, how: Reading)
    ensures var p := AddTerms(NO_PROPERTIES, terms, how);
            && Compatible(p) == Identifiers(terms, how) && p.resources == Templates(terms, how)
            && (Classify(p).Uart? <==> ["ARMH0011"] <= Compatible(p))
            && (Classify(p).PciHostBridge? <==> ["PNP0A08"] <= Compatible(p) || ["PNP0A03"] <= Compatible(p))
  {
    FoldMeaning(terms, how);
    var p := AddTerms(NO_PROPERTIES, terms, how);
    hide AddTerms, Templates, Others, LastNamed, Ids, Classify;
    ClassOfFirst(p);
    assert [] + p.cids == p.cids;
  }

  lemma ClassOfFirst(p: Properties)
    ensures Classify(p).Uart? <==> ["ARMH0011"] <= Compatible(p)
    ensures Classify(p).PciHostBridge? <==> ["PNP0A08"] <= Compatible(p) || ["PNP0A03"] <= Compatible(p)
  {
    var ids := Compatible(p);
    if ids != [] {
      FirstIs(ids, "ARMH0011");
      FirstIs(ids, "PNP0A08");
      FirstIs(ids, "PNP0A03");
    }
  }

  lemma FirstIs(ids: seq<string>, id: string)
    requires ids != []
    ensures [id] <= ids <==> ids[0] == id
  {
  }

  /**
   * From s on exactly the devices of the list have been declared, in order, and nothing else
   * about older nodes has changed.
   */
  ghost predicate Builds(s: State, parent: Option<nat>, decls: seq<Declared>, now: State, how: Reading) {
    var n := |s.tree.nodes|;
    && |now.tree.nodes| == n + |decls| && now.scopes == Known(s.scopes, n, decls)
    && (forall j :: 0 <= j < |decls| ==>
        EnteredBy(decls[j].around, j) && IsDeclared(now.tree, n, decls, j, s.scopes, parent, how))
    && (forall i :: 0 <= i < n ==> SameNode(s.tree, now.tree, i))
  }

  ghost predicate SameNode(tree: Tree, now: Tree, i: nat)
    requires i < |tree.nodes| && i < |now.nodes|
  {
    var a, b := tree.nodes[i], now.nodes[i];
    b.parent == a.parent && b.kind == a.kind && b.compatible == a.compatible && b.resources == a.resources
  }

  lemma BuildsDeclare(s0: State, parent0: Option<nat>, decls: seq<Declared>, s: State, path: string,
      around: seq<Context>, parent: Option<nat>, terms: seq<Term>, how: Reading)
    requires Builds(s0, parent0, decls, s, how) && ParentOk(s.tree, parent) && EnteredBy(around, |decls|)
    requires parent == Owner(around, decls, s0.scopes, |s0.tree.nodes|, parent0)
    ensures Builds(s0, parent0, decls + [Declared(path, around, terms)],
              Declare(s, path, parent, AddTerms(NO_PROPERTIES, terms, how)), how)
  {
    hide IsDeclared, SameNode, Owner, Compatible, Classify, AddTerms, EnteredBy;
    var n, d := |s0.tree.nodes|, Declared(path, around, terms);
    var now, all := Declare(s, path, parent, AddTerms(NO_PROPERTIES, terms, how)), decls + [d];
    assert all[..|decls|] == decls;
    forall j | 0 <= j < |all|
        ensures EnteredBy(all[j].around, j) && IsDeclared(now.tree, n, all, j, s0.scopes, parent0, how) {
      if j < |decls| {
        assert all[j] == decls[j];
        SameAsBefore(s, path, parent, AddTerms(NO_PROPERTIES, terms, how), n + j);
        StillDeclared(s.tree, now.tree, n, decls, d, j, s0.scopes, parent0, how);
      } else {
        NewlyDeclared(s, parent, n, decls, d, s0.scopes, parent0, how);
      }
    }
    forall i | 0 <= i < n ensures SameNode(s0.tree, now.tree, i) {
      SameAsBefore(s, path, parent, AddTerms(NO_PROPERTIES, terms, how), i);
      SameTrans(s0.tree, s.tree, now.tree, i);
    }
  }

  /** A declaration leaves older nodes as they are, but for their children. */
  lemma SameAsBefore(s: State, path: string, parent: Option<nat>, p: Properties, i: nat)
    requires ParentOk(s.tree, parent) && i < |s.tree.nodes|
    ensures SameNode(s.tree, Declare(s, path, parent, p).tree, i)
  {
  }

  lemma SameTrans(a: Tree, b: Tree, c: Tree, i: nat)
    requires i < |a.nodes| && i < |b.nodes| && i < |c.nodes| && SameNode(a, b, i) && SameNode(b, c, i)
    ensures SameNode(a, c, i)
  {
  }

  lemma StillDeclared(tree: Tree, now: Tree, n: nat, decls: seq<Declared>, d: Declared, j: nat,
      scopes: map<string, nat>, parent: Option<nat>, how: Reading)
    requires j < |decls| && n + j < |tree.nodes| && n + j < |now.nodes| && SameNode(tree, now, n + j)
    requires IsDeclared(tree, n, decls, j, scopes, parent, how) && EnteredBy(decls[j].around, j)
    ensures IsDeclared(now, n, decls + [d], j, scopes, parent, how)
  {
    hide Owner, Identifiers, Templates;
    OwnerStays(decls[j].around, decls, [d], scopes, n, parent);
  }

  lemma NewlyDeclared(s: State, parent: Option<nat>, n: nat, decls: seq<Declared>, d: Declared,
      scopes: map<string, nat>, parent0: Option<nat>, how: Reading)
    requires ParentOk(s.tree, parent) && |s.tree.nodes| == n + |decls| && EnteredBy(d.around, |decls|)
    requires parent == Owner(d.around, decls, scopes, n, parent0)
    ensures IsDeclared(Declare(s, d.path, parent, AddTerms(NO_PROPERTIES, d.terms, how)).tree, n, decls + [d],
              |decls|, scopes, parent0, how)
  {
    hide Owner, Identifiers, Templates, Compatible, Classify, AddTerms;
    DescribedByTerms(d.terms, how);
    OwnerStays(d.around, decls, [d], scopes, n, parent0);
  }

  lemma BuildsNothing(s: State, parent: Option<nat>, how: Reading)
    ensures Builds(s, parent, [], s, how)
  {
  }

  /** The walk succeeds just when everything nested parses. */
  lemma {:induction false} WalkSucceedsIff(s: State, terms: seq<Term>, path: string, parent: Option<nat>, how: Reading)
    requires StateOk(s) && ParentOk(s.tree, parent)
    ensures Walk(s, terms, path, parent, how).1 <==> Parses(terms, how)
    decreases Size(terms)
  {
    hide StateOk, TreeOk;
    if terms != [] {
      WalkOneSucceedsIff(s, terms, path, parent, how);
      var one := WalkOne(s, terms, path, parent, how);
      if one.1 { WalkSucceedsIff(one.0, terms[1..], path, parent, how); }
    }
  }

  lemma {:induction false} WalkOneSucceedsIff(s: State, terms: seq<Term>, path: string, parent: Option<nat>,
      how: Reading)
    requires StateOk(s) && ParentOk(s.tree, parent) && terms != []
    ensures WalkOne(s, terms, path, parent, how).1 <==> ParsesOne(terms, how)
    decreases Size(terms), 0
  {
    hide TreeOk, RegionTerms, PropertiesOf, JoinPath, Others;
    match terms[0]
    case Scope(name, contents) =>
      if RegionTerms(contents, how.utf8).Ok? {
        var inner := JoinPath(path, how.show(name));
        RegionFits(contents, how);
        WalkSucceedsIff(s, RegionTerms(contents, how.utf8).value, inner, TargetParent(s, inner, parent), how);
      }
    case Device(name, contents) =>
      PropertiesFrom(contents, how);
      if PropertiesOf(contents, how).Ok? {
        var inner := JoinPath(path, how.show(name));
        var p := PropertiesOf(contents, how).value;
        OthersFit(contents, how);
        DeclareOk(s, inner, parent, p);
        WalkSucceedsIff(Declare(s, inner, parent, p), p.subTerms, inner, Some(|s.tree.nodes|), how);
      }
    case _ =>
  }

  /** A walk in the middle of another: it declares the devices listed in its terms, each below its owner. */
  lemma {:induction false} WalkBuilds(s0: State, parent0: Option<nat>, decls: seq<Declared>, s: State,
      terms: seq<Term>, start: string, names: seq<string>, around: seq<Context>, parent: Option<nat>, how: Reading)
    requires StateOk(s) && ParentOk(s.tree, parent) && Parses(terms, how) && EnteredBy(around, |decls|)
    requires Builds(s0, parent0, decls, s, how) && parent == Owner(around, decls, s0.scopes, |s0.tree.nodes|, parent0)
    ensures Builds(s0, parent0, decls + Listing(terms, start, names, around, |decls|, how),
              Walk(s, terms, FullPath(start, names), parent, how).0, how)
    decreases Size(terms)
  {
    hide StateOk, TreeOk, Builds, Owner, EnteredBy, WalkOne, ListingOne, ParsesOne, FullPath;
    var path := FullPath(start, names);
    if terms == [] {
      assert decls + [] == decls;
    } else {
      WalkOneBuilds(s0, parent0, decls, s, terms, start, names, around, parent, how);
      WalkOneSucceedsIff(s, terms, path, parent, how);
      var first := ListingOne(terms, start, names, around, |decls|, how);
      var one := WalkOne(s, terms, path, parent, how);
      OwnerStays(around, decls, first, s0.scopes, |s0.tree.nodes|, parent0);
      var rest := Listing(terms[1..], start, names, around, |decls| + |first|, how);
      assert Listing(terms, start, names, around, |decls|, how) == first + rest;
      assert Walk(s, terms, path, parent, how) == Walk(one.0, terms[1..], path, parent, how);
      hide Walk, Listing;
      WalkBuilds(s0, parent0, decls + first, one.0, terms[1..], start, names, around, parent, how);
      assert decls + first + rest == decls + (first + rest);
    }
  }

  lemma {:induction false} WalkOneBuilds(s0: State, parent0: Option<nat>, decls: seq<Declared>, s: State,
      terms: seq<Term>, start: string, names: seq<string>, around: seq<Context>, parent: Option<nat>, how: Reading)
    requires StateOk(s) && ParentOk(s.tree, parent) && terms != [] && ParsesOne(terms, how)
               && EnteredBy(around, |decls|)
    requires Builds(s0, parent0, decls, s, how) && parent == Owner(around, decls, s0.scopes, |s0.tree.nodes|, parent0)
    ensures Builds(s0, parent0, decls + ListingOne(terms, start, names, around, |decls|, how),
              WalkOne(s, terms, FullPath(start, names), parent, how).0, how)
    decreases Size(terms), 0
  {
    hide TreeOk, RegionTerms, PropertiesOf, JoinPath, Builds, Owner, EnteredBy, Declare, TargetParent, Others, FullPath;
    var k := |decls|;
    match terms[0]
    case Scope(name, contents) =>
      var inner := names + [how.show(name)];
      JoinIsFullPath(start, names, how.show(name));
      RegionFits(contents, how);
      ScopeOwner(s0, parent0, decls, s, around, parent, FullPath(start, inner), how);
      WalkBuilds(s0, parent0, decls, s, RegionTerms(contents, how.utf8).value, start, inner,
                 around + [InScope(FullPath(start, inner), k)], TargetParent(s, FullPath(start, inner), parent), how);
    case Device(name, contents) =>
      WalkDeviceBuilds(s0, parent0, decls, s, terms, start, names, around, parent, how);
    case _ =>
      assert decls + [] == decls;
  }

  lemma {:induction false} WalkDeviceBuilds(s0: State, parent0: Option<nat>, decls: seq<Declared>, s: State,
      terms: seq<Term>, start: string, names: seq<string>, around: seq<Context>, parent: Option<nat>, how: Reading)
    requires StateOk(s) && ParentOk(s.tree, parent) && terms != [] && ParsesOne(terms, how)
               && EnteredBy(around, |decls|) && terms[0].Device?
    requires Builds(s0, parent0, decls, s, how) && parent == Owner(around, decls, s0.scopes, |s0.tree.nodes|, parent0)
    ensures Builds(s0, parent0, decls + ListingOne(terms, start, names, around, |decls|, how),
              WalkOne(s, terms, FullPath(start, names), parent, how).0, how)
    decreases Size(terms), 0, 0
  {
    hide TreeOk, RegionTerms, PropertiesOf, JoinPath, Builds, Owner, EnteredBy, Declare, Others, FullPath, AddTerms;
    var k, contents, name := |decls|, terms[0].contents, how.show(terms[0].name);
    var inner := names + [name];
    var path := FullPath(start, inner);
    JoinIsFullPath(start, names, name);
    PropertiesFrom(contents, how);
    OthersFit(contents, how);
    var sub := RegionTerms(contents, how.utf8).value;
    var p := PropertiesOf(contents, how).value;
    DeclareOk(s, path, parent, p);
    BuildsDeclare(s0, parent0, decls, s, path, around, parent, sub, how);
    var d := Declared(path, around, sub);
    DeviceOwner(s0, parent0, decls, s, around, d, how);
    WalkBuilds(s0, parent0, decls + [d], Declare(s, path, parent, p), Others(sub, how), start, inner,
               around + [InDevice(k)], Some(|s.tree.nodes|), how);
    var rest := Listing(Others(sub, how), start, inner, around + [InDevice(k)], k + 1, how);
    assert decls + [d] + rest == decls + ([d] + rest);
  }

  /** Inside a scope the owner is the one the scope map names, or else the one around. */
  lemma ScopeOwner(s0: State, parent0: Option<nat>, decls: seq<Declared>, s: State, around: seq<Context>,
      parent: Option<nat>, path: string, how: Reading)
    requires Builds(s0, parent0, decls, s, how) && EnteredBy(around, |decls|) && StateOk(s) && ParentOk(s.tree, parent)
    requires parent == Owner(around, decls, s0.scopes, |s0.tree.nodes|, parent0)
    ensures ParentOk(s.tree, TargetParent(s, path, parent))
    ensures var inside := around + [InScope(path, |decls|)];
            EnteredBy(inside, |decls|) && TargetParent(s, path, parent) ==
                Owner(inside, decls, s0.scopes, |s0.tree.nodes|, parent0)
  {
    assert decls[..|decls|] == decls;
    assert (around + [InScope(path, |decls|)])[..|around|] == around;
  }

  lemma DeviceOwner(s0: State, parent0: Option<nat>, decls: seq<Declared>, s: State, around: seq<Context>,
      d: Declared, how: Reading)
    requires Builds(s0, parent0, decls, s, how) && EnteredBy(around, |decls|)
    ensures var inside := around + [InDevice(|decls|)];
            EnteredBy(inside, |decls| + 1) && Owner(inside, decls + [d], s0.scopes, |s0.tree.nodes|, parent0) ==
                Some(|s.tree.nodes|)
  {
    hide IsDeclared, SameNode, Known;
  }

  /**
   * The walk declares the devices listed in its terms, in order, each below the device around
   * it or the one its scope names.
   */
  lemma WalkDeclares(s: State, terms: seq<Term>, path: string, parent: Option<nat>, how: Reading)
    requires StateOk(s) && ParentOk(s.tree, parent)
    ensures Walk(s, terms, path, parent, how).1 <==> Parses(terms, how)
    ensures Parses(terms, how) ==>
              Builds(s, parent, Listing(terms, path, [], [], 0, how), Walk(s, terms, path, parent, how).0, how)
  {
    hide StateOk, TreeOk, Builds, FullPath;
    WalkSucceedsIff(s, terms, path, parent, how);
    if Parses(terms, how) {
      BuildsNothing(s, parent, how);
      FullPathOfNone(path);
      WalkBuilds(s, parent, [], s, terms, path, [], [], parent, how);
      assert [] + Listing(terms, path, [], [], 0, how) == Listing(terms, path, [], [], 0, how);
    }
  }

  lemma RegionFits(b: seq<Byte>, how: Reading)
    requires RegionTerms(b, how.utf8).Ok?
    ensures Size(RegionTerms(b, how.utf8).value) <= |b|
  {
    TermsFit(b, 0, how.utf8);
  }

  /** The properties of a region are the fold of its terms, and what they leave to walk are the other terms. */
  lemma PropertiesFrom(b: seq<Byte>, how: Reading)
    ensures PropertiesOf(b, how).Ok? <==> RegionTerms(b, how.utf8).Ok?
    ensures RegionTerms(b, how.utf8).Ok? ==>
      && PropertiesOf(b, how).value == AddTerms(NO_PROPERTIES, RegionTerms(b, how.utf8).value, how)
      && PropertiesOf(b, how).value.subTerms == Others(RegionTerms(b, how.utf8).value, how)
  {
    if RegionTerms(b, how.utf8).Ok? { FoldMeaning(RegionTerms(b, how.utf8).value, how); }
  }

  lemma OthersFit(b: seq<Byte>, how: Reading)
    requires RegionTerms(b, how.utf8).Ok?
    ensures Size(Others(RegionTerms(b, how.utf8).value, how)) <= |b|
  {
    PropertiesFrom(b, how);
    PropertiesFit(b, how);
  }
}
