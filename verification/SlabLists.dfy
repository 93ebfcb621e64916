/** Slab page headers and the doubly linked lists of partly used pages that run through them. */
module SlabLists {
  import opened BuddyCore
  import BuddyLinks

  datatype Header = Header(next: nat, prev: nat, freeList: nat, freeCount: nat, sizeClass: nat)
  type Headers = map<nat, Header>

  function At(l: seq<nat>, i: int): nat {
    if 0 <= i < |l| then l[i] else 0
  }

  ghost predicate NodeOk(headers: Headers, l: seq<nat>, i: int)
    requires 0 <= i < |l|
  {
    l[i] != 0 && l[i] in headers && headers[l[i]].next == At(l, i + 1) && headers[l[i]].prev == At(l, i - 1)
  }

  ghost predicate ListOk(headers: Headers, head: nat, l: seq<nat>) {
    && NoDup(l) && head == At(l, 0)
    && forall i :: 0 <= i < |l| ==> NodeOk(headers, l, i)
  }

  /** A list only depends on the links of its own pages. */
  lemma ListFrame(headers: Headers, headers': Headers, head: nat, l: seq<nat>)
    requires ListOk(headers, head, l)
    requires forall p :: p in l && p in headers ==>
               p in headers' && headers'[p].next == headers[p].next && headers'[p].prev == headers[p].prev
    ensures ListOk(headers', head, l)
  {
    forall i | 0 <= i < |l| ensures NodeOk(headers', l, i) {
      assert NodeOk(headers, l, i);
      assert l[i] in l;
    }
  }

  function PushHeader(headers: Headers, head: nat, p: nat): Headers
    requires p in headers && (head == 0 || head in headers) && head != p
  {
    var linked := headers[p := headers[p].(next := head, prev := 0)];
    if head == 0 then linked else linked[head := linked[head].(prev := p)]
  }

  lemma PushList(headers: Headers, head: nat, l: seq<nat>, p: nat)
    requires ListOk(headers, head, l) && p in headers && p != 0 && p !in l
    ensures (head == 0 || head in headers) && head != p
    ensures ListOk(PushHeader(headers, head, p), p, [p] + l)
  {
    if l != [] { assert NodeOk(headers, l, 0) && l[0] in l; }
    var headers', l' := PushHeader(headers, head, p), [p] + l;
    NoDupPush(l, p);
    forall i | 0 <= i < |l'| ensures NodeOk(headers', l', i) {
      if i > 0 {
        assert NodeOk(headers, l, i - 1) && l[i - 1] in l;
        if i > 1 { assert l'[i - 1] == l[i - 2]; }
        if i < |l| { assert l'[i + 1] == l[i]; }
      }
    }
  }

  /** The headers after page `p` has been taken out of its list; its own links are not touched. */
  function UnlinkHeader(headers: Headers, p: nat): Headers
    requires p in headers && (headers[p].prev == 0 || headers[p].prev in headers)
               && (headers[p].next == 0 || headers[p].next in headers)
  {
    var next, prev := headers[p].next, headers[p].prev;
    var h1 := if prev == 0 then headers else headers[prev := headers[prev].(next := next)];
    if next == 0 then h1 else h1[next := h1[next].(prev := prev)]
  }

  function UnlinkHead(headers: Headers, p: nat, head: nat): nat
    requires p in headers
  {
    if headers[p].prev == 0 then headers[p].next else head
  }

  lemma Around(headers: Headers, head: nat, l: seq<nat>, i: nat)
    requires ListOk(headers, head, l) && i < |l|
    ensures var p := l[i];
            && p in headers && p != 0
            && headers[p].prev == At(l, i - 1) && headers[p].next == At(l, i + 1)
            && (headers[p].prev == 0 <==> i == 0) && (headers[p].prev == 0 || headers[p].prev in headers)
            && (headers[p].next == 0 <==> i == |l| - 1) && (headers[p].next == 0 || headers[p].next in headers)
            && headers[p].prev != p && headers[p].next != p
  {
    assert NodeOk(headers, l, i);
    if i > 0 { assert NodeOk(headers, l, i - 1); }
    if i + 1 < |l| { assert NodeOk(headers, l, i + 1); }
  }

  lemma UnlinkNode(headers: Headers, head: nat, l: seq<nat>, i: nat, j: nat)
    requires ListOk(headers, head, l) && i < |l| && j < |l| - 1
    ensures l[i] in headers && (headers[l[i]].prev == 0 || headers[l[i]].prev in headers)
              && (headers[l[i]].next == 0 || headers[l[i]].next in headers)
    ensures NodeOk(UnlinkHeader(headers, l[i]), BuddyLinks.RemoveAt(l, i), j)
  {
    hide BuddyLinks.RemoveAt;
    Around(headers, head, l, i);
    var m := if j < i then j else j + 1;
    assert NodeOk(headers, l, m) && l[m] != l[i];
    if m > 0 { assert NodeOk(headers, l, m - 1); }
    if m + 1 < |l| { assert NodeOk(headers, l, m + 1); }
    if i > 0 { assert NodeOk(headers, l, i - 1) && (m != i - 1 ==> l[m] != l[i - 1]); }
    if i + 1 < |l| { assert NodeOk(headers, l, i + 1) && (m != i + 1 ==> l[m] != l[i + 1]); }
  }

  lemma RemoveList(headers: Headers, head: nat, l: seq<nat>, i: nat)
    requires ListOk(headers, head, l) && i < |l|
    ensures l[i] in headers && (headers[l[i]].prev == 0 || headers[l[i]].prev in headers)
              && (headers[l[i]].next == 0 || headers[l[i]].next in headers)
    ensures ListOk(UnlinkHeader(headers, l[i]), UnlinkHead(headers, l[i], head), BuddyLinks.RemoveAt(l, i))
    ensures l[i] !in BuddyLinks.RemoveAt(l, i) && forall p :: p in BuddyLinks.RemoveAt(l, i) <==> p in l && p != l[i]
  {
    Around(headers, head, l, i);
    forall j | 0 <= j < |l| - 1 ensures NodeOk(UnlinkHeader(headers, l[i]), BuddyLinks.RemoveAt(l, i), j) {
      UnlinkNode(headers, head, l, i, j);
    }
    forall p | p in l && p != l[i] ensures p in BuddyLinks.RemoveAt(l, i) {
      var k :| 0 <= k < |l| && l[k] == p;
      assert BuddyLinks.RemoveAt(l, i)[if k < i then k else k - 1] == p;
    }
  }

  /** Pages that are not neighbours of `p` keep their headers, and no header changes but in its links. */
  lemma UnlinkTouches(headers: Headers, head: nat, l: seq<nat>, i: nat, q: nat)
    requires ListOk(headers, head, l) && i < |l| && q in headers
    ensures l[i] in headers && (headers[l[i]].prev == 0 || headers[l[i]].prev in headers)
              && (headers[l[i]].next == 0 || headers[l[i]].next in headers)
    ensures var h' := UnlinkHeader(headers, l[i]);
            && h'.Keys == headers.Keys
            && h'[q].freeList == headers[q].freeList && h'[q].freeCount == headers[q].freeCount
            && h'[q].sizeClass == headers[q].sizeClass
            && (q !in l ==> h'[q] == headers[q])
            && h'[l[i]] == headers[l[i]]
  {
    Around(headers, head, l, i);
    if i > 0 { assert l[i - 1] in l; }
    if i + 1 < |l| { assert l[i + 1] in l; }
  }
}
