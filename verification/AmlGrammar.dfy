/**
 * AML as it lies in a byte string: what each construct at a cursor is, and
 * where the cursor is afterwards, also when the construct is malformed.
 */
module AmlGrammar {

  type Byte = b: nat | b < 256

  datatype Value = Zero | One | Ones | Integer(n: nat) | String(text: seq<Byte>) | Buffer(data: seq<Byte>)
      | NamePath(raw: seq<Byte>)

  datatype Term =
    | Scope(name: seq<Byte>, contents: seq<Byte>)
    | Device(name: seq<Byte>, contents: seq<Byte>)
    | Name(name: seq<Byte>, value: Value)
    | Method(name: seq<Byte>, flags: Byte, code: seq<Byte>)
    | OpRegion(name: seq<Byte>)
    | Field
    | Unsupported(op: Byte)

  /** What was read and the cursor behind it, or the cursor where reading failed. */
  datatype Read<+T> = Got(value: T, next: nat) | Fail(next: nat)

  // ---------------------------------------------------------------- package lengths

  function Digit(s: seq<Byte>, i: nat): (d: nat)
    ensures d < 256
  {
    if i < |s| then s[i] else 0
  }

  /** A number from its lowest four bits and three bytes above them. */
  function Digits(d0: nat, d1: nat, d2: nat, d3: nat): nat {
    d0 + 16 * d1 + 4096 * d2 + 1048576 * d3
  }

  lemma DigitsOf(d0: nat, d1: nat, d2: nat, d3: nat)
    requires d0 < 16 && d1 < 256 && d2 < 256 && d3 < 256
    ensures var n := Digits(d0, d1, d2, d3);
            && n % 16 == d0 && n / 16 % 256 == d1 && n / 4096 % 256 == d2 && n / 1048576 == d3
            && (d3 == 0 ==> n / 4096 == d2 && n < 1048576)
            && (d3 == 0 && d2 == 0 ==> n / 16 == d1 && n < 4096)
            && n < 268435456
  {
    var n := Digits(d0, d1, d2, d3);
    var m := d1 + 256 * (d2 + 256 * d3);
    assert n == d0 + 16 * m;
    assert n % 16 == d0 && n / 16 == m;
    assert m % 256 == d1 && m / 256 == d2 + 256 * d3;
    assert n / 4096 == m / 256 && n / 1048576 == m / 65536;
    assert (d2 + 256 * d3) % 256 == d2 && m / 65536 == d3;
  }

  lemma OfDigits(n: nat)
    requires n < 268435456
    ensures Digits(n % 16, n / 16 % 256, n / 4096 % 256, n / 1048576) == n
    ensures n < 1048576 ==> n / 4096 < 256 && Digits(n % 16, n / 16 % 256, n / 4096, 0) == n
    ensures n < 4096 ==> n / 16 < 256 && Digits(n % 16, n / 16, 0, 0) == n
  {
  }

  /** The number a package length of one to four bytes stands for. */
  function PkgValue(s: seq<Byte>): nat
    requires 1 <= |s| <= 4
  {
    if |s| == 1 then s[0] % 64 else Digits(s[0] % 16, Digit(s, 1), Digit(s, 2), Digit(s, 3))
  }

  /** The package length at `c`: the two top bits of its lead byte count the bytes that follow. */
  function PkgAt(b: seq<Byte>, c: nat): Read<nat> {
    if c >= |b| then Fail(c)
    else
      var end := c + 1 + b[c] / 64;
      if end <= |b| then Got(PkgValue(b[c..end]), end) else Fail(|b|)
  }

  /** The largest length that fits with `k` bytes after the lead byte, plus one. */
  function PkgLimit(k: nat): nat
    requires k <= 3
  {
    if k == 0 then 64 else if k == 1 then 4096 else if k == 2 then 1048576 else 268435456
  }

  /** The encoding of a length with `k` bytes after the lead byte, by section 20.2.4 of the ACPI specification. */
  function PkgEncode(k: nat, len: nat): (s: seq<Byte>)
    requires k <= 3 && len < PkgLimit(k)
    ensures |s| == k + 1
  {
    if k == 0 then [len]
    else if k == 1 then [64 + len % 16, len / 16]
    else if k == 2 then [128 + len % 16, len / 16 % 256, len / 4096]
    else [192 + len % 16, len / 16 % 256, len / 4096 % 256, len / 1048576]
  }

  /** Decoding inverts encoding, wherever the encoding lies. */
  lemma PkgDecodesEncoded(b: seq<Byte>, c: nat, k: nat, len: nat)
    requires k <= 3 && len < PkgLimit(k) && c + k + 1 <= |b| && b[c..c + k + 1] == PkgEncode(k, len)
    ensures PkgAt(b, c) == Got(len, c + k + 1)
  {
    hide Digits;
    assert b[c] == PkgEncode(k, len)[0];
    if k > 0 { OfDigits(len); }
  }

  /** Encoding inverts decoding where the reserved bits of the lead byte are clear. */
  lemma PkgEncodesDecoded(b: seq<Byte>, c: nat)
    requires PkgAt(b, c).Got? && (b[c] >= 64 ==> b[c] % 64 < 16)
    ensures var got := PkgAt(b, c);
            && got.value < PkgLimit(b[c] / 64)
            && b[c..got.next] == PkgEncode(b[c] / 64, got.value)
  {
    var s := b[c..PkgAt(b, c).next];
    assert s[0] == b[c];
    hide Digits;
    if b[c] >= 64 {
      DigitsOf(s[0] % 16, Digit(s, 1), Digit(s, 2), Digit(s, 3));
      assert s[0] == 64 * (|s| - 1) + s[0] % 16;
    }
  }

  // ---------------------------------------------------------------- names

  const ROOT: Byte := 0x5C
  const PARENT: Byte := 0x5E

  /** The first byte from `c` on that is no root or parent prefix. */
  function SkipPrefix(b: seq<Byte>, c: nat): (s: nat)
    ensures c <= s && (c <= |b| ==> s <= |b|)
    ensures s < |b| ==> b[s] != ROOT && b[s] != PARENT
    ensures forall i :: c <= i < s ==> i < |b| && (b[i] == ROOT || b[i] == PARENT)
    decreases |b| - c
  {
    if c < |b| && (b[c] == ROOT || b[c] == PARENT) then SkipPrefix(b, c + 1) else c
  }

  /** The bytes of the name that begins at `s` behind its prefixes: a null name, two, many or one segment. */
  function SegmentsEnd(b: seq<Byte>, s: nat): Read<()> {
    if s >= |b| then Fail(s)
    else if b[s] == 0 then Got((), s + 1)
    else if b[s] == 0x2E then if s + 9 <= |b| then Got((), s + 9) else Fail(s + 1)
    else if b[s] == 0x2F then
      if s + 1 >= |b| then Fail(s + 1)
      else if s + 2 + 4 * Digit(b, s + 1) <= |b| then Got((), s + 2 + 4 * Digit(b, s + 1))
      else Fail(s + 2)
    else if s + 4 <= |b| then Got((), s + 4) else Fail(s + 1)
  }

  function NameAt(b: seq<Byte>, c: nat): Read<seq<Byte>> {
    match SegmentsEnd(b, SkipPrefix(b, c))
    case Got(_, next) => if c <= next <= |b| then Got(b[c..next], next) else Fail(next)
    case Fail(next) => Fail(next)
  }

  /** A well-formed name: prefixes, then a null name, two, n or one segment of four bytes. */
  predicate IsName(raw: seq<Byte>) {
    var s := SkipPrefix(raw, 0);
    && s < |raw|
    && if raw[s] == 0 then |raw| == s + 1
       else if raw[s] == 0x2E then |raw| == s + 9
       else if raw[s] == 0x2F then s + 1 < |raw| && |raw| == s + 2 + 4 * Digit(raw, s + 1)
       else |raw| == s + 4
  }

  lemma {:induction false} SkipShift(b: seq<Byte>, c: nat, raw: seq<Byte>, i: nat)
    requires c + |raw| <= |b| && b[c..c + |raw|] == raw && i <= |raw| && SkipPrefix(raw, i) < |raw|
    ensures SkipPrefix(b, c + i) == c + SkipPrefix(raw, i)
    decreases |raw| - i
  {
    if i < |raw| {
      assert raw[i] == b[c + i];
      if raw[i] == ROOT || raw[i] == PARENT { SkipShift(b, c, raw, i + 1); }
    }
  }

  lemma NameRead(b: seq<Byte>, c: nat, end: nat)
    requires c <= end <= |b| && IsName(b[c..end])
    ensures NameAt(b, c) == Got(b[c..end], end)
  {
    var raw := b[c..end];
    var s := SkipPrefix(raw, 0);
    SkipShift(b, c, raw, 0);
    assert raw[s] == b[c + s];
    if s + 1 < |raw| { assert raw[s + 1] == b[c + s + 1]; }
  }

  lemma ReadIsName(b: seq<Byte>, c: nat)
    requires NameAt(b, c).Got?
    ensures c < NameAt(b, c).next <= |b| && IsName(b[c..NameAt(b, c).next])
  {
    var raw := b[c..NameAt(b, c).next];
    var s := SkipPrefix(b, c);
    assert raw[s - c] == b[s];
    if s + 1 - c < |raw| { assert raw[s + 1 - c] == b[s + 1]; }
    SkipPrefixIs(raw, 0, s - c);
  }

  /** A name is read exactly where one is written. */
  lemma NameExact(b: seq<Byte>, c: nat, end: nat)
    requires c <= end <= |b|
    ensures NameAt(b, c) == Got(b[c..end], end) <==> IsName(b[c..end])
  {
    hide NameAt, IsName;
    if IsName(b[c..end]) { NameRead(b, c, end); }
    if NameAt(b, c) == Got(b[c..end], end) { ReadIsName(b, c); }
  }

  lemma {:induction false} SkipPrefixIs(b: seq<Byte>, c: nat, s: nat)
    requires c <= s < |b| && b[s] != ROOT && b[s] != PARENT
    requires forall i :: c <= i < s ==> b[i] == ROOT || b[i] == PARENT
    ensures SkipPrefix(b, c) == s
    decreases s - c
  {
    if c < s { SkipPrefixIs(b, c + 1, s); }
  }

  // ---------------------------------------------------------------- data objects

  function LittleEndian(s: seq<Byte>): nat {
    if s == [] then 0 else Digit(s, 0) + 256 * LittleEndian(s[1..])
  }

  /** The first zero byte from `c` on. */
  function FindZero(b: seq<Byte>, c: nat): (z: nat)
    requires c <= |b|
    ensures c <= z <= |b| && (z < |b| ==> b[z] == 0) && forall i :: c <= i < z ==> b[i] != 0
    decreases |b| - c
  {
    if c < |b| && b[c] != 0 then FindZero(b, c + 1) else c
  }

  function IntAt(b: seq<Byte>, c: nat, n: nat): Read<Value> {
    if c + n <= |b| then Got(Integer(LittleEndian(b[c..c + n])), c + n) else Fail(c)
  }

  function StringAt(b: seq<Byte>, c: nat, utf8: seq<Byte> -> bool): Read<Value>
    requires c <= |b|
  {
    var z := FindZero(b, c);
    if z == |b| then Fail(z) else if utf8(b[c..z]) then Got(String(b[c..z]), z + 1) else Fail(z + 1)
  }

  /** The rest of a package of length `len` that began at `start`, once the cursor has come to `c`. */
  function RestAt(b: seq<Byte>, start: nat, len: nat, c: nat): Read<seq<Byte>> {
    if len < c - start then Fail(c)
    else if start <= c && start + len <= |b| then Got(b[c..start + len], start + len)
    else Fail(c)
  }

  predicate StartsName(op: Byte) {
    op == ROOT || op == PARENT || op == 0x2E || op == 0x2F || 65 <= op <= 90 || op == 0x5F
  }

  /** The data object at `c`. */
  function ValueAt(b: seq<Byte>, c: nat, utf8: seq<Byte> -> bool): (r: Read<Value>)
    ensures c <= r.next && (c < |b| ==> c < r.next) && (c <= |b| ==> r.next <= |b|)
    ensures r.Got? ==> c < r.next <= |b|
    decreases |b| - c
  {
    if c >= |b| then Fail(c)
    else if b[c] == 0x00 then Got(Zero, c + 1)
    else if b[c] == 0x01 then Got(One, c + 1)
    else if b[c] == 0xFF then Got(Ones, c + 1)
    else if b[c] == 0x0A then IntAt(b, c + 1, 1)
    else if b[c] == 0x0B then IntAt(b, c + 1, 2)
    else if b[c] == 0x0C then IntAt(b, c + 1, 4)
    else if b[c] == 0x0E then IntAt(b, c + 1, 8)
    else if b[c] == 0x0D then StringAt(b, c + 1, utf8)
    else if 0x11 <= b[c] <= 0x13 then
      match PkgAt(b, c + 1)
      case Fail(p) => Fail(p)
      case Got(len, p) =>
        var size := if b[c] == 0x12 then (if p < |b| then Got(Zero, p + 1) else Fail(p)) else ValueAt(b, p, utf8);
        match size
        case Fail(n) => Fail(n)
        case Got(_, n) =>
          match RestAt(b, c + 1, len, n)
          case Fail(e) => Fail(e)
          case Got(data, e) => Got(Buffer(data), e)
    else if StartsName(b[c]) then
      match NameAt(b, c)
      case Fail(n) => Fail(n)
      case Got(raw, n) => Got(NamePath(raw), n)
    else if b[c] == 0x5B then if c + 1 < |b| then Got(Integer(0x5B), c + 2) else Fail(c + 1)
    else Got(Integer(b[c]), c + 1)
  }

  // ---------------------------------------------------------------- terms

  datatype Body = Body(name: seq<Byte>, flags: Byte, data: seq<Byte>)

  /** A package with a name, a flag byte if there is one, and the rest of its length. */
  function BodyAt(b: seq<Byte>, c: nat, flagged: bool): Read<Body> {
    match PkgAt(b, c)
    case Fail(p) => Fail(p)
    case Got(len, p) =>
      match NameAt(b, p)
      case Fail(n) => Fail(n)
      case Got(name, n) =>
        if flagged && n >= |b| then Fail(n)
        else
          var flags: Byte := if flagged then b[n] else 0;
          match RestAt(b, c, len, if flagged then n + 1 else n)
          case Fail(e) => Fail(e)
          case Got(data, e) => Got(Body(name, flags, data), e)
  }

  function RegionAt(b: seq<Byte>, c: nat, utf8: seq<Byte> -> bool): Read<Term> {
    match NameAt(b, c)
    case Fail(n) => Fail(n)
    case Got(name, n) =>
      if n >= |b| then Fail(n)
      else
        match ValueAt(b, n + 1, utf8)
        case Fail(e) => Fail(e)
        case Got(_, e) =>
          match ValueAt(b, e, utf8)
          case Fail(f) => Fail(f)
          case Got(_, f) => Got(OpRegion(name), f)
  }

  function NamedAt(b: seq<Byte>, c: nat, utf8: seq<Byte> -> bool): Read<Term> {
    match NameAt(b, c)
    case Fail(n) => Fail(n)
    case Got(name, n) =>
      match ValueAt(b, n, utf8)
      case Fail(e) => Fail(e)
      case Got(value, e) => Got(Name(name, value), e)
  }

  function Wrap(r: Read<Body>, f: Body -> Term): Read<Term> {
    match r
    case Fail(n) => Fail(n)
    case Got(body, n) => Got(f(body), n)
  }

  function ExtendedAt(b: seq<Byte>, c: nat, utf8: seq<Byte> -> bool): Read<Term> {
    if c >= |b| then Fail(c)
    else if b[c] == 0x80 then RegionAt(b, c + 1, utf8)
    else if b[c] == 0x81 then Wrap(BodyAt(b, c + 1, true), (body: Body) => Field)
    else if b[c] == 0x82 then Wrap(BodyAt(b, c + 1, false), (body: Body) => Device(body.name, body.data))
    else Got(Unsupported(b[c]), c + 1)
  }

  /** The term at `c`, which is not the end. */
  function TermAt(b: seq<Byte>, c: nat, utf8: seq<Byte> -> bool): Read<Term>
    requires c < |b|
  {
    if b[c] == 0x10 then Wrap(BodyAt(b, c + 1, false), (body: Body) => Scope(body.name, body.data))
    else if b[c] == 0x08 then NamedAt(b, c + 1, utf8)
    else if b[c] == 0x14 then Wrap(BodyAt(b, c + 1, true), (body: Body) => Method(body.name, body.flags, body.data))
    else if b[c] == 0x5B then ExtendedAt(b, c + 1, utf8)
    else Got(Unsupported(b[c]), c + 1)
  }

  // ---------------------------------------------------------------- what holds of every term

  lemma NameAdvances(b: seq<Byte>, c: nat)
    requires c <= |b|
    ensures c <= NameAt(b, c).next <= |b|
    ensures NameAt(b, c).Got? ==> c < NameAt(b, c).next && NameAt(b, c).value == b[c..NameAt(b, c).next]
  {
  }

  lemma BodyAdvances(b: seq<Byte>, c: nat, flagged: bool)
    requires c <= |b|
    ensures c <= BodyAt(b, c, flagged).next <= |b|
  {
    hide NameAt;
    if PkgAt(b, c).Got? { NameAdvances(b, PkgAt(b, c).next); }
  }

  /** Reading a term always moves the cursor on and never past the end, even where it fails. */
  lemma TermAdvances(b: seq<Byte>, c: nat, utf8: seq<Byte> -> bool)
    requires c < |b|
    ensures c < TermAt(b, c, utf8).next <= |b|
  {
    hide NameAt, BodyAt, ValueAt;
    BodyAdvances(b, c + 1, false);
    BodyAdvances(b, c + 1, true);
    NameAdvances(b, c + 1);
    if c + 2 <= |b| {
      BodyAdvances(b, c + 2, false);
      BodyAdvances(b, c + 2, true);
      NameAdvances(b, c + 2);
    }
  }

  /** Where the package length of a named package lies: behind one opcode byte, or behind two. */
  function PkgStart(b: seq<Byte>, c: nat): nat
    requires c < |b|
  {
    if b[c] == 0x5B then c + 2 else c + 1
  }

  /** A named package ends exactly at its start plus its length, and its data is the tail of it. */
  lemma BodyDelimited(b: seq<Byte>, c: nat, flagged: bool)
    requires c <= |b| && BodyAt(b, c, flagged).Got?
    ensures var body := BodyAt(b, c, flagged);
            && PkgAt(b, c).Got? && body.next == c + PkgAt(b, c).value <= |b|
            && c + 2 + |body.value.data| <= body.next
            && body.value.data == b[body.next - |body.value.data|..body.next]
            && IsName(body.value.name) && body.value.name == b[PkgAt(b, c).next..PkgAt(b, c).next + |body.value.name|]
            && PkgAt(b, c).next + |body.value.name| + (if flagged then 1 else 0) + |body.value.data| == body.next
            && (flagged ==> body.value.flags == b[PkgAt(b, c).next + |body.value.name|])
  {
    hide NameAt, IsName, PkgValue;
    var p := PkgAt(b, c).next;
    NameAdvances(b, p);
    ReadIsName(b, p);
  }

  /** The contents a term carries. */
  function Contents(t: Term): seq<Byte> {
    match t
    case Scope(_, contents) => contents
    case Device(_, contents) => contents
    case Method(_, _, code) => code
    case _ => []
  }

  /** A scope, device or method ends where its package length says, with its contents strictly inside it. */
  lemma TermDelimited(b: seq<Byte>, c: nat, utf8: seq<Byte> -> bool)
    requires c < |b| && TermAt(b, c, utf8).Got?
    requires var t := TermAt(b, c, utf8).value; t.Scope? || t.Device? || t.Method?
    ensures var r := TermAt(b, c, utf8);
            var inner := Contents(r.value);
            && PkgAt(b, PkgStart(b, c)).Got?
            && r.next == PkgStart(b, c) + PkgAt(b, PkgStart(b, c)).value <= |b|
            && c + 1 + |inner| < r.next && inner == b[r.next - |inner|..r.next]
  {
    hide BodyAt, NameAt, ValueAt, PkgAt;
    BodyKinds(b, c, utf8);
    BodyDelimited(b, PkgStart(b, c), b[c] == 0x14);
  }

  /** Which packages make which terms. */
  lemma BodyKinds(b: seq<Byte>, c: nat, utf8: seq<Byte> -> bool)
    requires c < |b| && TermAt(b, c, utf8).Got?
    requires var t := TermAt(b, c, utf8).value; t.Scope? || t.Device? || t.Method?
    ensures PkgStart(b, c) <= |b|
    ensures var body := BodyAt(b, PkgStart(b, c), b[c] == 0x14);
            && body.Got? && TermAt(b, c, utf8).next == body.next
            && TermAt(b, c, utf8).value ==
               (if b[c] == 0x10 then Scope(body.value.name, body.value.data)
                else if b[c] == 0x14 then Method(body.value.name, body.value.flags, body.value.data)
                else Device(body.value.name, body.value.data))
  {
    hide BodyAt, NameAt, ValueAt;
  }

  /** No term carries as many bytes as it takes up. */
  lemma ContentsSmaller(b: seq<Byte>, c: nat, utf8: seq<Byte> -> bool)
    requires c < |b| && TermAt(b, c, utf8).Got?
    ensures |Contents(TermAt(b, c, utf8).value)| + 1 <= TermAt(b, c, utf8).next - c
  {
    hide TermAt;
    var t := TermAt(b, c, utf8).value;
    TermAdvances(b, c, utf8);
    if t.Scope? || t.Device? || t.Method? { TermDelimited(b, c, utf8); }
  }

  // ---------------------------------------------------------------- writing packages back

  /** The bytes of a named package, its length encoded with `k` bytes after the lead byte. */
  function EncodeBody(k: nat, name: seq<Byte>, flags: seq<Byte>, data: seq<Byte>): seq<Byte>
    requires k <= 3 && k + 1 + |name| + |flags| + |data| < PkgLimit(k)
  {
    PkgEncode(k, k + 1 + |name| + |flags| + |data|) + name + flags + data
  }

  /** A package written anywhere is read back as written. */
  lemma BodyRoundTrip(b: seq<Byte>, c: nat, k: nat, name: seq<Byte>, flags: seq<Byte>, data: seq<Byte>)
    requires k <= 3 && k + 1 + |name| + |flags| + |data| < PkgLimit(k) && IsName(name) && |flags| <= 1
    requires var s := EncodeBody(k, name, flags, data); c + |s| <= |b| && b[c..c + |s|] == s
    ensures var s := EncodeBody(k, name, flags, data);
            BodyAt(b, c, |flags| == 1) == Got(Body(name, if |flags| == 1 then flags[0] else 0, data), c + |s|)
  {
    hide PkgAt, NameAt, IsName, PkgEncode;
    var len := k + 1 + |name| + |flags| + |data|;
    var s := EncodeBody(k, name, flags, data);
    Part(b, c, s, 0, k + 1);
    assert s[0..k + 1] == PkgEncode(k, len);
    PkgDecodesEncoded(b, c, k, len);
    Part(b, c, s, k + 1, k + 1 + |name|);
    assert s[k + 1..k + 1 + |name|] == name;
    NameRead(b, c + k + 1, c + k + 1 + |name|);
    Part(b, c, s, k + 1 + |name| + |flags|, len);
    assert s[k + 1 + |name| + |flags|..len] == data;
    if |flags| == 1 { assert s[k + 1 + |name|] == flags[0] && b[c + k + 1 + |name|] == s[k + 1 + |name|]; }
  }

  lemma Part(b: seq<Byte>, c: nat, s: seq<Byte>, i: nat, j: nat)
    requires c + |s| <= |b| && b[c..c + |s|] == s && i <= j <= |s|
    ensures b[c + i..c + j] == s[i..j]
  {
    forall k | 0 <= k < j - i ensures b[c + i..c + j][k] == s[i..j][k] {
      assert b[c + (i + k)] == b[c..c + |s|][i + k];
    }
  }

  /** Scopes, devices and methods: what is written is what is read, and the cursor ends behind it. */
  lemma TermRoundTrip(b: seq<Byte>, c: nat, k: nat, t: Term, utf8: seq<Byte> -> bool)
    requires t.Scope? || t.Device? || t.Method?
    requires k <= 3 && IsName(t.name) && k + 1 + |t.name| + |FlagsOf(t)| + |Contents(t)| < PkgLimit(k)
    requires var s := Opcode(t) + EncodeBody(k, t.name, FlagsOf(t), Contents(t)); c + |s| <= |b| && b[c..c + |s|] == s
    ensures c < |b| && TermAt(b, c, utf8) == Got(t, c + |Opcode(t) + EncodeBody(k, t.name, FlagsOf(t), Contents(t))|)
  {
    hide BodyAt, NameAt, ValueAt, EncodeBody, IsName;
    var e := EncodeBody(k, t.name, FlagsOf(t), Contents(t));
    var s := Opcode(t) + e;
    assert b[c] == s[0];
    if t.Device? { assert b[c + 1] == s[1]; }
    Part(b, c, s, |Opcode(t)|, |s|);
    assert s[|Opcode(t)|..] == e;
    BodyRoundTrip(b, c + |Opcode(t)|, k, t.name, FlagsOf(t), Contents(t));
  }

  function Opcode(t: Term): seq<Byte> {
    if t.Scope? then [0x10] else if t.Method? then [0x14] else [0x5B, 0x82]
  }

  function FlagsOf(t: Term): seq<Byte> {
    if t.Method? then [t.flags] else []
  }

  // ---------------------------------------------------------------- writing data objects back

  function LittleBytes(n: nat, k: nat): (s: seq<Byte>)
    ensures |s| == k
  {
    if k == 0 then [] else [n % 256] + LittleBytes(n / 256, k - 1)
  }

  function Power256(k: nat): nat {
    if k == 0 then 1 else 256 * Power256(k - 1)
  }

  lemma {:induction false} LittleRoundTrip(n: nat, k: nat)
    requires n < Power256(k)
    ensures LittleEndian(LittleBytes(n, k)) == n
  {
    if k > 0 { LittleRoundTrip(n / 256, k - 1); }
  }

  /** The prefix of an integer of k bytes. */
  function IntPrefix(k: nat): Byte {
    if k == 1 then 0x0A else if k == 2 then 0x0B else if k == 4 then 0x0C else 0x0E
  }

  /** `s` is an encoding of a data object that gives all of it back. */
  predicate Spells(s: seq<Byte>, v: Value, utf8: seq<Byte> -> bool) {
    s != [] &&
    match v
    case Zero => s == [0x00]
    case One => s == [0x01]
    case Ones => s == [0xFF]
    case Integer(n) =>
      var k := |s| - 1;
      k in {1, 2, 4, 8} && n < Power256(k) && s == [IntPrefix(k)] + LittleBytes(n, k)
    case String(text) => s == [0x0D] + text + [0x00] && 0 !in text && utf8(text)
    case NamePath(raw) => s == raw && IsName(raw) && StartsName(raw[0])
    case Buffer(_) => false
  }

  /** A constant, integer, string or name written anywhere is read back as written. */
  lemma ValueRoundTrip(b: seq<Byte>, c: nat, s: seq<Byte>, v: Value, utf8: seq<Byte> -> bool)
    requires Spells(s, v, utf8) && c + |s| <= |b| && b[c..c + |s|] == s
    ensures ValueAt(b, c, utf8) == Got(v, c + |s|)
  {
    hide NameAt, IsName, Power256, LittleEndian, LittleBytes;
    assert b[c] == s[0];
    match v
    case Integer(n) =>
      var k := |s| - 1;
      Part(b, c, s, 1, |s|);
      assert s[1..] == LittleBytes(n, k);
      LittleRoundTrip(n, k);
    case String(text) => StringRoundTrip(b, c, text, utf8);
    case NamePath(raw) => NameRead(b, c, c + |raw|);
    case _ =>
  }

  lemma StringRoundTrip(b: seq<Byte>, c: nat, text: seq<Byte>, utf8: seq<Byte> -> bool)
    requires c + |text| + 2 <= |b| && b[c..c + |text| + 2] == [0x0D] + text + [0x00] && 0 !in text && utf8(text)
    ensures StringAt(b, c + 1, utf8) == Got(String(text), c + |text| + 2)
  {
    var s := [0x0D] + text + [0x00];
    Part(b, c, s, 1, 1 + |text|);
    assert s[1..1 + |text|] == text;
    assert b[c + 1 + |text|] == s[1 + |text|] == 0;
    var z := FindZero(b, c + 1);
    assert forall i :: c + 1 <= i < c + 1 + |text| ==> b[i] == text[i - c - 1];
  }

  /** A buffer is read back with its data, whatever its size object says. */
  lemma BufferRoundTrip(b: seq<Byte>, c: nat, k: nat, size: seq<Byte>, n: Value, data: seq<Byte>,
      utf8: seq<Byte> -> bool)
    requires k <= 3 && Spells(size, n, utf8) && k + 1 + |size| + |data| < PkgLimit(k)
    requires var s := [0x11] + (PkgEncode(k, k + 1 + |size| + |data|) + size + data);
               c + |s| <= |b| && b[c..c + |s|] == s
    ensures ValueAt(b, c, utf8) == Got(Buffer(data), c + k + 2 + |size| + |data|)
  {
    hide PkgAt, PkgEncode, Spells, ValueAt;
    var len := k + 1 + |size| + |data|;
    var s := [0x11] + (PkgEncode(k, len) + size + data);
    assert b[c] == s[0];
    Slices(0x11, PkgEncode(k, len), size, data);
    Part(b, c, s, 1, k + 2);
    PkgDecodesEncoded(b, c + 1, k, len);
    Part(b, c, s, k + 2, k + 2 + |size|);
    ValueRoundTrip(b, c + k + 2, size, n, utf8);
    Part(b, c, s, k + 2 + |size|, |s|);
    BufferParts(b, c, len, c + k + 2, n, c + k + 2 + |size|, utf8);
  }

  lemma Slices(x: Byte, p: seq<Byte>, q: seq<Byte>, d: seq<Byte>)
    ensures var s := [x] + (p + q + d);
            s[1..1 + |p|] == p && s[1 + |p|..1 + |p| + |q|] == q && s[1 + |p| + |q|..|s|] == d
  {
  }

  lemma BufferParts(b: seq<Byte>, c: nat, len: nat, p: nat, v: Value, n: nat, utf8: seq<Byte> -> bool)
    requires c < |b| && b[c] == 0x11 && PkgAt(b, c + 1) == Got(len, p) && ValueAt(b, p, utf8) == Got(v, n)
    requires c + 1 <= n <= c + 1 + len <= |b|
    ensures ValueAt(b, c, utf8) == Got(Buffer(b[n..c + 1 + len]), c + 1 + len)
  {
    hide PkgAt;
  }

  /** A named value is read back as written. */
  lemma NamedRoundTrip(b: seq<Byte>, c: nat, name: seq<Byte>, s: seq<Byte>, v: Value, utf8: seq<Byte> -> bool)
    requires IsName(name) && Spells(s, v, utf8) && c + 1 + |name| + |s| <= |b|
               && b[c..c + 1 + |name| + |s|] == [0x08] + (name + s)
    ensures TermAt(b, c, utf8) == Got(Name(name, v), c + 1 + |name| + |s|)
  {
    hide NameAt, ValueAt, BodyAt, IsName, Spells;
    var all := [0x08] + (name + s);
    assert b[c] == all[0];
    Part(b, c, all, 1, 1 + |name|);
    assert all[1..1 + |name|] == name;
    NameRead(b, c + 1, c + 1 + |name|);
    Part(b, c, all, 1 + |name|, |all|);
    assert all[1 + |name|..] == s;
    ValueRoundTrip(b, c + 1 + |name|, s, v, utf8);
  }
}
