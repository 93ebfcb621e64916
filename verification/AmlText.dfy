/**
 * AML as it is written: every text of the language, what it means, and the
 * proof that the parser reads exactly these texts.
 */
module AmlText {
  import opened AmlGrammar
  import opened AmlParser
  import opened AmlDevices

  // ---------------------------------------------------------------- pieces of a byte string

  predicate At(b: seq<Byte>, c: nat, s: seq<Byte>) {
    c + |s| <= |b| && b[c..c + |s|] == s
  }

  lemma AtParts(b: seq<Byte>, c: nat, s: seq<Byte>, t: seq<Byte>)
    ensures At(b, c, s + t) <==> At(b, c, s) && At(b, c + |s|, t)
  {
    if At(b, c, s + t) {
      Part(b, c, s + t, 0, |s|);
      assert (s + t)[0..|s|] == s;
      Part(b, c, s + t, |s|, |s + t|);
      assert (s + t)[|s|..|s + t|] == t;
    }
    if At(b, c, s) && At(b, c + |s|, t) {
      assert b[c..c + |s + t|] == b[c..c + |s|] + b[c + |s|..c + |s| + |t|];
    }
  }

  lemma SliceAt(b: seq<Byte>, c: nat, end: nat)
    requires c <= end <= |b|
    ensures At(b, c, b[c..end]) && |b[c..end]| == end - c
  {
  }

  lemma AtInside(b: seq<Byte>, c: nat, s: seq<Byte>)
    requires At(b, c, s)
    ensures c + |s| <= |b|
  {
  }

  lemma ByteAt(b: seq<Byte>, c: nat)
    requires c < |b|
    ensures At(b, c, [b[c]])
  {
  }

  /** A package length: the two top bits of its lead byte count the bytes behind it. */
  predicate IsLength(s: seq<Byte>, n: nat) {
    1 <= |s| <= 4 && s[0] / 64 == |s| - 1 && PkgValue(s) == n
  }

  lemma LengthIff(b: seq<Byte>, c: nat, end: nat, n: nat)
    requires c <= end <= |b|
    ensures PkgAt(b, c) == Got(n, end) <==> IsLength(b[c..end], n)
  {
    hide PkgValue;
    if c < end { assert b[c..end][0] == b[c]; }
  }

  // ---------------------------------------------------------------- data objects

  /**
   * A data object as it is written: one that gives all of itself back, an opcode that stands
   * for itself, one behind the extension prefix, a buffer or variable package behind its size
   * object, or a package behind its count.
   */
  datatype Object =
    | Plain(text: seq<Byte>, value: Value)
    | Bare(op: Byte)
    | Extended(op: Byte)
    | Sized(op: Byte, len: seq<Byte>, size: Object, data: seq<Byte>)
    | Counted(len: seq<Byte>, count: Byte, data: seq<Byte>)

  function Bytes(o: Object): seq<Byte> {
    match o
    case Plain(text, _) => text
    case Bare(op) => [op]
    case Extended(op) => [0x5B, op]
    case Sized(op, len, size, data) => [op] + (len + (Bytes(size) + data))
    case Counted(len, count, data) => [0x12] + (len + ([count] + data))
  }

  function Meaning(o: Object): Value {
    match o
    case Plain(_, value) => value
    case Bare(op) => Integer(op)
    case Extended(_) => Integer(0x5B)
    case Sized(_, _, _, data) => Buffer(data)
    case Counted(_, _, data) => Buffer(data)
  }

  /** No data object begins with this opcode. */
  predicate Unknown(op: Byte) {
    && op !in {0x00, 0x01, 0xFF, 0x0A, 0x0B, 0x0C, 0x0D, 0x0E, 0x11, 0x12, 0x13}
    && op !in {0x2E, 0x2F, 0x5B, 0x5C, 0x5E, 0x5F} && !(65 <= op <= 90)
  }

  predicate Proper(o: Object, utf8: seq<Byte> -> bool) {
    match o
    case Plain(text, value) => Spells(text, value, utf8)
    case Bare(op) => Unknown(op)
    case Extended(_) => true
    case Sized(op, len, size, data) =>
      op in {0x11, 0x13} && Proper(size, utf8) && IsLength(len, |len| + |Bytes(size)| + |data|)
    case Counted(len, _, data) => IsLength(len, |len| + 1 + |data|)
  }

  lemma {:induction false} ObjectRead(b: seq<Byte>, c: nat, o: Object, utf8: seq<Byte> -> bool)
    requires Proper(o, utf8) && At(b, c, Bytes(o))
    ensures ValueAt(b, c, utf8) == Got(Meaning(o), c + |Bytes(o)|)
    decreases o
  {
    hide Spells, IsLength, At, ValueAt;
    match o
    case Plain(text, value) =>
      assert At(b, c, text);
      PlainRead(b, c, text, value, utf8);
    case Bare(op) => BareRead(b, c, [op], utf8);
    case Extended(op) => BareRead(b, c, [0x5B, op], utf8);
    case Sized(op, len, size, data) =>
      PackageAt(b, c, op, len, Bytes(size), data);
      ObjectRead(b, c + 1 + |len|, size, utf8);
      SizedRead(b, c, len, Meaning(size), Bytes(size), data, utf8);
    case Counted(len, count, data) =>
      PackageAt(b, c, 0x12, len, [count], data);
      OpcodeRead(b, c + 1 + |len|, [count]);
      CountedRead(b, c, len, data, utf8);
  }

  lemma BareRead(b: seq<Byte>, c: nat, s: seq<Byte>, utf8: seq<Byte> -> bool)
    requires At(b, c, s) && ((|s| == 1 && Unknown(s[0])) || (|s| == 2 && s[0] == 0x5B))
    ensures ValueAt(b, c, utf8) == Got(Integer(s[0]), c + |s|)
  {
    OpcodeRead(b, c, s);
  }

  lemma PlainRead(b: seq<Byte>, c: nat, text: seq<Byte>, value: Value, utf8: seq<Byte> -> bool)
    requires Spells(text, value, utf8) && At(b, c, text)
    ensures ValueAt(b, c, utf8) == Got(value, c + |text|)
  {
    ValueRoundTrip(b, c, text, value, utf8);
  }

  lemma OpcodeRead(b: seq<Byte>, c: nat, s: seq<Byte>)
    requires At(b, c, s) && |s| > 0
    ensures c + |s| <= |b| && b[c] == s[0]
  {
    assert b[c..c + |s|][0] == b[c];
  }

  /** Where the parts of a written package lie. */
  lemma PackageAt(b: seq<Byte>, c: nat, op: Byte, len: seq<Byte>, head: seq<Byte>, data: seq<Byte>)
    requires At(b, c, [op] + (len + (head + data)))
    requires IsLength(len, |len| + |head| + |data|)
    ensures c < |b| && b[c] == op
    ensures PkgAt(b, c + 1) == Got(|len| + |head| + |data|, c + 1 + |len|)
    ensures At(b, c + 1 + |len|, head) && At(b, c + 1 + |len| + |head|, data)
  {
    hide PkgAt, IsLength;
    AtParts(b, c, [op], len + (head + data));
    AtParts(b, c + 1, len, head + data);
    AtParts(b, c + 1 + |len|, head, data);
    OpcodeRead(b, c, [op]);
    LengthIff(b, c + 1, c + 1 + |len|, |len| + |head| + |data|);
  }

  lemma SizedRead(b: seq<Byte>, c: nat, len: seq<Byte>, size: Value, head: seq<Byte>, data: seq<Byte>,
      utf8: seq<Byte> -> bool)
    requires c < |b| && b[c] in {0x11, 0x13}
    requires PkgAt(b, c + 1) == Got(|len| + |head| + |data|, c + 1 + |len|)
    requires ValueAt(b, c + 1 + |len|, utf8) == Got(size, c + 1 + |len| + |head|)
    requires At(b, c + 1 + |len| + |head|, data)
    ensures ValueAt(b, c, utf8) == Got(Buffer(data), c + 1 + |len| + |head| + |data|)
  {
    hide PkgAt;
  }

  lemma CountedRead(b: seq<Byte>, c: nat, len: seq<Byte>, data: seq<Byte>, utf8: seq<Byte> -> bool)
    requires c + 1 + |len| < |b| && b[c] == 0x12
    requires PkgAt(b, c + 1) == Got(|len| + 1 + |data|, c + 1 + |len|) && At(b, c + 2 + |len|, data)
    ensures ValueAt(b, c, utf8) == Got(Buffer(data), c + 2 + |len| + |data|)
  {
    hide PkgAt;
  }

  // Every object that is read is written there.

  lemma {:induction false} LittleInverse(s: seq<Byte>)
    ensures LittleEndian(s) < Power256(|s|) && LittleBytes(LittleEndian(s), |s|) == s
  {
    if s != [] {
      LittleInverse(s[1..]);
      assert LittleEndian(s) / 256 == LittleEndian(s[1..]) && LittleEndian(s) % 256 == s[0];
    }
  }

  /** What `o` has to be to be the object read at `c`. */
  predicate Writes(o: Object, b: seq<Byte>, c: nat, r: Read<Value>, utf8: seq<Byte> -> bool) {
    Proper(o, utf8) && At(b, c, Bytes(o)) && r == Got(Meaning(o), c + |Bytes(o)|)
  }

  lemma {:induction false} ObjectWritten(b: seq<Byte>, c: nat, utf8: seq<Byte> -> bool) returns (o: Object)
    requires ValueAt(b, c, utf8).Got?
    ensures Writes(o, b, c, ValueAt(b, c, utf8), utf8)
    decreases |b| - c
  {
    hide PkgAt, RestAt;
    if b[c] in {0x11, 0x13} {
      var p := PkgAt(b, c + 1).next;
      PkgInside(b, c + 1);
      var size := ObjectWritten(b, p, utf8);
      o := SizedWritten(b, c, size, utf8);
    } else if b[c] == 0x12 {
      o := CountedWritten(b, c, utf8);
    } else {
      o := SimpleWritten(b, c, utf8);
    }
  }

  lemma PkgInside(b: seq<Byte>, c: nat)
    requires PkgAt(b, c).Got?
    ensures c < PkgAt(b, c).next <= |b| && IsLength(b[c..PkgAt(b, c).next], PkgAt(b, c).value)
  {
    LengthIff(b, c, PkgAt(b, c).next, PkgAt(b, c).value);
  }

  lemma PackageWritten(b: seq<Byte>, c: nat, head: seq<Byte>, data: seq<Byte>)
    requires c < |b| && PkgAt(b, c + 1).Got?
    requires var p := PkgAt(b, c + 1).next;
      && At(b, p, head) && p + |head| + |data| == c + 1 + PkgAt(b, c + 1).value && At(b, p + |head|, data)
    ensures var len := b[c + 1..PkgAt(b, c + 1).next];
      && IsLength(len, |len| + |head| + |data|) && At(b, c, [b[c]] + (len + (head + data)))
  {
    hide PkgAt, IsLength, At;
    PkgInside(b, c + 1);
    var len := b[c + 1..PkgAt(b, c + 1).next];
    SliceAt(b, c + 1, PkgAt(b, c + 1).next);
    ByteAt(b, c);
    AtParts(b, c + 1 + |len|, head, data);
    AtParts(b, c + 1, len, head + data);
    AtParts(b, c, [b[c]], len + (head + data));
  }

  lemma SizedWritten(b: seq<Byte>, c: nat, size: Object, utf8: seq<Byte> -> bool) returns (o: Object)
    requires ValueAt(b, c, utf8).Got? && b[c] in {0x11, 0x13}
    requires PkgAt(b, c + 1).Got? && Writes(size, b, PkgAt(b, c + 1).next, ValueAt(b, PkgAt(b, c + 1).next, utf8), utf8)
    ensures Writes(o, b, c, ValueAt(b, c, utf8), utf8)
  {
    hide PkgAt, IsLength, ValueAt, At;
    PkgInside(b, c + 1);
    var p, n, end := PkgAt(b, c + 1).next, ValueAt(b, PkgAt(b, c + 1).next, utf8).next, ValueAt(b, c, utf8).next;
    PackageEnd(b, c, n, utf8);
    SliceAt(b, n, end);
    SliceAt(b, c + 1, p);
    o := Sized(b[c], b[c + 1..p], size, b[n..end]);
    PackageWritten(b, c, Bytes(size), b[n..end]);
  }

  lemma CountedWritten(b: seq<Byte>, c: nat, utf8: seq<Byte> -> bool) returns (o: Object)
    requires ValueAt(b, c, utf8).Got? && b[c] == 0x12
    ensures Writes(o, b, c, ValueAt(b, c, utf8), utf8)
  {
    hide PkgAt, IsLength, ValueAt, At;
    PackageEnd(b, c, PkgAt(b, c + 1).next + 1, utf8);
    PkgInside(b, c + 1);
    var p, end := PkgAt(b, c + 1).next, ValueAt(b, c, utf8).next;
    var len, count, data := b[c + 1..p], b[p], b[p + 1..end];
    ByteAt(b, p);
    SliceAt(b, p + 1, end);
    PackageWritten(b, c, [count], data);
    o := Counted(len, count, data);
    assert Bytes(o) == [0x12] + (len + ([count] + data));
    assert |len| + |[count]| + |data| == |len| + 1 + |data|;
  }

  /** A package that is read ends where its length says, and its data is what lies behind its size or count. */
  lemma PackageEnd(b: seq<Byte>, c: nat, n: nat, utf8: seq<Byte> -> bool)
    requires ValueAt(b, c, utf8).Got? && 0x11 <= b[c] <= 0x13
    requires n == if b[c] == 0x12 then PkgAt(b, c + 1).next + 1 else ValueAt(b, PkgAt(b, c + 1).next, utf8).next
    ensures PkgAt(b, c + 1).Got?
    ensures var end := c + 1 + PkgAt(b, c + 1).value;
            n <= end <= |b| && ValueAt(b, c, utf8) == Got(Buffer(b[n..end]), end)
  {
    hide PkgAt;
    PkgInside(b, c + 1);
  }

  lemma FirstByte(b: seq<Byte>, c: nat, end: nat)
    requires c < end <= |b|
    ensures b[c..end] == [b[c]] + b[c + 1..end]
  {
  }

  lemma IntWritten(b: seq<Byte>, c: nat, k: nat, utf8: seq<Byte> -> bool)
    requires k in {1, 2, 4, 8} && c < |b| && b[c] == IntPrefix(k) && IntAt(b, c + 1, k).Got?
    ensures c + 1 + k <= |b| && Spells(b[c..c + 1 + k], IntAt(b, c + 1, k).value, utf8)
  {
    hide LittleEndian, LittleBytes, Power256;
    var digits := b[c + 1..c + 1 + k];
    LittleInverse(digits);
    FirstByte(b, c, c + 1 + k);
  }

  lemma SimpleWritten(b: seq<Byte>, c: nat, utf8: seq<Byte> -> bool) returns (o: Object)
    requires ValueAt(b, c, utf8).Got? && !(0x11 <= b[c] <= 0x13)
    ensures Writes(o, b, c, ValueAt(b, c, utf8), utf8)
  {
    var r := ValueAt(b, c, utf8);
    if b[c] in {0x0A, 0x0B, 0x0C, 0x0E} {
      hide Spells, IntAt;
      IntWritten(b, c, if b[c] == 0x0A then 1 else if b[c] == 0x0B then 2 else if b[c] == 0x0C then 4 else 8, utf8);
      o := Plain(b[c..r.next], r.value);
    } else if b[c] == 0x5B {
      o := Extended(b[c + 1]);
    } else if Unknown(b[c]) {
      o := Bare(b[c]);
    } else {
      o := Plain(b[c..r.next], r.value);
      TextWritten(b, c, utf8);
    }
  }

  lemma TextWritten(b: seq<Byte>, c: nat, utf8: seq<Byte> -> bool)
    requires ValueAt(b, c, utf8).Got? && (b[c] in {0x00, 0x01, 0xFF, 0x0D} || StartsName(b[c]))
    ensures Spells(b[c..ValueAt(b, c, utf8).next], ValueAt(b, c, utf8).value, utf8)
  {
    if b[c] == 0x0D {
      hide Spells;
      StringWritten(b, c, utf8);
    } else if StartsName(b[c]) {
      hide Spells, NameAt;
      NameWritten(b, c, utf8);
    } else {
      FirstByte(b, c, c + 1);
    }
  }

  lemma StringWritten(b: seq<Byte>, c: nat, utf8: seq<Byte> -> bool)
    requires c < |b| && b[c] == 0x0D && StringAt(b, c + 1, utf8).Got?
    ensures c < StringAt(b, c + 1, utf8).next <= |b|
    ensures Spells(b[c..StringAt(b, c + 1, utf8).next], StringAt(b, c + 1, utf8).value, utf8)
  {
    var z := FindZero(b, c + 1);
    assert b[c..z + 1] == [0x0D] + b[c + 1..z] + [0x00];
  }

  lemma NameWritten(b: seq<Byte>, c: nat, utf8: seq<Byte> -> bool)
    requires c < |b| && StartsName(b[c]) && NameAt(b, c).Got?
    ensures c < NameAt(b, c).next <= |b|
    ensures Spells(b[c..NameAt(b, c).next], NamePath(NameAt(b, c).value), utf8)
  {
    hide NameAt, IsName;
    ReadIsName(b, c);
    NameAdvances(b, c);
  }

  /** A data object is read exactly where one is written. */
  lemma ObjectIff(b: seq<Byte>, c: nat, r: Read<Value>, utf8: seq<Byte> -> bool)
    requires r.Got?
    ensures ValueAt(b, c, utf8) == r <==> exists o :: Writes(o, b, c, r, utf8)
  {
    hide ValueAt, Proper, At;
    if ValueAt(b, c, utf8) == r { var o := ObjectWritten(b, c, utf8); }
    if o :| Writes(o, b, c, r, utf8) { ObjectRead(b, c, o, utf8); }
  }

  // ---------------------------------------------------------------- terms

  /**
   * A term as it is written: a package with a name and perhaps a flag byte, a named value, an
   * operation region, or an opcode the parser does not know.
   */
  datatype Text =
    | Package(op: seq<Byte>, len: seq<Byte>, name: seq<Byte>, flags: seq<Byte>, data: seq<Byte>)
    | Named(name: seq<Byte>, item: Object)
    | Region(name: seq<Byte>, space: Byte, offset: Object, length: Object)
    | Skipped(op: seq<Byte>)

  function TextBytes(x: Text): seq<Byte> {
    match x
    case Package(op, len, name, flags, data) => op + (len + (name + (flags + data)))
    case Named(name, item) => [0x08] + (name + Bytes(item))
    case Region(name, space, offset, length) => [0x5B, 0x80] + (name + ([space] + (Bytes(offset) + Bytes(length))))
    case Skipped(op) => op
  }

  predicate ProperText(x: Text, utf8: seq<Byte> -> bool) {
    match x
    case Package(op, len, name, flags, data) =>
      && IsName(name) && IsLength(len, |len| + |name| + |flags| + |data|)
      && if op in {[0x14], [0x5B, 0x81]} then |flags| == 1 else op in {[0x10], [0x5B, 0x82]} && flags == []
    case Named(name, item) => IsName(name) && Proper(item, utf8)
    case Region(name, _, offset, length) => IsName(name) && Proper(offset, utf8) && Proper(length, utf8)
    case Skipped(op) =>
      || (|op| == 1 && op[0] !in {0x08, 0x10, 0x14, 0x5B})
      || (|op| == 2 && op[0] == 0x5B && op[1] !in {0x80, 0x81, 0x82})
  }

  function TextMeaning(x: Text): Term
    requires x.Skipped? ==> x.op != []
  {
    match x
    case Package(op, _, name, flags, data) =>
      if op == [0x10] then Scope(name, data)
      else if op == [0x5B, 0x82] then Device(name, data)
      else if op == [0x14] && flags != [] then Method(name, flags[0], data)
      else Field
    case Named(name, item) => Name(name, Meaning(item))
    case Region(name, _, _, _) => OpRegion(name)
    case Skipped(op) => Unsupported(op[|op| - 1])
  }

  predicate WritesTerm(x: Text, b: seq<Byte>, c: nat, r: Read<Term>, utf8: seq<Byte> -> bool) {
    ProperText(x, utf8) && At(b, c, TextBytes(x)) && r == Got(TextMeaning(x), c + |TextBytes(x)|)
  }

  lemma BodyRead(b: seq<Byte>, c: nat, len: seq<Byte>, name: seq<Byte>, flags: seq<Byte>, data: seq<Byte>)
    requires IsName(name) && |flags| <= 1 && IsLength(len, |len| + |name| + |flags| + |data|)
    requires At(b, c, len + (name + (flags + data)))
    ensures BodyAt(b, c, |flags| == 1) ==
      Got(Body(name, if |flags| == 1 then flags[0] else 0, data), c + |len| + |name| + |flags| + |data|)
  {
    hide IsLength, IsName, PkgAt, NameAt;
    AtParts(b, c, len, name + (flags + data));
    AtParts(b, c + |len|, name, flags + data);
    AtParts(b, c + |len| + |name|, flags, data);
    LengthIff(b, c, c + |len|, |len| + |name| + |flags| + |data|);
    NameRead(b, c + |len|, c + |len| + |name|);
    if |flags| == 1 { OpcodeRead(b, c + |len| + |name|, flags); }
  }

  lemma BodyWritten(b: seq<Byte>, c: nat, flagged: bool) returns (len: seq<Byte>, flags: seq<Byte>)
    requires c <= |b| && BodyAt(b, c, flagged).Got?
    ensures var body := BodyAt(b, c, flagged).value;
            && IsName(body.name) && IsLength(len, |len| + |body.name| + |flags| + |body.data|)
            && flags == (if flagged then [body.flags] else [])
            && At(b, c, len + (body.name + (flags + body.data)))
            && BodyAt(b, c, flagged).next == c + |len| + |body.name| + |flags| + |body.data|
  {
    hide IsLength, IsName, PkgAt, NameAt, BodyAt, At;
    BodyDelimited(b, c, flagged);
    PkgInside(b, c);
    var body, p, end := BodyAt(b, c, flagged).value, PkgAt(b, c).next, BodyAt(b, c, flagged).next;
    var n := p + |body.name|;
    len, flags := b[c..p], if flagged then [body.flags] else [];
    SliceAt(b, c, p);
    SliceAt(b, p, n);
    SliceAt(b, n + |flags|, end);
    SliceAt(b, n, n);
    if flagged { ByteAt(b, n); } else { assert b[n..n] == []; }
    AtParts(b, n, flags, body.data);
    AtParts(b, p, body.name, flags + body.data);
    AtParts(b, c, len, body.name + (flags + body.data));
  }

  /** What is written is what is read. */
  lemma TextRead(b: seq<Byte>, c: nat, x: Text, utf8: seq<Byte> -> bool)
    requires ProperText(x, utf8) && At(b, c, TextBytes(x))
    ensures c < |b| && TermAt(b, c, utf8) == Got(TextMeaning(x), c + |TextBytes(x)|)
  {
    hide BodyAt, NameAt, ValueAt, IsName, IsLength, Proper, At;
    match x
    case Package(op, len, name, flags, data) =>
      AtParts(b, c, op, len + (name + (flags + data)));
      OpcodeRead(b, c, op);
      if |op| == 2 { SecondByte(b, c, op); }
      BodyRead(b, c + |op|, len, name, flags, data);
    case Named(name, item) =>
      AtParts(b, c, [0x08], name + Bytes(item));
      OpcodeRead(b, c, [0x08]);
      AtParts(b, c + 1, name, Bytes(item));
      NameHere(b, c + 1, name);
      ObjectRead(b, c + 1 + |name|, item, utf8);
    case Region(name, space, offset, length) =>
      RegionParts(b, c, name, space, Bytes(offset), Bytes(length));
      RegionRead(b, c, name, space, offset, length, utf8);
    case Skipped(op) =>
      OpcodeRead(b, c, op);
      if |op| == 2 { SecondByte(b, c, op); }
  }

  lemma SecondByte(b: seq<Byte>, c: nat, s: seq<Byte>)
    requires At(b, c, s) && |s| == 2
    ensures c + 2 <= |b| && b[c + 1] == s[1]
  {
    assert b[c..c + 2][1] == b[c + 1];
  }

  lemma NameHere(b: seq<Byte>, c: nat, name: seq<Byte>)
    requires IsName(name) && At(b, c, name)
    ensures NameAt(b, c) == Got(name, c + |name|)
  {
    hide IsName, NameAt;
    NameRead(b, c, c + |name|);
  }

  /** Where the parts of an operation region lie. */
  lemma RegionParts(b: seq<Byte>, c: nat, name: seq<Byte>, space: Byte, s: seq<Byte>, t: seq<Byte>)
    ensures At(b, c, [0x5B, 0x80] + (name + ([space] + (s + t)))) <==>
      && At(b, c, [0x5B, 0x80]) && At(b, c + 2, name) && At(b, c + 2 + |name|, [space])
      && At(b, c + 3 + |name|, s) && At(b, c + 3 + |name| + |s|, t)
    ensures |[0x5B, 0x80] + (name + ([space] + (s + t)))| == 3 + |name| + |s| + |t|
  {
    hide At;
    AtParts(b, c, [0x5B, 0x80], name + ([space] + (s + t)));
    AtParts(b, c + 2, name, [space] + (s + t));
    AtParts(b, c + 2 + |name|, [space], s + t);
    AtParts(b, c + 3 + |name|, s, t);
  }

  lemma RegionRead(b: seq<Byte>, c: nat, name: seq<Byte>, space: Byte, offset: Object, length: Object,
      utf8: seq<Byte> -> bool)
    requires IsName(name) && Proper(offset, utf8) && Proper(length, utf8)
    requires At(b, c, [0x5B, 0x80]) && At(b, c + 2, name) && At(b, c + 2 + |name|, [space])
    requires At(b, c + 3 + |name|, Bytes(offset)) && At(b, c + 3 + |name| + |Bytes(offset)|, Bytes(length))
    ensures c < |b|
    ensures TermAt(b, c, utf8) == Got(OpRegion(name), c + 3 + |name| + |Bytes(offset)| + |Bytes(length)|)
  {
    hide BodyAt, NameAt, ValueAt, IsName, Proper, At, Bytes, TermAt, RegionAt;
    var s, t, n := Bytes(offset), Bytes(length), c + 2 + |name|;
    OpcodeRead(b, n, [space]);
    ObjectRead(b, n + 1, offset, utf8);
    ObjectRead(b, n + 1 + |s|, length, utf8);
    NameHere(b, c + 2, name);
    RegionAtParts(b, c + 2, name, Meaning(offset), n + 1 + |s|, Meaning(length), n + 1 + |s| + |t|, utf8);
    RegionTerm(b, c, utf8);
  }

  lemma RegionTerm(b: seq<Byte>, c: nat, utf8: seq<Byte> -> bool)
    requires At(b, c, [0x5B, 0x80])
    ensures c + 2 <= |b| && TermAt(b, c, utf8) == RegionAt(b, c + 2, utf8)
  {
    hide RegionAt;
    OpcodeRead(b, c, [0x5B, 0x80]);
    SecondByte(b, c, [0x5B, 0x80]);
  }

  lemma RegionAtParts(b: seq<Byte>, c: nat, name: seq<Byte>, offset: Value, e: nat, length: Value, end: nat,
      utf8: seq<Byte> -> bool)
    requires NameAt(b, c) == Got(name, c + |name|) && c + |name| < |b|
    requires ValueAt(b, c + |name| + 1, utf8) == Got(offset, e) && ValueAt(b, e, utf8) == Got(length, end)
    ensures RegionAt(b, c, utf8) == Got(OpRegion(name), end)
  {
    hide NameAt, ValueAt;
  }

  /** What is read is written there. */
  lemma TermWritten(b: seq<Byte>, c: nat, utf8: seq<Byte> -> bool) returns (x: Text)
    requires c < |b| && TermAt(b, c, utf8).Got?
    ensures WritesTerm(x, b, c, TermAt(b, c, utf8), utf8)
  {
    hide BodyAt, NameAt, ValueAt, IsName, IsLength, Proper, At, WritesTerm, NamedAt, RegionAt;
    if b[c] in {0x10, 0x14} || (b[c] == 0x5B && b[c + 1] in {0x81, 0x82}) {
      x := PackageTerm(b, c, utf8);
    } else if b[c] == 0x08 {
      x := NamedFrom(b, c, utf8);
    } else if b[c] == 0x5B && b[c + 1] == 0x80 {
      x := RegionFrom(b, c, utf8);
    } else {
      x := SkippedTerm(b, c, utf8);
    }
  }

  lemma SkippedTerm(b: seq<Byte>, c: nat, utf8: seq<Byte> -> bool) returns (x: Text)
    requires c < |b| && TermAt(b, c, utf8).Got? && TermAt(b, c, utf8).value.Unsupported?
    ensures WritesTerm(x, b, c, TermAt(b, c, utf8), utf8)
  {
    hide BodyAt, NameAt, ValueAt;
    var end := TermAt(b, c, utf8).next;
    x := Skipped(b[c..end]);
    SliceAt(b, c, end);
  }

  lemma PackageTerm(b: seq<Byte>, c: nat, utf8: seq<Byte> -> bool) returns (x: Text)
    requires c < |b| && TermAt(b, c, utf8).Got?
    requires b[c] in {0x10, 0x14} || (b[c] == 0x5B && c + 1 < |b| && b[c + 1] in {0x81, 0x82})
    ensures WritesTerm(x, b, c, TermAt(b, c, utf8), utf8)
  {
    hide BodyAt, NameAt, ValueAt, IsName, IsLength, At, TextBytes;
    var op := if b[c] == 0x5B then [0x5B, b[c + 1]] else [b[c]];
    var flagged := op == [0x14] || op == [0x5B, 0x81];
    SliceAt(b, c, c + |op|);
    assert b[c..c + |op|] == op;
    x := PackageFrom(b, c, op, flagged);
  }

  lemma PackageFrom(b: seq<Byte>, c: nat, op: seq<Byte>, flagged: bool) returns (x: Text)
    requires At(b, c, op) && BodyAt(b, c + |op|, flagged).Got?
    ensures var body := BodyAt(b, c + |op|, flagged).value;
            && x.Package? && x.op == op && x.name == body.name && x.data == body.data
            && x.flags == (if flagged then [body.flags] else [])
            && IsName(x.name) && IsLength(x.len, |x.len| + |x.name| + |x.flags| + |x.data|)
            && At(b, c, TextBytes(x)) && BodyAt(b, c + |op|, flagged).next == c + |TextBytes(x)|
  {
    hide BodyAt, IsName, IsLength, At;
    assert c + |op| <= |b| by { AtInside(b, c, op); }
    var body := BodyAt(b, c + |op|, flagged).value;
    var len, flags := BodyWritten(b, c + |op|, flagged);
    x := Package(op, len, body.name, flags, body.data);
    AtParts(b, c, op, len + (body.name + (flags + body.data)));
  }

  /** The name that is read, as a piece of the bytes. */
  lemma NameFrom(b: seq<Byte>, c: nat)
    requires c <= |b| && NameAt(b, c).Got?
    ensures var n := NameAt(b, c).next;
            c < n <= |b| && NameAt(b, c).value == b[c..n] && IsName(b[c..n]) && At(b, c, b[c..n]) && |b[c..n]| == n - c
  {
    hide NameAt, IsName;
    ReadIsName(b, c);
    NameAdvances(b, c);
  }

  lemma NamedFrom(b: seq<Byte>, c: nat, utf8: seq<Byte> -> bool) returns (x: Text)
    requires c < |b| && b[c] == 0x08 && NamedAt(b, c + 1, utf8).Got?
    ensures WritesTerm(x, b, c, NamedAt(b, c + 1, utf8), utf8)
  {
    hide NameAt, ValueAt, IsName, Proper, At, Bytes;
    var n := NameAt(b, c + 1).next;
    NameFrom(b, c + 1);
    ByteAt(b, c);
    var item := ObjectWritten(b, n, utf8);
    x := Named(b[c + 1..n], item);
    AtParts(b, c + 1, b[c + 1..n], Bytes(item));
    AtParts(b, c, [0x08], b[c + 1..n] + Bytes(item));
    assert TextBytes(x) == [0x08] + (b[c + 1..n] + Bytes(item));
  }

  lemma RegionFrom(b: seq<Byte>, c: nat, utf8: seq<Byte> -> bool) returns (x: Text)
    requires c + 1 < |b| && b[c] == 0x5B && b[c + 1] == 0x80 && RegionAt(b, c + 2, utf8).Got?
    ensures WritesTerm(x, b, c, RegionAt(b, c + 2, utf8), utf8)
  {
    hide NameAt, ValueAt, IsName, Proper, At, Bytes;
    var n := NameAt(b, c + 2).next;
    NameFrom(b, c + 2);
    SliceAt(b, c, c + 2);
    assert b[c..c + 2] == [0x5B, 0x80];
    ByteAt(b, n);
    var offset := ObjectWritten(b, n + 1, utf8);
    var length := ObjectWritten(b, n + 1 + |Bytes(offset)|, utf8);
    x := Region(b[c + 2..n], b[n], offset, length);
    RegionParts(b, c, b[c + 2..n], b[n], Bytes(offset), Bytes(length));
  }

  /** A term is read exactly where one is written, and the cursor ends behind it. */
  lemma TermIff(b: seq<Byte>, c: nat, r: Read<Term>, utf8: seq<Byte> -> bool)
    requires c < |b| && r.Got?
    ensures TermAt(b, c, utf8) == r <==> exists x :: WritesTerm(x, b, c, r, utf8)
  {
    hide TermAt, ProperText, At;
    if TermAt(b, c, utf8) == r { var x := TermWritten(b, c, utf8); }
    if x :| WritesTerm(x, b, c, r, utf8) { TextRead(b, c, x, utf8); }
  }

  // ---------------------------------------------------------------- regions

  ghost predicate ProperTexts(xs: seq<Text>, utf8: seq<Byte> -> bool) {
    forall i :: 0 <= i < |xs| ==> ProperText(xs[i], utf8)
  }

  function AllBytes(xs: seq<Text>): seq<Byte> {
    if xs == [] then [] else TextBytes(xs[0]) + AllBytes(xs[1..])
  }

  ghost predicate MeanTerms(xs: seq<Text>, terms: seq<Term>, utf8: seq<Byte> -> bool) {
    ProperTexts(xs, utf8) && |terms| == |xs| && forall i :: 0 <= i < |xs| ==> terms[i] == TextMeaning(xs[i])
  }

  lemma {:induction false} TextsRead(b: seq<Byte>, c: nat, xs: seq<Text>, terms: seq<Term>, utf8: seq<Byte> -> bool)
    requires c <= |b| && MeanTerms(xs, terms, utf8) && b[c..] == AllBytes(xs)
    ensures Collected(TermsFrom(b, c, utf8)) == Ok(terms)
    decreases |xs|
  {
    hide TermAt, ProperText, TextBytes, TextMeaning;
    if xs != [] {
      var next := c + |TextBytes(xs[0])|;
      assert At(b, c, TextBytes(xs[0])) && b[next..] == AllBytes(xs[1..]) by {
        FrontAt(b, c, TextBytes(xs[0]), AllBytes(xs[1..]));
      }
      TextRead(b, c, xs[0], utf8);
      TextsRead(b, next, xs[1..], terms[1..], utf8);
      var rs := TermsFrom(b, c, utf8);
      assert rs[1..] == TermsFrom(b, next, utf8);
      assert terms == [terms[0]] + terms[1..];
    }
  }

  lemma FrontAt(b: seq<Byte>, c: nat, s: seq<Byte>, t: seq<Byte>)
    requires c <= |b| && b[c..] == s + t
    ensures At(b, c, s) && b[c + |s|..] == t
  {
    assert |b| == c + |s| + |t|;
    assert b[c..c + |s|] == (s + t)[..|s|];
    assert b[c + |s|..] == b[c..][|s|..];
  }

  lemma {:induction false} TextsWritten(b: seq<Byte>, c: nat, utf8: seq<Byte> -> bool) returns (xs: seq<Text>)
    requires c <= |b| && Collected(TermsFrom(b, c, utf8)).Ok?
    ensures MeanTerms(xs, Collected(TermsFrom(b, c, utf8)).value, utf8) && b[c..] == AllBytes(xs)
    decreases |b| - c
  {
    hide TermAt, ProperText, TextBytes, TextMeaning;
    if c == |b| {
      xs := [];
    } else {
      TermAdvances(b, c, utf8);
      var rs, next := TermsFrom(b, c, utf8), TermAt(b, c, utf8).next;
      assert rs[1..] == TermsFrom(b, next, utf8);
      var x := TermWritten(b, c, utf8);
      var rest := TextsWritten(b, next, utf8);
      xs := [x] + rest;
      assert xs[1..] == rest;
      assert b[c..] == b[c..next] + b[next..];
    }
  }

  /**
   * A region parses into these terms exactly when it is the texts of these terms one after
   * the other; it fails to parse exactly when it is no sequence of texts.
   */
  lemma RegionIff(b: seq<Byte>, terms: seq<Term>, utf8: seq<Byte> -> bool)
    ensures RegionTerms(b, utf8) == Ok(terms) <==> exists xs :: MeanTerms(xs, terms, utf8) && AllBytes(xs) == b
  {
    hide MeanTerms, AllBytes;
    assert b[0..] == b;
    if RegionTerms(b, utf8) == Ok(terms) { var xs := TextsWritten(b, 0, utf8); }
    if xs :| MeanTerms(xs, terms, utf8) && AllBytes(xs) == b { TextsRead(b, 0, xs, terms, utf8); }
  }
}
