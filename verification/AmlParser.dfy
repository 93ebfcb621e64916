/** The AML parser: a cursor over a byte string that every method moves on. */
module AmlParser {
  import opened Wrappers
  import opened AmlGrammar

  datatype Result<+T> = Ok(value: T) | Err

  /** A method returned, and left the cursor, as the grammar says. */
  ghost predicate As<T(!new)>(spec: Read<T>, r: Result<T>, cursor: nat) {
    match spec
    case Got(value, next) => r == Ok(value) && cursor == next
    case Fail(next) => r == Err && cursor == next
  }

  /** What the i-th byte behind the lead byte counts. */
  function Weight(i: nat): nat
    requires i < 3
  {
    if i == 0 then 16 else if i == 1 then 4096 else 1048576
  }

  /** The length so far, with i of the bytes behind the lead byte taken in. */
  function FirstBytes(b: seq<Byte>, start: nat, i: nat): nat {
    Digits(Digit(b, start) % 16, if i > 0 then Digit(b, start + 1) else 0,
           if i > 1 then Digit(b, start + 2) else 0, if i > 2 then Digit(b, start + 3) else 0)
  }

  lemma FirstLead(b: seq<Byte>, start: nat)
    ensures FirstBytes(b, start, 0) == Digit(b, start) % 16
  {
  }

  lemma FirstStep(b: seq<Byte>, start: nat, i: nat)
    requires i < 3
    ensures FirstBytes(b, start, i + 1) == FirstBytes(b, start, i)
              + (if start + 1 + i < |b| then b[start + 1 + i] else 0) * Weight(i)
  {
  }

  lemma AllBytes(b: seq<Byte>, start: nat, count: nat)
    requires 0 < count <= 3 && start + 1 + count <= |b|
    ensures PkgValue(b[start..start + 1 + count]) == FirstBytes(b, start, count)
  {
    var s := b[start..start + 1 + count];
    assert forall i :: 0 <= i <= count ==> Digit(s, i) == Digit(b, start + i);
  }

  class Parser {
    const bytes: seq<Byte>
    const utf8: seq<Byte> -> bool
    var cursor: nat

    ghost predicate Valid()
      reads this
    {
      cursor <= |bytes|
    }

    constructor (bytes: seq<Byte>, utf8: seq<Byte> -> bool)
      ensures Valid() && this.bytes == bytes && this.utf8 == utf8 && cursor == 0
    {
      this.bytes, this.utf8, cursor := bytes, utf8, 0;
    }

    method ReadU8() returns (r: Result<Byte>)
      requires Valid()
      modifies this
      ensures Valid()
      ensures As(if old(cursor) < |bytes| then Got(bytes[old(cursor)], old(cursor) + 1)
                else Fail(old(cursor)), r, cursor)
    {
      if cursor < |bytes| {
        r := Ok(bytes[cursor]);
        cursor := cursor + 1;
      } else {
        r := Err;
      }
    }

    method TakeBytes(len: nat) returns (r: Result<seq<Byte>>)
      requires Valid()
      modifies this
      ensures Valid()
      ensures As(if old(cursor) + len <= |bytes| then Got(bytes[old(cursor)..old(cursor) + len], old(cursor) + len)
                 else Fail(old(cursor)), r, cursor)
    {
      if cursor + len <= |bytes| {
        r := Ok(bytes[cursor..cursor + len]);
        cursor := cursor + len;
      } else {
        r := Err;
      }
    }

    /** The bytes behind the lead byte do not overlap in the result, so or-ing them in is adding them. */
    method ReadPkgLength() returns (r: Result<nat>)
      requires Valid()
      modifies this
      ensures Valid() && As(PkgAt(bytes, old(cursor)), r, cursor)
    {
      ghost var start := cursor;
      var lead := ReadU8();
      if lead.Err? { return Err; }
      var count := lead.value / 64;
      if count == 0 {
        assert bytes[start..start + 1][0] == lead.value;
        return Ok(lead.value % 64);
      }
      FirstLead(bytes, start);
      r := ReadFollowing(start, count, lead.value % 16);
    }

    /** The `count` bytes behind the lead byte at `start`. */
    method ReadFollowing(ghost start: nat, count: nat, low: nat) returns (r: Result<nat>)
      requires Valid() && 0 < count <= 3 && cursor == start + 1 && low == FirstBytes(bytes, start, 0)
      modifies this
      ensures Valid()
      ensures As(if start + 1 + count <= |bytes| then Got(PkgValue(bytes[start..start + 1 + count]), start + 1 + count)
                 else Fail(|bytes|), r, cursor)
    {
      hide FirstBytes, PkgValue, Weight, Digit;
      var length := low;
      for i := 0 to count
        invariant cursor == start + 1 + i <= |bytes|
        invariant length == FirstBytes(bytes, start, i)
      {
        var byte := ReadU8();
        if byte.Err? { return Err; }
        FirstStep(bytes, start, i);
        length := length + byte.value * Weight(i);
      }
      AllBytes(bytes, start, count);
      return Ok(length);
    }

    method ReadNamePath() returns (r: Result<seq<Byte>>)
      requires Valid()
      modifies this
      ensures Valid() && As(NameAt(bytes, old(cursor)), r, cursor)
    {
      var start := cursor;
      while cursor < |bytes| && (bytes[cursor] == ROOT || bytes[cursor] == PARENT)
        invariant start <= cursor <= |bytes| && SkipPrefix(bytes, start) == SkipPrefix(bytes, cursor)
      {
        cursor := cursor + 1;
      }
      var prefix := ReadU8();
      if prefix.Err? { return Err; }
      if prefix.value == 0x00 {
      } else if prefix.value == 0x2E {
        var two := TakeBytes(8);
        if two.Err? { return Err; }
      } else if prefix.value == 0x2F {
        var count := ReadU8();
        if count.Err? { return Err; }
        var n: nat := count.value;
        var many := TakeBytes(n * 4);
        if many.Err? { return Err; }
      } else {
        var one := TakeBytes(3);
        if one.Err? { return Err; }
      }
      return Ok(bytes[start..cursor]);
    }

    /** The rest of a package of length `len` that began at `start`. */
    method TakeRest(start: nat, len: nat) returns (r: Result<seq<Byte>>)
      requires Valid() && start <= cursor
      modifies this
      ensures Valid() && As(RestAt(bytes, start, len, old(cursor)), r, cursor)
    {
      var consumed := cursor - start;
      if len < consumed { return Err; }
      r := TakeBytes(len - consumed);
    }

    method ReadInteger(n: nat) returns (r: Result<Value>)
      requires Valid()
      modifies this
      ensures Valid() && As(IntAt(bytes, old(cursor), n), r, cursor)
    {
      var b := TakeBytes(n);
      r := if b.Err? then Err else Ok(Integer(LittleEndian(b.value)));
    }

    method ReadString() returns (r: Result<Value>)
      requires Valid()
      modifies this
      ensures Valid() && As(StringAt(bytes, old(cursor), utf8), r, cursor)
    {
      var start := cursor;
      var b := ReadU8();
      while b.Ok? && b.value != 0
        invariant start <= cursor <= |bytes| && (b.Ok? ==> start < cursor && bytes[cursor - 1] == b.value)
        invariant forall i :: start <= i < (if b.Ok? then cursor - 1 else cursor) ==> bytes[i] != 0
        invariant b.Err? ==> cursor == |bytes|
        decreases |bytes| - cursor, b.Ok?
      {
        b := ReadU8();
      }
      ZeroIs(bytes, start, if b.Ok? then cursor - 1 else cursor);
      if b.Err? { return Err; }
      var text := bytes[start..cursor - 1];
      r := if utf8(text) then Ok(String(text)) else Err;
    }

    method ParseDataObject() returns (r: Result<Value>)
      requires Valid()
      modifies this
      ensures Valid() && As(ValueAt(bytes, old(cursor), utf8), r, cursor)
      decreases |bytes| - cursor
    {
      hide NameAt, PkgAt, StringAt, RestAt, IntAt;
      var b := ReadU8();
      if b.Err? { return Err; }
      var op := b.value;
      if op == 0x00 { return Ok(Zero); }
      if op == 0x01 { return Ok(One); }
      if op == 0xFF { return Ok(Ones); }
      if op == 0x0A { r := ReadInteger(1); return; }
      if op == 0x0B { r := ReadInteger(2); return; }
      if op == 0x0C { r := ReadInteger(4); return; }
      if op == 0x0E { r := ReadInteger(8); return; }
      if op == 0x0D { r := ReadString(); return; }
      if 0x11 <= op <= 0x13 { r := ParseBuffer(op); return; }
      if StartsName(op) {
        cursor := cursor - 1;
        var name := ReadNamePath();
        r := if name.Err? then Err else Ok(NamePath(name.value));
        return;
      }
      if op == 0x5B {
        var ext := ReadU8();
        r := if ext.Err? then Err else Ok(Integer(0x5B));
        return;
      }
      return Ok(Integer(op));
    }

    /** A buffer or package behind its opcode: the size is read and dropped, the rest is the data. */
    method ParseBuffer(op: Byte) returns (r: Result<Value>)
      requires Valid() && 0 < cursor && bytes[cursor - 1] == op && 0x11 <= op <= 0x13
      modifies this
      ensures Valid() && As(ValueAt(bytes, old(cursor) - 1, utf8), r, cursor)
      decreases |bytes| - cursor
    {
      hide NameAt, StringAt, RestAt, IntAt;
      var start := cursor;
      var len := ReadPkgLength();
      if len.Err? { return Err; }
      if op == 0x12 {
        var count := ReadU8();
        if count.Err? { return Err; }
      } else {
        var size := ParseDataObject();
        if size.Err? { return Err; }
      }
      var data := TakeRest(start, len.value);
      r := if data.Err? then Err else Ok(Buffer(data.value));
    }

    method ParseBody(flagged: bool) returns (r: Result<Body>)
      requires Valid()
      modifies this
      ensures Valid() && As(BodyAt(bytes, old(cursor), flagged), r, cursor)
    {
      hide NameAt;
      var start := cursor;
      var len := ReadPkgLength();
      if len.Err? { return Err; }
      NameAdvances(bytes, cursor);
      var name := ReadNamePath();
      if name.Err? { return Err; }
      var flags: Byte := 0;
      if flagged {
        var f := ReadU8();
        if f.Err? { return Err; }
        flags := f.value;
      }
      var data := TakeRest(start, len.value);
      r := if data.Err? then Err else Ok(Body(name.value, flags, data.value));
    }

    method ParseRegion() returns (r: Result<Term>)
      requires Valid()
      modifies this
      ensures Valid() && As(RegionAt(bytes, old(cursor), utf8), r, cursor)
    {
      hide NameAt, ValueAt;
      var name := ReadNamePath();
      if name.Err? { return Err; }
      var space := ReadU8();
      if space.Err? { return Err; }
      var offset := ParseDataObject();
      if offset.Err? { return Err; }
      var length := ParseDataObject();
      r := if length.Err? then Err else Ok(OpRegion(name.value));
    }

    /** The next term, none at the end. On input that is left, the cursor always moves on. */
    method ParseNext() returns (r: Result<Option<Term>>)
      requires Valid()
      modifies this
      ensures Valid() && (old(cursor) < |bytes| ==> old(cursor) < cursor)
      ensures old(cursor) == |bytes| ==> r == Ok(None) && cursor == old(cursor)
      ensures old(cursor) < |bytes| ==>
                match TermAt(bytes, old(cursor), utf8)
                case Got(t, next) => r == Ok(Some(t)) && cursor == next
                case Fail(next) => r == Err && cursor == next
    {
      hide NameAt, ValueAt, BodyAt, RegionAt;
      if cursor >= |bytes| { return Ok(None); }
      TermAdvances(bytes, cursor, utf8);
      var b := ReadU8();
      var op := b.value;
      if op == 0x10 {
        var body := ParseBody(false);
        r := if body.Err? then Err else Ok(Some(Scope(body.value.name, body.value.data)));
      } else if op == 0x08 {
        var name := ReadNamePath();
        if name.Err? { return Err; }
        var value := ParseDataObject();
        r := if value.Err? then Err else Ok(Some(Name(name.value, value.value)));
      } else if op == 0x14 {
        var body := ParseBody(true);
        r := if body.Err? then Err else Ok(Some(Method(body.value.name, body.value.flags, body.value.data)));
      } else if op == 0x5B {
        var ext := ReadU8();
        if ext.Err? { return Err; }
        if ext.value == 0x80 {
          var region := ParseRegion();
          r := if region.Err? then Err else Ok(Some(region.value));
        } else if ext.value == 0x81 {
          var body := ParseBody(true);
          r := if body.Err? then Err else Ok(Some(Field));
        } else if ext.value == 0x82 {
          var body := ParseBody(false);
          r := if body.Err? then Err else Ok(Some(Device(body.value.name, body.value.data)));
        } else {
          r := Ok(Some(Unsupported(ext.value)));
        }
      } else {
        r := Ok(Some(Unsupported(op)));
      }
    }
  }

  lemma {:induction false} ZeroIs(b: seq<Byte>, c: nat, z: nat)
    requires c <= z <= |b| && (z < |b| ==> b[z] == 0) && forall i :: c <= i < z ==> b[i] != 0
    ensures FindZero(b, c) == z
    decreases z - c
  {
    if c < z { ZeroIs(b, c + 1, z); }
  }
}
