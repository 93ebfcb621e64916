/** The LPI allocator: a bitmap of interrupt numbers with a hint where to look first. */
module LpiAlloc {
  import opened Wrappers

  /** A 64-bit word, lowest bit first. */
  type Word = w: seq<bool> | |w| == 64 witness seq(64, _ => false)

  const EMPTY: Word := seq(64, _ => false)

  // ---------------------------------------------------------------- bitmaps

  predicate Bit(bitmap: seq<Word>, offset: nat) {
    offset / 64 < |bitmap| && bitmap[offset / 64][offset % 64]
  }

  /** The bitmap is just long enough for `count` numbers, and no bit beyond them is set. */
  ghost predicate Covers(bitmap: seq<Word>, count: nat) {
    && 64 * |bitmap| - 64 < count <= 64 * |bitmap|
    && forall o: nat :: Bit(bitmap, o) ==> o < count
  }

  /** Word i has no free number. */
  ghost predicate Full(bitmap: seq<Word>, count: nat, i: nat) {
    forall o: nat :: o < count && o / 64 == i ==> Bit(bitmap, o)
  }

  ghost predicate FullBelow(bitmap: seq<Word>, count: nat, n: nat) {
    forall i: nat :: i < n ==> Full(bitmap, count, i)
  }

  function Change(bitmap: seq<Word>, i: nat, b: nat, value: bool): (r: seq<Word>)
    requires i < |bitmap| && b < 64
  {
    var word: Word := bitmap[i][b := value];
    bitmap[i := word]
  }

  lemma BitAt(bitmap: seq<Word>, i: nat, b: nat)
    requires i < |bitmap| && b < 64
    ensures Bit(bitmap, 64 * i + b) == bitmap[i][b]
  {
    assert (64 * i + b) / 64 == i && (64 * i + b) % 64 == b;
  }

  lemma ChangeLength(bitmap: seq<Word>, i: nat, b: nat, value: bool)
    requires i < |bitmap| && b < 64
    ensures |Change(bitmap, i, b, value)| == |bitmap|
  {
  }

  lemma ChangeBack(bitmap: seq<Word>, i: nat, b: nat)
    requires i < |bitmap| && b < 64 && !bitmap[i][b]
    ensures |Change(bitmap, i, b, true)| == |bitmap| && Change(Change(bitmap, i, b, true), i, b, false) == bitmap
  {
    assert bitmap[i][b := true][b := false] == bitmap[i];
  }

  lemma ChangeBits(bitmap: seq<Word>, i: nat, b: nat, value: bool, o: nat)
    requires i < |bitmap| && b < 64
    ensures Bit(Change(bitmap, i, b, value), o) == if o == 64 * i + b then value else Bit(bitmap, o)
  {
    assert o == 64 * (o / 64) + o % 64;
    assert (64 * i + b) / 64 == i && (64 * i + b) % 64 == b;
  }

  /** Setting a bit fills no word less; clearing one empties no word but its own. */
  lemma ChangeFull(bitmap: seq<Word>, count: nat, i: nat, b: nat, value: bool, n: nat)
    requires i < |bitmap| && b < 64 && FullBelow(bitmap, count, n) && (value || n <= i)
    ensures FullBelow(Change(bitmap, i, b, value), count, n)
  {
    var r := Change(bitmap, i, b, value);
    forall w: nat | w < n ensures Full(r, count, w) {
      assert Full(bitmap, count, w);
      forall o: nat | o < count && o / 64 == w ensures Bit(r, o) { ChangeBits(bitmap, i, b, value, o); }
    }
  }

  lemma ChangeCovers(bitmap: seq<Word>, count: nat, i: nat, b: nat, value: bool)
    requires i < |bitmap| && b < 64 && Covers(bitmap, count) && (value ==> 64 * i + b < count)
    ensures Covers(Change(bitmap, i, b, value), count)
  {
    forall o: nat | Bit(Change(bitmap, i, b, value), o) ensures o < count { ChangeBits(bitmap, i, b, value, o); }
  }

  /** Everything about setting one clear bit, at a word below which nothing is free. */
  lemma Taken(bitmap: seq<Word>, count: nat, i: nat, b: nat)
    requires i < |bitmap| && b < 64 && Covers(bitmap, count) && FullBelow(bitmap, count, i) && 64 * i + b < count
    ensures var r := Change(bitmap, i, b, true);
            && |r| == |bitmap| && Covers(r, count) && FullBelow(r, count, i)
            && forall o: nat :: Bit(r, o) <==> Bit(bitmap, o) || o == 64 * i + b
  {
    ChangeFull(bitmap, count, i, b, true, i);
    ChangeCovers(bitmap, count, i, b, true);
    forall o: nat { ChangeBits(bitmap, i, b, true, o); }
  }

  /** The lowest clear bit of the first word that has one is the lowest of all. */
  lemma LowestFree(bitmap: seq<Word>, count: nat, i: nat, b: nat, o: nat)
    requires i < |bitmap| && b < 64 && FullBelow(bitmap, count, i) && 64 * i + b < count
    requires forall j :: 0 <= j < b ==> bitmap[i][j]
    requires o < 64 * i + b
    ensures Bit(bitmap, o)
  {
    if o / 64 < i {
      assert Full(bitmap, count, o / 64);
    } else {
      BitAt(bitmap, i, o - 64 * i);
    }
  }

  /** A word whose lowest clear bit lies beyond the count is full, and the last. */
  lemma NoRoom(bitmap: seq<Word>, count: nat, i: nat, b: nat)
    requires i < |bitmap| && b < 64 && Covers(bitmap, count) && count <= 64 * i + b
    requires forall j :: 0 <= j < b ==> bitmap[i][j]
    ensures Full(bitmap, count, i) && i == |bitmap| - 1
  {
    forall o: nat | o < count && o / 64 == i ensures Bit(bitmap, o) {
      assert o == 64 * i + o % 64;
      BitAt(bitmap, i, o % 64);
    }
  }

  lemma OffsetFits(bitmap: seq<Word>, count: nat, offset: nat)
    requires Covers(bitmap, count) && offset < count
    ensures offset / 64 < |bitmap| && offset == 64 * (offset / 64) + offset % 64
  {
  }

  lemma AllOnes(bitmap: seq<Word>, count: nat, i: nat)
    requires i < |bitmap| && forall j :: 0 <= j < 64 ==> bitmap[i][j]
    ensures Full(bitmap, count, i)
  {
  }

  lemma FewerBelow(bitmap: seq<Word>, count: nat, n: nat, m: nat)
    requires FullBelow(bitmap, count, n) && m <= n
    ensures FullBelow(bitmap, count, m)
  {
  }

  lemma ExtendBelow(bitmap: seq<Word>, count: nat, n: nat)
    requires FullBelow(bitmap, count, n) && Full(bitmap, count, n)
    ensures FullBelow(bitmap, count, n + 1)
  {
  }

  /** With every word full, every number is in use. */
  lemma NoneFree(bitmap: seq<Word>, count: nat, o: nat)
    requires Covers(bitmap, count) && FullBelow(bitmap, count, |bitmap|) && o < count
    ensures Bit(bitmap, o)
  {
    assert Full(bitmap, count, o / 64);
  }

  /** Where the scan looks in its k-th turn, as long as it has not come round. */
  lemma Scan(hint: nat, k: nat, words: nat)
    requires hint < words && k < words
    ensures hint + k < words ==> (hint + k) % words == hint + k
    ensures hint + k >= words ==> (hint + k) % words == hint + k - words
  {
    if hint + k >= words
        { assert (hint + k) % words == (hint + k - words) % words by { Wrap(hint + k - words, words); } }
  }

  lemma Wrap(x: nat, n: nat)
    requires x < n
    ensures (x + n) % n == x
  {
    assert (x + n) / n == 1;
  }

  /** The number of set bits below the lowest clear one. */
  method TrailingOnes(word: Word) returns (bit: nat)
    requires exists i :: 0 <= i < 64 && !word[i]
    ensures bit < 64 && !word[bit] && forall i :: 0 <= i < bit ==> word[i]
  {
    bit := 0;
    while word[bit]
      invariant bit < 64 && forall i :: 0 <= i < bit ==> word[i]
      decreases 64 - bit
    {
      bit := bit + 1;
    }
  }

  // ---------------------------------------------------------------- the allocator

  class LpiAllocator {
    var bitmap: seq<Word>
    const base: nat
    const max: nat
    var hint: nat

    /** No number is free in a word below the hint. */
    ghost predicate Valid()
      reads this
    {
      && base <= max < 0xFFFF_FFC0
      && Covers(bitmap, max - base + 1) && hint < |bitmap|
      && FullBelow(bitmap, max - base + 1, hint)
    }

    ghost predicate Used(id: nat)
      reads this
    {
      base <= id <= max && Bit(bitmap, id - base)
    }

    ghost predicate AllUsed()
      reads this
    {
      forall id: nat :: base <= id <= max ==> Used(id)
    }

    constructor (baseId: nat, maxId: nat)
      requires baseId <= maxId < 0xFFFF_FFC0
      ensures Valid() && base == baseId && max == maxId && forall id: nat :: !Used(id)
    {
      base, max, hint := baseId, maxId, 0;
      bitmap := seq((maxId - baseId + 1 + 63) / 64, _ => EMPTY);
    }

    /** The lowest free number, or none exactly when every number in range is in use. */
    method Alloc() returns (r: Option<nat>)
      requires Valid()
      modifies this
      ensures Valid()
      ensures r.None? <==> old(AllUsed())
      ensures r.None? ==> bitmap == old(bitmap)
      ensures r.Some? ==> base <= r.value <= max && !old(Used(r.value))
      ensures r.Some? ==> forall id: nat :: base <= id < r.value ==> old(Used(id))
      ensures r.Some? ==> forall id: nat :: Used(id) <==> old(Used(id)) || id == r.value
    {
      hide Covers, FullBelow, Full, Bit, Change;
      var words := |bitmap|;
      var count := max - base + 1;
      ghost var reached := hint;
      for k := 0 to words
        invariant Valid() && bitmap == old(bitmap)
        invariant reached == words || (hint <= reached && reached == hint + k)
        invariant reached <= words && FullBelow(bitmap, count, reached)
      {
        Scan(hint, k, words);
        var i := (hint + k) % words;
        var word := bitmap[i];
        if exists b :: 0 <= b < 64 && !word[b] {
          var bit := TrailingOnes(word);
          BitAt(bitmap, i, bit);
          FewerBelow(bitmap, count, reached, i);
          ChangeBack(bitmap, i, bit);
          bitmap := Change(bitmap, i, bit, true);
          hint := i;
          var id := base + 64 * i + bit;
          if id > max {
            bitmap := Change(bitmap, i, bit, false);
            NoRoom(bitmap, count, i, bit);
            if reached < words {
              ExtendBelow(bitmap, count, reached);
              reached := words;
            }
            continue;
          }
          Taken(old(bitmap), count, i, bit);
          assert base <= id <= max && !old(Used(id));
          forall x: nat | base <= x < id ensures old(Used(x)) { LowestFree(old(bitmap), count, i, bit, x - base); }
          return Some(id);
        }
        AllOnes(bitmap, count, i);
        if reached < words {
          ExtendBelow(bitmap, count, reached);
          reached := reached + 1;
        }
      }
      forall id: nat | base <= id <= max ensures old(Used(id)) { NoneFree(bitmap, count, id - base); }
      return None;
    }

    /** Takes a given number, unless it is out of range or in use. */
    method Reserve(id: nat) returns (ok: bool)
      requires Valid()
      modifies this
      ensures Valid() && hint == old(hint)
      ensures ok <==> base <= id <= max && !old(Used(id))
      ensures forall x: nat :: Used(x) <==> old(Used(x)) || (ok && x == id)
    {
      hide Covers, FullBelow, Full, Change;
      if !(base <= id <= max) { return false; }
      var offset := id - base;
      var i, bit := offset / 64, offset % 64;
      OffsetFits(bitmap, max - base + 1, offset);
      if bitmap[i][bit] { return false; }
      ChangeLength(bitmap, i, bit, true);
      ChangeFull(bitmap, max - base + 1, i, bit, true, hint);
      ChangeCovers(bitmap, max - base + 1, i, bit, true);
      forall o: nat { ChangeBits(bitmap, i, bit, true, o); }
      bitmap := Change(bitmap, i, bit, true);
      ok := true;
    }

    /** Gives a number back; one out of range is ignored. The hint moves back to its word. */
    method Free(id: nat)
      requires Valid()
      modifies this
      ensures Valid()
      ensures forall x: nat :: Used(x) <==> old(Used(x)) && x != id
      ensures hint == if base <= id <= max && (id - base) / 64 < old(hint) then (id - base) / 64 else old(hint)
    {
      hide Covers, FullBelow, Full, Change;
      if !(base <= id <= max) { return; }
      var offset := id - base;
      var i, bit := offset / 64, offset % 64;
      OffsetFits(bitmap, max - base + 1, offset);
      ChangeCovers(bitmap, max - base + 1, i, bit, false);
      forall o: nat { ChangeBits(bitmap, i, bit, false, o); }
      FewerBelow(bitmap, max - base + 1, hint, if i < hint then i else hint);
      ChangeFull(bitmap, max - base + 1, i, bit, false, if i < hint then i else hint);
      ChangeLength(bitmap, i, bit, false);
      bitmap := Change(bitmap, i, bit, false);
      if i < hint { hint := i; }
    }
  }
}
