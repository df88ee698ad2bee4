/**
 The minter index (`src/storage/leveldb/indexes.ts`, `src/storage/state/minters.ts`):
 256 counters over the key space of a LevelDB, and the choice of a slot's minter
 through them.

 A level is the sequence of its keys in byte order. `None` stands for a throw.
 */
module MinterIndex {
  import opened Common

  type Key = bytes

  const RANGES: nat := 256

  /** Byte order, as LevelDB sorts keys and as `gte` and `lte` compare keys of one length. */
  predicate Le(a: Key, b: Key) {
    if a == [] then true
    else if b == [] then false
    else a[0] < b[0] || (a[0] == b[0] && Le(a[1..], b[1..]))
  }

  function FirstPossibleKey(prefix: bytes, n: nat, step: byte): Key
    requires n > 0
  {
    prefix + [step] + Repeat(0, n - 1)
  }

  function LastPossibleKey(prefix: bytes, n: nat, step: byte): Key
    requires n > 0
  {
    prefix + [step] + Repeat(0xff, n - 1)
  }

  predicate InRange(prefix: bytes, n: nat, step: byte, key: Key)
    requires n > 0
  {
    Le(FirstPossibleKey(prefix, n, step), key) && Le(key, LastPossibleKey(prefix, n, step))
  }

  /** The key is prefixed, and `step` is the byte behind the prefix. */
  predicate Has(prefix: bytes, step: byte, key: Key) {
    prefix < key && key[|prefix|] == step
  }

  lemma {:induction false} LeZeros(key: Key, n: nat)
    requires |key| == n
    ensures Le(Repeat(0, n), key) && Le(key, Repeat(0xff, n))
  {
    if n > 0 {
      LeZeros(key[1..], n - 1);
      assert Repeat(0, n)[1..] == Repeat(0, n - 1) && Repeat(0xff, n)[1..] == Repeat(0xff, n - 1);
    }
  }

  /** A range holds exactly the prefixed keys with its byte: the 256 ranges partition them. */
  lemma {:induction false} InRangeIff(prefix: bytes, n: nat, step: byte, key: Key)
    requires n > 0 && |key| == |prefix| + n
    ensures InRange(prefix, n, step, key) <==> Has(prefix, step, key)
  {
    var first, last := FirstPossibleKey(prefix, n, step), LastPossibleKey(prefix, n, step);
    if prefix == [] {
      assert first == [step] + Repeat(0, n - 1) && last == [step] + Repeat(0xff, n - 1);
      assert first[1..] == Repeat(0, n - 1) && last[1..] == Repeat(0xff, n - 1);
      LeZeros(key[1..], n - 1);
    } else {
      InRangeIff(prefix[1..], n, step, key[1..]);
      assert first[1..] == FirstPossibleKey(prefix[1..], n, step);
      assert last[1..] == LastPossibleKey(prefix[1..], n, step);
      assert prefix < key <==> prefix[0] == key[0] && prefix[1..] < key[1..];
    }
  }

  /** The keys are in strict byte order and all `length` bytes long. */
  ghost predicate IsLevel(keys: seq<Key>, length: nat) {
    (forall i :: 0 <= i < |keys| ==> |keys[i]| == length) &&
    forall i, j :: 0 <= i < j < |keys| ==> Le(keys[i], keys[j]) && keys[i] != keys[j]
  }

  /** `createKeyStream({gte, lte})` over a range. */
  function Stream(keys: seq<Key>, prefix: bytes, n: nat, step: byte): seq<Key>
    requires n > 0
  {
    if keys == [] then []
    else if InRange(prefix, n, step, keys[0]) then [keys[0]] + Stream(keys[1..], prefix, n, step)
    else Stream(keys[1..], prefix, n, step)
  }

  lemma {:induction false} StreamOfNone(prefix: bytes, n: nat, step: byte)
    requires n > 0
    ensures Stream([], prefix, n, step) == []
  {
  }

  lemma {:induction false} StreamFirst(keys: seq<Key>, prefix: bytes, n: nat, step: byte)
    requires n > 0 && keys != []
    ensures Stream(keys, prefix, n, step) ==
            (if InRange(prefix, n, step, keys[0]) then [keys[0]] else []) + Stream(keys[1..], prefix, n, step)
  {
  }

  lemma {:induction false} StreamRest(stream: seq<Key>, count: nat, rest: seq<Key>, key: Key)
    requires count <= |stream| && stream[count..] == [key] + rest
    ensures count < |stream| && stream[count] == key && stream[count + 1..] == rest
  {
    assert stream[count..][0] == key && stream[count..][1..] == rest;
    assert stream[count..][1..] == stream[count + 1..];
  }

  /** The prefixed keys in order. */
  function Prefixed(keys: seq<Key>, prefix: bytes): seq<Key> {
    if keys == [] then []
    else if prefix < keys[0] then [keys[0]] + Prefixed(keys[1..], prefix)
    else Prefixed(keys[1..], prefix)
  }

  /** The prefixed keys of the ranges below `step`. */
  function Below(keys: seq<Key>, prefix: bytes, step: nat): seq<Key> {
    if keys == [] then []
    else if prefix < keys[0] && keys[0][|prefix|] < step then [keys[0]] + Below(keys[1..], prefix, step)
    else Below(keys[1..], prefix, step)
  }

  // ---------------------------------------------------------------- the ranges in order are the keys in order

  lemma {:induction false} LePrefixed(prefix: bytes, a: Key, b: Key)
    requires prefix < a && prefix < b && Le(a, b)
    ensures a[|prefix|] <= b[|prefix|]
  {
    if prefix != [] {
      LePrefixed(prefix[1..], a[1..], b[1..]);
    }
  }

  /** Behind a key of range `step` no key of a lower range follows. */
  lemma {:induction false} NothingBelow(keys: seq<Key>, length: nat, prefix: bytes, step: nat, first: Key)
    requires IsLevel([first] + keys, length) && prefix < first && step <= first[|prefix|]
    ensures Below(keys, prefix, step) == []
    decreases keys
  {
    if keys != [] {
      assert ([first] + keys)[1] == keys[0];
      assert Le(([first] + keys)[0], ([first] + keys)[1]);
      if prefix < keys[0] {
        LePrefixed(prefix, first, keys[0]);
      }
      LevelTail([first] + keys, length, 1);
      NothingBelow(keys[1..], length, prefix, step, first);
    }
  }

  lemma {:induction false} LevelTail(keys: seq<Key>, length: nat, i: nat)
    requires IsLevel(keys, length) && i < |keys|
    ensures IsLevel(keys[..i] + keys[i + 1..], length)
  {
  }

  lemma {:induction false} BelowNext(keys: seq<Key>, prefix: bytes, n: nat, step: byte)
    requires n > 0 && IsLevel(keys, |prefix| + n)
    ensures Below(keys, prefix, step + 1) == Below(keys, prefix, step) + Stream(keys, prefix, n, step)
  {
    hide InRange, IsLevel;
    if keys != [] {
      var k, rest := keys[0], keys[1..];
      LevelTail(keys, |prefix| + n, 0);
      assert keys[..0] + rest == rest;
      BelowNext(rest, prefix, n, step);
      InRangeIff(prefix, n, step, k) by { FirstLength(keys, |prefix| + n); }
      if Has(prefix, step, k) {
        assert [k] + rest == keys;
        NothingBelow(rest, |prefix| + n, prefix, step, k);
        assert Below(rest, prefix, step + 1) == Stream(rest, prefix, n, step);
      } else if prefix < k && k[|prefix|] < step {
        assert [k] + (Below(rest, prefix, step) + Stream(rest, prefix, n, step)) ==
               [k] + Below(rest, prefix, step) + Stream(rest, prefix, n, step);
      }
    }
  }

  lemma {:induction false} FirstLength(keys: seq<Key>, length: nat)
    requires keys != [] && IsLevel(keys, length)
    ensures |keys[0]| == length
  {
  }

  lemma {:induction false} BelowAll(keys: seq<Key>, prefix: bytes)
    ensures Below(keys, prefix, 0) == [] && Below(keys, prefix, RANGES) == Prefixed(keys, prefix)
  {
    if keys != [] {
      BelowAll(keys[1..], prefix);
    }
  }

  // ---------------------------------------------------------------- counters

  function Sum(sizes: seq<nat>): nat {
    if sizes == [] then 0 else Sum(sizes[..|sizes| - 1]) + sizes[|sizes| - 1]
  }

  /** Every counter is the number of keys in its range. */
  ghost predicate Counts(sizes: seq<nat>, keys: seq<Key>, prefix: bytes, n: nat)
    requires n > 0
  {
    |sizes| == RANGES && forall r: byte :: sizes[r] == |Stream(keys, prefix, n, r)|
  }

  lemma {:induction false} SumIsBelow(sizes: seq<nat>, keys: seq<Key>, prefix: bytes, n: nat, r: nat)
    requires n > 0 && IsLevel(keys, |prefix| + n) && Counts(sizes, keys, prefix, n) && r <= RANGES
    ensures Sum(sizes[..r]) == |Below(keys, prefix, r)|
  {
    if r == 0 {
      BelowAll(keys, prefix);
    } else {
      SumIsBelow(sizes, keys, prefix, n, r - 1);
      BelowNext(keys, prefix, n, r - 1);
      assert sizes[..r][..r - 1] == sizes[..r - 1];
    }
  }

  /** Key number `offset` of range `r` is key number `Sum(sizes[..r]) + offset` of all prefixed keys. */
  lemma {:induction false} BelowIsPrefix(keys: seq<Key>, prefix: bytes, n: nat, r: nat)
    requires n > 0 && IsLevel(keys, |prefix| + n) && r <= RANGES
    ensures Below(keys, prefix, r) <= Prefixed(keys, prefix)
    decreases RANGES - r
  {
    BelowAll(keys, prefix);
    if r < RANGES {
      BelowNext(keys, prefix, n, r);
      BelowIsPrefix(keys, prefix, n, r + 1);
    }
  }

  lemma {:induction false} KeyAt(sizes: seq<nat>, keys: seq<Key>, prefix: bytes, n: nat, r: byte, offset: nat)
    requires n > 0 && IsLevel(keys, |prefix| + n) && Counts(sizes, keys, prefix, n) && offset < sizes[r]
    ensures Sum(sizes[..r]) + offset < |Prefixed(keys, prefix)|
    ensures Stream(keys, prefix, n, r)[offset] == Prefixed(keys, prefix)[Sum(sizes[..r]) + offset]
  {
    SumIsBelow(sizes, keys, prefix, n, r);
    BelowNext(keys, prefix, n, r);
    BelowIsPrefix(keys, prefix, n, r + 1);
    assert Below(keys, prefix, r + 1)[Sum(sizes[..r]) + offset] == Stream(keys, prefix, n, r)[offset];
  }

  // ---------------------------------------------------------------- puts and deletes

  function Put(keys: seq<Key>, key: Key): seq<Key> {
    if keys == [] || (Le(key, keys[0]) && key != keys[0]) then [key] + keys
    else if keys[0] == key then keys
    else [keys[0]] + Put(keys[1..], key)
  }

  function Delete(keys: seq<Key>, key: Key): seq<Key> {
    if keys == [] then [] else if keys[0] == key then keys[1..] else [keys[0]] + Delete(keys[1..], key)
  }

  function One(prefix: bytes, n: nat, r: byte, key: Key): nat
    requires n > 0
  {
    if InRange(prefix, n, r, key) then 1 else 0
  }

  lemma {:induction false} PutCounts(keys: seq<Key>, key: Key, prefix: bytes, n: nat, r: byte)
    requires n > 0 && key !in keys
    ensures |Stream(Put(keys, key), prefix, n, r)| == |Stream(keys, prefix, n, r)| + One(prefix, n, r, key)
  {
    if keys == [] || (Le(key, keys[0]) && key != keys[0]) {
      assert ([key] + keys)[1..] == keys;
    } else {
      PutCounts(keys[1..], key, prefix, n, r);
      assert Put(keys, key)[1..] == Put(keys[1..], key);
    }
  }

  lemma {:induction false} DeleteCounts(keys: seq<Key>, key: Key, prefix: bytes, n: nat, r: byte)
    requires n > 0 && key in keys
    ensures |Stream(Delete(keys, key), prefix, n, r)| + One(prefix, n, r, key) == |Stream(keys, prefix, n, r)|
  {
    if keys[0] != key {
      DeleteCounts(keys[1..], key, prefix, n, r);
      assert Delete(keys, key)[1..] == Delete(keys[1..], key);
    }
  }

  lemma {:induction false} LeTotal(a: Key, b: Key)
    ensures Le(a, b) || Le(b, a)
  {
    if a != [] && b != [] {
      LeTotal(a[1..], b[1..]);
    }
  }

  lemma {:induction false} LeTransitive(a: Key, b: Key, c: Key)
    requires Le(a, b) && Le(b, c)
    ensures Le(a, c)
  {
    if a != [] && b != [] && c != [] && a[0] == b[0] == c[0] {
      LeTransitive(a[1..], b[1..], c[1..]);
    }
  }

  lemma {:induction false} LeAntisymmetric(a: Key, b: Key)
    requires Le(a, b) && Le(b, a)
    ensures a == b
  {
    if a != [] && b != [] {
      LeAntisymmetric(a[1..], b[1..]);
      assert a == [a[0]] + a[1..] && b == [b[0]] + b[1..];
    }
  }

  /** `head` comes before all of the level. */
  ghost predicate Heads(head: Key, keys: seq<Key>) {
    forall k :: k in keys ==> Le(head, k) && head != k
  }

  lemma {:induction false} LevelHead(head: Key, keys: seq<Key>, length: nat)
    requires IsLevel([head] + keys, length)
    ensures |head| == length && IsLevel(keys, length) && Heads(head, keys)
  {
    hide Le;
    var all := [head] + keys;
    assert all[0] == head;
    forall i | 0 <= i < |keys|
      ensures |keys[i]| == length && Le(head, keys[i]) && head != keys[i]
    {
      assert all[i + 1] == keys[i];
    }
    forall i, j | 0 <= i < j < |keys|
      ensures Le(keys[i], keys[j]) && keys[i] != keys[j]
    {
      assert all[i + 1] == keys[i] && all[j + 1] == keys[j];
    }
  }

  lemma {:induction false} LevelCons(head: Key, keys: seq<Key>, length: nat)
    requires |head| == length && IsLevel(keys, length) && Heads(head, keys)
    ensures IsLevel([head] + keys, length)
  {
    hide Le;
    var all := [head] + keys;
    forall i, j | 0 <= i < j < |all|
      ensures Le(all[i], all[j]) && all[i] != all[j]
    {
      assert all[j] == keys[j - 1];
      if i > 0 { assert all[i] == keys[i - 1]; }
    }
  }

  lemma {:induction false} PutKeepsLevel(keys: seq<Key>, key: Key, length: nat)
    requires IsLevel(keys, length) && |key| == length && key !in keys
    ensures IsLevel(Put(keys, key), length) && forall k :: k in Put(keys, key) <==> k == key || k in keys
  {
    if keys == [] {
    } else {
      var head, tail := keys[0], keys[1..];
      assert keys == [head] + tail;
      LevelHead(head, tail, length);
      if Le(key, head) {
        forall k | k in tail ensures Le(key, k) && key != k {
          LeTransitive(key, head, k);
        }
        LevelCons(key, keys, length);
      } else {
        LeTotal(key, head);
        PutKeepsLevel(tail, key, length);
        LevelCons(head, Put(tail, key), length);
      }
    }
  }

  lemma {:induction false} DeleteKeepsLevel(keys: seq<Key>, key: Key, length: nat)
    requires IsLevel(keys, length)
    ensures IsLevel(Delete(keys, key), length) && forall k :: k in Delete(keys, key) <==> k != key && k in keys
  {
    if keys != [] {
      var head, tail := keys[0], keys[1..];
      assert keys == [head] + tail;
      LevelHead(head, tail, length);
      DeleteKeepsLevel(tail, key, length);
      LevelCons(head, Delete(tail, key), length);
    }
  }

  // ---------------------------------------------------------------- the index

  class LevelIndexes {
    const byteLength: nat
    const prefix: bytes
    const sizes: array<nat>

    constructor (byteLength: nat, prefix: bytes)
      ensures this.byteLength == byteLength && this.prefix == prefix && sizes.Length == RANGES && fresh(sizes)
    {
      this.byteLength := byteLength;
      this.prefix := prefix;
      sizes := new nat[RANGES];
    }

    ghost predicate Agrees(keys: seq<Key>)
      reads sizes
    {
      byteLength > 0 && IsLevel(keys, |prefix| + byteLength) && Counts(sizes[..], keys, prefix, byteLength)
    }

    /** After loading, every counter agrees with the level. */
    method Load(keys: seq<Key>)
      requires byteLength > 0 && sizes.Length == RANGES && IsLevel(keys, |prefix| + byteLength)
      modifies sizes
      ensures Agrees(keys)
    {
      for r: nat := 0 to RANGES
        invariant forall q :: 0 <= q < r ==> sizes[q] == |Stream(keys, prefix, byteLength, q)|
      {
        var size := 0;
        for k := 0 to |keys|
          invariant size + |Stream(keys[k..], prefix, byteLength, r)| == |Stream(keys, prefix, byteLength, r)|
        {
          if InRange(prefix, byteLength, r, keys[k]) {
            size := size + 1;
          }
        }
        sizes[r] := size;
      }
    }

    /** The range of a key is named by the byte behind the prefix; an unprefixed key makes the search throw. */
    method GetRange(key: Key) returns (range: Option<byte>)
      requires byteLength > 0 && |key| == |prefix| + byteLength
      ensures range == if prefix < key then Some(key[|prefix|]) else None
    {
      for r: nat := 0 to RANGES
        invariant prefix < key ==> r <= key[|prefix|]
      {
        InRangeIff(prefix, byteLength, r, key);
        if InRange(prefix, byteLength, r, key) {
          return Some(r);
        }
      }
      range := None;
    }

    method AddKey(key: Key, ghost keys: seq<Key>) returns (ok: bool)
      requires Agrees(keys) && key !in keys && |key| == |prefix| + byteLength
      modifies sizes
      ensures ok == (prefix < key)
      ensures Agrees(Put(keys, key))
    {
      var range := GetRange(key);
      PutKeepsLevel(keys, key, |prefix| + byteLength);
      forall r: byte
        ensures |Stream(Put(keys, key), prefix, byteLength, r)| ==
                |Stream(keys, prefix, byteLength, r)| + if Has(prefix, r, key) then 1 else 0
      {
        PutCounts(keys, key, prefix, byteLength, r);
        InRangeIff(prefix, byteLength, r, key);
      }
      if range == None {
        return false;
      }
      sizes[range.value] := sizes[range.value] + 1;
      ok := true;
    }

    method RemoveKey(key: Key, ghost keys: seq<Key>) returns (ok: bool)
      requires Agrees(keys) && key in keys
      modifies sizes
      ensures ok == (prefix < key)
      ensures Agrees(Delete(keys, key))
    {
      var range := GetRange(key);
      DeleteKeepsLevel(keys, key, |prefix| + byteLength);
      forall r: byte
        ensures |Stream(Delete(keys, key), prefix, byteLength, r)| + (if Has(prefix, r, key) then 1 else 0) ==
                |Stream(keys, prefix, byteLength, r)|
      {
        DeleteCounts(keys, key, prefix, byteLength, r);
        InRangeIff(prefix, byteLength, r, key);
      }
      if range == None {
        return false;
      }
      sizes[range.value] := sizes[range.value] - 1;
      ok := true;
    }

    method GetTotalSize(ghost keys: seq<Key>) returns (total: nat)
      requires Agrees(keys)
      ensures total == |Prefixed(keys, prefix)|
    {
      total := 0;
      for r := 0 to sizes.Length
        invariant total == Sum(sizes[..r])
      {
        assert sizes[..r + 1][..r] == sizes[..r];
        total := total + sizes[r];
      }
      assert sizes[..][..RANGES] == sizes[..sizes.Length];
      SumIsBelow(sizes[..], keys, prefix, byteLength, RANGES);
      BelowAll(keys, prefix);
    }

    /** The range and the offset in it of the key with the given index among all prefixed keys. */
    method GetRangeByIndex(index: nat, ghost keys: seq<Key>) returns (found: Option<(byte, nat)>)
      requires Agrees(keys)
      ensures found == None <==> index >= |Prefixed(keys, prefix)|
      ensures found.Some? ==> var (r, offset) := found.value;
                offset < |Stream(keys, prefix, byteLength, r)| &&
                Stream(keys, prefix, byteLength, r)[offset] == Prefixed(keys, prefix)[index]
    {
      var totalOffset: nat := 0;
      for r: nat := 0 to RANGES
        invariant totalOffset == Sum(sizes[..][..r]) && totalOffset <= index
      {
        if totalOffset + sizes[r] > index {
          KeyAt(sizes[..], keys, prefix, byteLength, r, index - totalOffset);
          return Some((r, index - totalOffset));
        }
        assert sizes[..][..r + 1][..r] == sizes[..][..r];
        totalOffset := totalOffset + sizes[r];
      }
      SumIsBelow(sizes[..], keys, prefix, byteLength, RANGES);
      BelowAll(keys, prefix);
      found := None;
    }

    /**
     `selectNextMinter`: with at least one prefixed key in the level, the choice is the key whose index among
     the prefixed keys in byte order is the hash modulo their number, and nothing throws.
     */
    method SelectNextMinter(slotHash: nat, keys: seq<Key>) returns (minter: Option<Key>)
      requires Agrees(keys)
      ensures Prefixed(keys, prefix) == [] ==> minter == None
      ensures Prefixed(keys, prefix) != [] ==>
                minter == Some(Prefixed(keys, prefix)[slotHash % |Prefixed(keys, prefix)|])
    {
      var dbSize := GetTotalSize(keys);
      if dbSize == 0 {
        return None;
      }
      var found := GetRangeByIndex(slotHash % dbSize, keys);
      if found == None {
        return None;
      }
      var (r, offset) := found.value;
      var count: nat := 0;
      StreamOfNone(prefix, byteLength, r);
      assert keys[|keys|..] == [];
      hide Stream, InRange, Prefixed;
      for k := 0 to |keys|
        invariant count <= offset < |Stream(keys, prefix, byteLength, r)|
        invariant Stream(keys, prefix, byteLength, r)[count..] == Stream(keys[k..], prefix, byteLength, r)
      {
        assert keys[k..][0] == keys[k] && keys[k..][1..] == keys[k + 1..];
        StreamFirst(keys[k..], prefix, byteLength, r);
        if InRange(prefix, byteLength, r, keys[k]) {
          StreamRest(Stream(keys, prefix, byteLength, r), count, Stream(keys[k + 1..], prefix, byteLength, r), keys[k]);
          if count == offset {
            return Some(keys[k]);
          }
          count := count + 1;
        }
      }
      minter := None;
    }
  }
}
