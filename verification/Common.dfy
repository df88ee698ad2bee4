/**
 Byte strings, optional results and the big-endian numbers that every storage
 and network format of the node is built from.
 */
module Common {

  datatype Option<+T> = None | Some(value: T)

  type byte = x: int | 0 <= x < 256
  type bytes = seq<byte>

  /** Arithmetic on `Uint64` wraps at this bound. */
  const TWO_TO_THE_64: nat := 0x1_0000_0000_0000_0000

  type uint64 = x: int | 0 <= x < TWO_TO_THE_64

  function Min(a: nat, b: nat): nat { if a < b then a else b }
  function Max(a: nat, b: nat): nat { if a < b then b else a }

  /** `Uint.concat`. */
  function Concat(parts: seq<bytes>): bytes {
    if parts == [] then [] else parts[0] + Concat(parts[1..])
  }

  lemma {:induction false} ConcatAppend(xs: seq<bytes>, ys: seq<bytes>)
    ensures Concat(xs + ys) == Concat(xs) + Concat(ys)
  {
    if xs == [] {
      assert xs + ys == ys;
    } else {
      ConcatAppend(xs[1..], ys);
      assert (xs + ys)[1..] == xs[1..] + ys;
      assert xs[0] + (Concat(xs[1..]) + Concat(ys)) == xs[0] + Concat(xs[1..]) + Concat(ys);
    }
  }

  lemma {:induction false} ConcatOne(part: bytes)
    ensures Concat([part]) == part
  {
    var one := [part];
    assert one[1..] == [] && part + [] == part;
  }

  /** `n` copies of the byte `b`. */
  function Repeat(b: byte, n: nat): (s: bytes)
    ensures |s| == n
    ensures forall i :: 0 <= i < n ==> s[i] == b
  {
    seq(n, _ => b)
  }

  /** `Uint.slice(from, to)`: indices past the end are clamped. */
  function Slice(data: bytes, from: nat, to: nat): bytes {
    var hi := if to < |data| then to else |data|;
    if from <= hi then data[from..hi] else []
  }

  /** `Uint.slice(from)`. */
  function Drop(data: bytes, from: nat): bytes {
    if from <= |data| then data[from..] else []
  }

  /** `Uint.toInt()`: the bytes read as a big-endian number. */
  function ToInt(data: bytes): nat {
    if data == [] then 0 else ToInt(data[..|data| - 1]) * 256 + data[|data| - 1]
  }

  function Pow(base: nat, e: nat): nat {
    if e == 0 then 1 else base * Pow(base, e - 1)
  }

  /** `Uint.from(n, k)`: `n` in exactly `k` bytes, big-endian. */
  function FromInt(n: nat, k: nat): (data: bytes)
    ensures |data| == k
  {
    if k == 0 then [] else FromInt(n / 256, k - 1) + [n % 256]
  }

  /** `Uint.toShortUint()`: `n` without leading zero bytes. */
  function ShortUint(n: nat): bytes {
    if n == 0 then [] else ShortUint(n / 256) + [n % 256]
  }

  lemma {:induction false} DivBelowPow(n: nat, k: nat)
    requires 0 < k && n < Pow(256, k)
    ensures n / 256 < Pow(256, k - 1)
  {
  }

  lemma {:induction false} ToIntFromInt(n: nat, k: nat)
    requires n < Pow(256, k)
    ensures ToInt(FromInt(n, k)) == n
  {
    if k != 0 {
      DivBelowPow(n, k);
      ToIntFromInt(n / 256, k - 1);
      assert FromInt(n, k)[..k - 1] == FromInt(n / 256, k - 1);
    }
  }

  lemma {:induction false} ToIntShortUint(n: nat)
    ensures ToInt(ShortUint(n)) == n
  {
    if n != 0 {
      ToIntShortUint(n / 256);
      assert ShortUint(n)[..|ShortUint(n)| - 1] == ShortUint(n / 256);
    }
  }

  lemma {:induction false} ShortUintLength(n: nat, k: nat)
    requires n < Pow(256, k)
    ensures |ShortUint(n)| <= k
  {
    if n != 0 {
      DivBelowPow(n, k);
      ShortUintLength(n / 256, k - 1);
    }
  }
}
