/**
 The base-32 text form of addresses (`src/common/models/address.ts`, with
 `replaceAtIndex` of `src/utils/dataUtils.ts`).

 The 160 bits of an address follow a sentinel digit 1, in both bases, so that its
 leading zeros survive; the sentinel is dropped behind the conversion. JavaScript
 strings are sequences of characters, lower-cased within ASCII.
 */
module Address32 {
  import opened Common

  const CHARS: string := "123456789abcdefghjklmnpqrstuvwyz"
  const HEX: string := "0123456789abcdef"

  // ---------------------------------------------------------------- strings

  function SliceString(s: string, from: nat, to: nat): string {
    var hi := if to < |s| then to else |s|;
    if from <= hi then s[from..hi] else ""
  }

  function DropString(s: string, from: nat): string {
    if from <= |s| then s[from..] else ""
  }

  /** `indexOf` of a single character from a position on; -1 when there is none. */
  function Find(s: string, c: char, from: nat): (k: int)
    ensures k == -1 || (from <= k < |s| && s[k] == c)
    ensures (forall i :: from <= i < |s| ==> s[i] != c) ==> k == -1
    ensures forall i :: from <= i < |s| && (k == -1 || i < k) ==> s[i] != c
    decreases |s| - from
  {
    if from >= |s| then -1 else if s[from] == c then from else Find(s, c, from + 1)
  }

  function IndexOf(c: char): int { Find(CHARS, c, 0) }

  function ReplaceAtIndex(s: string, search: char, replacement: char, index: nat): string {
    var k := Find(s, search, index);
    if k == -1 then s else s[k := replacement]
  }

  function Lower(c: char): char {
    if 'A' <= c <= 'Z' then (c as int + 32) as char else c
  }

  function ToLowerCase(s: string): string {
    seq(|s|, i requires 0 <= i < |s| => Lower(s[i]))
  }

  function Indices(s: string): (ds: seq<int>)
    ensures |ds| == |s| && forall i :: 0 <= i < |s| ==> ds[i] >= -1
  {
    seq(|s|, i requires 0 <= i < |s| => IndexOf(s[i]))
  }

  predicate AreDigits(ds: seq<int>, base: nat) {
    forall i :: 0 <= i < |ds| ==> 0 <= ds[i] < base
  }

  function Chars(ds: seq<int>, alphabet: string): string
    requires AreDigits(ds, |alphabet|)
  {
    seq(|ds|, i requires 0 <= i < |ds| => alphabet[ds[i]])
  }

  // ---------------------------------------------------------------- numbers

  predicate IsBase(base: nat) { base == 16 || base == 32 }

  /** The loop of `toAddressHex`: digits read from the left, a missing character counting as -1. */
  function Value(ds: seq<int>, base: nat): int {
    if ds == [] then 0 else Value(ds[..|ds| - 1], base) * base + ds[|ds| - 1]
  }

  /** `toString(base)` and the loop of `fromAddressHex`, for positive numbers. */
  function Digits(v: nat, base: nat): (ds: seq<int>)
    requires IsBase(base)
    ensures AreDigits(ds, base)
  {
    if v == 0 then [] else Digits(v / base, base) + [v % base]
  }

  /** The last `n` digits. */
  function Padded(v: nat, base: nat, n: nat): (ds: seq<int>)
    requires IsBase(base)
    ensures |ds| == n && AreDigits(ds, base)
  {
    if n == 0 then [] else Padded(v / base, base, n - 1) + [v % base]
  }

  function HexDigits(data: bytes): (ds: seq<int>)
    ensures |ds| == 2 * |data| && AreDigits(ds, 16)
  {
    if data == [] then [] else
      var last := data[|data| - 1];
      HexDigits(data[..|data| - 1]) + [last / 16, last % 16]
  }

  /** `Uint.toHex()`. */
  function ToHex(data: bytes): string {
    Chars(HexDigits(data), HEX)
  }

  // ---------------------------------------------------------------- the two conversions

  lemma {:induction false} ValueIsPositive(ds: seq<int>, base: nat)
    requires base >= 2 && ds != [] && ds[0] == 1 && forall i :: 0 <= i < |ds| ==> ds[i] >= -1
    ensures Value(ds, base) >= 1
  {
    var n := |ds| - 1;
    if n == 0 {
      assert Value(ds[..0], base) == 0;
    } else {
      ValueIsPositive(ds[..n], base);
      assert Value(ds[..n], base) * base >= base by { Times(Value(ds[..n], base), base); }
    }
  }

  lemma {:induction false} Times(v: int, base: nat)
    requires v >= 1
    ensures v * base >= base
  {
    assert v * base == (v - 1) * base + base && (v - 1) * base >= 0;
  }

  /** `BigInt('0x1' + body)`. */
  function Marked(body: bytes): (v: nat) {
    ValueIsPositive([1] + HexDigits(body), 16);
    Value([1] + HexDigits(body), 16)
  }

  function FromAddressHex(address: bytes): string
    requires |address| == 21
  {
    "lc" + ReplaceAtIndex(ToHex(address[..1]), '0', 'x', 1) +
    DropString(Chars(Digits(Marked(address[1..]), 32), CHARS), 1)
  }

  /** The number that `toAddressHex` reads: a leading "2" stands for the sentinel. */
  function Read(s: string): (v: nat) {
    var data := "2" + ToLowerCase(DropString(s, 4));
    AlphabetIndex(1);
    ValueIsPositive(Indices(data), 32);
    Value(Indices(data), 32)
  }

  function ToAddressHex(s: string): string {
    ReplaceAtIndex(SliceString(s, 2, 4), 'x', '0', 0) + DropString(Chars(Digits(Read(s), 16), HEX), 1)
  }

  // ---------------------------------------------------------------- alphabets

  lemma {:induction false} CharsAscend(i: nat, j: nat)
    requires i < j < 32
    ensures CHARS[i] < CHARS[j]
    decreases j
  {
    if i + 1 < j {
      CharsAscend(i, j - 1);
    }
  }

  lemma {:induction false} AlphabetIndex(d: nat)
    requires d < 32
    ensures IndexOf(CHARS[d]) == d && Lower(CHARS[d]) == CHARS[d]
  {
    forall i, j | 0 <= i < j < 32 ensures CHARS[i] != CHARS[j] {
      CharsAscend(i, j);
    }
    if d < 8 { CharsAscend(d, 8); }
    if d > 9 { CharsAscend(9, d); }
    assert CHARS[8] == '9' && CHARS[9] == 'a';
  }

  lemma {:induction false} IndicesOfChars(ds: seq<int>)
    requires AreDigits(ds, 32)
    ensures Indices(Chars(ds, CHARS)) == ds && ToLowerCase(Chars(ds, CHARS)) == Chars(ds, CHARS)
  {
    forall i | 0 <= i < |ds|
      ensures IndexOf(Chars(ds, CHARS)[i]) == ds[i] && Lower(Chars(ds, CHARS)[i]) == Chars(ds, CHARS)[i]
    {
      AlphabetIndex(ds[i]);
    }
  }

  lemma {:induction false} CharsOfIndices(s: string)
    requires forall i :: 0 <= i < |s| ==> s[i] in CHARS
    ensures AreDigits(Indices(s), 32) && Chars(Indices(s), CHARS) == s
  {
  }

  // ---------------------------------------------------------------- digits and values

  /** One more digit at the end. */
  lemma {:induction false} OneMore(v: nat, d: int, base: nat, p: nat)
    requires IsBase(base) && 0 <= d < base
    ensures 0 <= v * base + d && (v * base + d) / base == v && (v * base + d) % base == d
    ensures v < p <==> v * base + d < base * p
  {
    if base == 16 {
      assert (v * 16 + d) / 16 == v && (v < p <==> v * 16 + d < 16 * p);
    } else {
      assert (v * 32 + d) / 32 == v && (v < p <==> v * 32 + d < 32 * p);
    }
  }

  lemma {:induction false} PaddedOfValue(ds: seq<int>, base: nat)
    requires IsBase(base) && AreDigits(ds, base)
    ensures 0 <= Value(ds, base) < Pow(base, |ds|) && Padded(Value(ds, base), base, |ds|) == ds
  {
    if ds != [] {
      var n := |ds| - 1;
      PaddedOfValue(ds[..n], base);
      var v := Value(ds[..n], base);
      OneMore(v, ds[n], base, Pow(base, n));
      hide IsBase;
      assert Pow(base, n + 1) == base * Pow(base, n);
      assert Value(ds, base) == v * base + ds[n];
      hide Pow, Value;
      assert Padded(v * base + ds[n], base, n + 1) == Padded(v, base, n) + [ds[n]];
      assert ds == ds[..n] + [ds[n]];
    }
  }

  lemma {:induction false} ValueOfPadded(v: nat, base: nat, n: nat)
    requires IsBase(base) && v < Pow(base, n)
    ensures Value(Padded(v, base, n), base) == v
  {
    if n > 0 {
      var p := Pow(base, n - 1);
      OneMore(v / base, v % base, base, p);
      ValueOfPadded(v / base, base, n - 1);
      assert Padded(v, base, n)[..n - 1] == Padded(v / base, base, n - 1);
    }
  }

  /** The sentinel is the one digit in front of the others, whatever these are. */
  lemma {:induction false} SentinelDigit(v: nat, base: nat, n: nat)
    requires IsBase(base) && v < Pow(base, n)
    ensures Digits(Pow(base, n) + v, base) == [1] + Padded(v, base, n)
  {
    if n == 0 {
      assert Digits(1, base) == Digits(0, base) + [1];
    } else {
      var p := Pow(base, n - 1);
      OneMore(v / base, v % base, base, p);
      OneMore(p + v / base, v % base, base, p);
      assert (p + v / base) * base == base * p + v / base * base;
      SentinelDigit(v / base, base, n - 1);
      assert [1] + Padded(v / base, base, n - 1) + [v % base] == [1] + (Padded(v / base, base, n - 1) + [v % base]);
    }
  }

  lemma {:induction false} SentinelValue(ds: seq<int>, base: nat)
    requires IsBase(base)
    ensures Value([1] + ds, base) == Pow(base, |ds|) + Value(ds, base)
  {
    var all, n := [1] + ds, |ds|;
    if n == 0 {
      assert all[..0] == [];
    } else {
      assert all[..n] == [1] + ds[..n - 1];
      SentinelValue(ds[..n - 1], base);
      var a, b := Pow(base, n - 1), Value(ds[..n - 1], base);
      assert base == 16 ==> (a + b) * 16 == 16 * a + b * 16;
      assert base == 32 ==> (a + b) * 32 == 32 * a + b * 32;
    }
  }

  lemma {:induction false} ValueOfHexDigits(data: bytes)
    ensures Value(HexDigits(data), 16) == ToInt(data)
  {
    if data != [] {
      var n := |data| - 1;
      var front := HexDigits(data[..n]);
      var ds := HexDigits(data);
      ValueOfHexDigits(data[..n]);
      assert ds[..2 * n + 1] == front + [data[n] / 16];
      assert ds[..2 * n + 1][..2 * n] == front;
    }
  }

  /** 2^160 three times. */
  lemma {:induction false} SamePowers()
    ensures Pow(16, 40) == Pow(32, 32) == Pow(256, 20)
  {
    Powers(8);
    Squares(20);
  }

  lemma {:induction false} Powers(k: nat)
    ensures Pow(16, 5 * k) == Pow(32, 4 * k)
  {
    if k > 0 {
      Powers(k - 1);
      var a, b := Pow(16, 5 * (k - 1)), Pow(32, 4 * (k - 1));
      var m, n := 5 * (k - 1), 4 * (k - 1);
      assert Pow(16, m + 2) == 16 * (16 * a);
      assert Pow(16, m + 4) == 16 * (16 * Pow(16, m + 2));
      assert Pow(32, n + 2) == 32 * (32 * b);
      assert Pow(32, n + 4) == 32 * (32 * Pow(32, n + 2));
    }
  }

  lemma {:induction false} Squares(k: nat)
    ensures Pow(16, 2 * k) == Pow(256, k)
  {
    if k > 0 {
      Squares(k - 1);
      assert Pow(16, 2 * k) == 16 * (16 * Pow(16, 2 * (k - 1)));
    }
  }

  // ---------------------------------------------------------------- the bijection

  /** The body of an address in its 32 characters and in its 40 hexadecimal digits. */
  lemma {:induction false} BodyDigits(body: bytes)
    requires |body| == 20
    ensures ToInt(body) < Pow(32, 32) && Digits(Marked(body), 32) == [1] + Padded(ToInt(body), 32, 32)
    ensures Padded(ToInt(body), 16, 40) == HexDigits(body)
  {
    SamePowers();
    hide Pow, Padded, Value, Digits;
    ValueOfHexDigits(body);
    PaddedOfValue(HexDigits(body), 16);
    SentinelValue(HexDigits(body), 16);
    SentinelDigit(ToInt(body), 32, 32);
  }

  /** The two characters of the type: a low zero digit is written as an x. */
  predicate IsType(s: string) {
    |s| == 2 && s[0] in HEX && s[1] != '0' && (s[1] == 'x' || s[1] in HEX)
  }

  lemma {:induction false} OneByte(t: byte)
    ensures ToHex([t]) == [HEX[t / 16], HEX[t % 16]]
  {
    var one := [t];
    assert HexDigits(one) == [t / 16, t % 16] by { assert one[..0] == []; }
  }

  lemma {:induction false} ReplaceInTwo(a: char, b: char, search: char, replacement: char)
    ensures ReplaceAtIndex([a, b], search, replacement, 1) == [a, if b == search then replacement else b]
    ensures a != search ==>
      ReplaceAtIndex([a, b], search, replacement, 0) == [a, if b == search then replacement else b]
  {
  }

  lemma {:induction false} HexChars(d: nat)
    requires d < 16
    ensures HEX[d] in HEX && HEX[d] != 'x' && (HEX[d] == '0' <==> d == 0)
  {
  }

  lemma {:induction false} TypeRoundTrip(t: byte)
    ensures var h := ToHex([t]);
            IsType(ReplaceAtIndex(h, '0', 'x', 1)) &&
            ReplaceAtIndex(ReplaceAtIndex(h, '0', 'x', 1), 'x', '0', 0) == h
  {
    hide ReplaceAtIndex, ToHex;
    OneByte(t);
    HexChars(t / 16);
    HexChars(t % 16);
    var a, b := HEX[t / 16], HEX[t % 16];
    ReplaceInTwo(a, b, '0', 'x');
    ReplaceInTwo(a, if b == '0' then 'x' else b, 'x', '0');
  }

  /** Well-formed: the fixed mark, a type, and 32 characters of the alphabet. */
  predicate IsWellFormed(s: string) {
    |s| == 36 && s[..2] == "lc" && IsType(s[2..4]) && forall i :: 4 <= i < 36 ==> s[i] in CHARS
  }

  lemma {:induction false} BodyText(body: bytes)
    requires |body| == 20
    ensures ToInt(body) < Pow(32, 32) && |Padded(ToInt(body), 32, 32)| == 32 &&
            AreDigits(Padded(ToInt(body), 32, 32), 32)
    ensures DropString(Chars(Digits(Marked(body), 32), CHARS), 1) == Chars(Padded(ToInt(body), 32, 32), CHARS)
  {
    BodyDigits(body);
    hide Pow, Padded, Digits, Marked;
  }

  /** The text is the mark, the type and the digits of the body. */
  lemma {:induction false} TextParts(address: bytes)
    requires |address| == 21
    ensures FromAddressHex(address) ==
            "lc" + ReplaceAtIndex(ToHex(address[..1]), '0', 'x', 1) + Chars(Padded(ToInt(address[1..]), 32, 32), CHARS)
  {
    BodyText(address[1..]);
    hide Pow, Padded, Value, Digits, HexDigits, Chars, Marked, DropString, ReplaceAtIndex, ToHex;
  }

  lemma {:induction false} PartsAreWellFormed(kind: string, digits: seq<int>)
    requires |kind| == 2 && IsType(kind) && |digits| == 32 && AreDigits(digits, 32)
    ensures IsWellFormed("lc" + kind + Chars(digits, CHARS))
  {
    CharsAreIn(digits);
    var text := Chars(digits, CHARS);
    assert |text| == 32;
    hide Chars, IsType, AreDigits;
    ThreeParts(kind, text);
    var s := "lc" + kind + text;
    assert |s| == 36;
    forall i | 4 <= i < 36 ensures s[i] in CHARS {
      assert s[i] == text[i - 4];
    }
  }

  /** Every 21-byte address has a well-formed text, always 36 characters long. */
  lemma {:induction false} TextIsWellFormed(address: bytes)
    requires |address| == 21
    ensures IsWellFormed(FromAddressHex(address))
    ensures FromAddressHex(address)[4..] == Chars(Padded(ToInt(address[1..]), 32, 32), CHARS)
    ensures FromAddressHex(address)[2..4] == ReplaceAtIndex(ToHex(address[..1]), '0', 'x', 1)
  {
    var kind, digits := ReplaceAtIndex(ToHex(address[..1]), '0', 'x', 1), Padded(ToInt(address[1..]), 32, 32);
    BodyText(address[1..]);
    TypeRoundTrip(address[0]);
    assert address[..1] == [address[0]];
    hide Pow, Padded, ReplaceAtIndex, ToHex, Chars, IsType, FromAddressHex, IsWellFormed;
    TextParts(address);
    PartsAreWellFormed(kind, digits);
    ThreeParts(kind, Chars(digits, CHARS));
  }

  lemma {:induction false} ThreeParts(a: string, b: string)
    requires |a| == 2
    ensures var s := "lc" + a + b; |s| == 4 + |b| && s[..2] == "lc" && s[2..4] == a && s[4..] == b
  {
  }

  lemma {:induction false} CharsAreIn(ds: seq<int>)
    requires AreDigits(ds, 32)
    ensures forall i :: 0 <= i < |ds| ==> Chars(ds, CHARS)[i] in CHARS
  {
  }

  /** What `toAddressHex` makes of 32 characters of the alphabet. */
  lemma {:induction false} ReadsBack(s: string, ds: seq<int>)
    requires |s| >= 4 && |ds| == 32 && AreDigits(ds, 32) && s[4..] == Chars(ds, CHARS)
    ensures 0 <= Value(ds, 32) < Pow(32, 32)
    ensures Digits(Read(s), 16) == [1] + Padded(Value(ds, 32), 16, 40)
  {
    SamePowers();
    hide Pow, Padded, Value, Digits, IndexOf, Lower;
    PaddedOfValue(ds, 32);
    IndicesOfChars(ds);
    AlphabetIndex(1);
    assert Indices("2" + Chars(ds, CHARS)) == [1] + ds;
    SentinelValue(ds, 32);
    SentinelDigit(Value(ds, 32), 16, 40);
  }

  /** `toAddressHex` inverts `fromAddressHex` on every type byte and body. */
  lemma {:induction false} TextRoundTrip(address: bytes)
    requires |address| == 21
    ensures ToAddressHex(FromAddressHex(address)) == ToHex(address)
  {
    hide Pow, Padded, Value, Digits, HexDigits, Read, FromAddressHex, ReplaceAtIndex, IsType;
    var s, body := FromAddressHex(address), address[1..];
    TextIsWellFormed(address);
    BodyDigits(body);
    ValueOfPadded(ToInt(body), 32, 32);
    ReadsBack(s, Padded(ToInt(body), 32, 32));
    TypeRoundTrip(address[0]);
    HexOfParts(address);
    assert address[..1] == [address[0]];
    assert DropString(Chars(Digits(Read(s), 16), HEX), 1) == ToHex(body);
  }

  lemma {:induction false} HexOfParts(data: bytes)
    requires data != []
    ensures HexDigits(data) == HexDigits(data[..1]) + HexDigits(data[1..])
    ensures ToHex(data) == ToHex(data[..1]) + ToHex(data[1..])
  {
    var n := |data| - 1;
    if n == 0 {
      assert data[..1] == data && HexDigits(data[1..]) == [];
    } else {
      HexOfParts(data[..n]);
      assert data[..n][..1] == data[..1] && data[..n][1..] == data[1..][..n - 1];
      assert HexDigits(data[1..]) == HexDigits(data[1..][..n - 1]) + [data[n] / 16, data[n] % 16];
      assert HexDigits(data) == HexDigits(data[..n]) + [data[n] / 16, data[n] % 16];
    }
    hide HexDigits, Chars;
    CharsAppend(HexDigits(data[..1]), HexDigits(data[1..]), HEX);
  }

  lemma {:induction false} CharsAppend(xs: seq<int>, ys: seq<int>, alphabet: string)
    requires AreDigits(xs, |alphabet|) && AreDigits(ys, |alphabet|)
    ensures AreDigits(xs + ys, |alphabet|) && Chars(xs + ys, alphabet) == Chars(xs, alphabet) + Chars(ys, alphabet)
  {
  }

  function HexIndex(c: char): (d: nat)
    requires c in HEX
    ensures d < 16 && HEX[d] == c
  {
    Find(HEX, c, 0)
  }

  function TypeOf(a: char, b: char): byte
    requires IsType([a, b])
  {
    HexIndex(a) * 16 + (if b == 'x' then 0 else HexIndex(b))
  }

  lemma {:induction false} TypeText(a: char, b: char)
    requires IsType([a, b])
    ensures ReplaceAtIndex(ToHex([TypeOf(a, b)]), '0', 'x', 1) == [a, b]
  {
    var hi, lo := HexIndex(a), if b == 'x' then 0 else HexIndex(b);
    var t: byte := TypeOf(a, b);
    assert t / 16 == hi && t % 16 == lo;
    hide ReplaceAtIndex, ToHex, HexIndex, TypeOf, IsType;
    OneByte(t);
    HexChars(lo);
    ReplaceInTwo(a, HEX[lo], '0', 'x');
  }

  /** The address that a well-formed text stands for. */
  function AddressOf(s: string): (address: bytes)
    requires IsWellFormed(s)
    ensures |address| == 21
  {
    CharsOfIndices(s[4..]);
    PaddedOfValue(Indices(s[4..]), 32);
    [TypeOf(s[2], s[3])] + FromInt(Value(Indices(s[4..]), 32), 20)
  }

  /** `fromAddressHex` inverts `toAddressHex` on well-formed texts. */
  lemma {:induction false} WellFormedRoundTrip(s: string)
    requires IsWellFormed(s)
    ensures FromAddressHex(AddressOf(s)) == s && ToAddressHex(s) == ToHex(AddressOf(s))
  {
    var address := AddressOf(s);
    BodyOfAddress(s);
    assert s[2..4] == [s[2], s[3]];
    hide Pow, Padded, FromAddressHex, ToAddressHex, ReplaceAtIndex, TypeOf, AddressOf, Chars, ToHex, HexDigits;
    TextIsWellFormed(address);
    TypeText(s[2], s[3]);
    SameText(s, FromAddressHex(address));
    TextRoundTrip(address);
  }

  lemma {:induction false} BodyOfAddress(s: string)
    requires IsWellFormed(s)
    ensures Chars(Padded(ToInt(AddressOf(s)[1..]), 32, 32), CHARS) == s[4..]
    ensures AddressOf(s)[..1] == [TypeOf(s[2], s[3])]
  {
    var ds, address := Indices(s[4..]), AddressOf(s);
    CharsOfIndices(s[4..]);
    PaddedOfValue(ds, 32);
    SamePowers();
    hide Pow, Padded, Value, FromInt, TypeOf, Indices, Chars;
    assert address[1..] == FromInt(Value(ds, 32), 20);
    ToIntFromInt(Value(ds, 32), 20);
  }

  lemma {:induction false} SameText(s: string, t: string)
    requires |s| >= 4 && |t| >= 4 && s[..2] == t[..2] && s[2..4] == t[2..4] && s[4..] == t[4..]
    ensures s == t
  {
    assert s == s[..2] + s[2..4] + s[4..] && t == t[..2] + t[2..4] + t[4..];
  }

  /**
   A string comes back from `toAddressHex` and `fromAddressHex` exactly when it is well-formed;
   no other is a text.
   */
  lemma {:induction false} TextsAreWellFormed(s: string)
    ensures (exists address: bytes :: |address| == 21 && FromAddressHex(address) == s) <==> IsWellFormed(s)
    ensures (exists address: bytes ::
              |address| == 21 && ToAddressHex(s) == ToHex(address) && FromAddressHex(address) == s)
       <==> IsWellFormed(s)
  {
    if IsWellFormed(s) {
      WellFormedRoundTrip(s);
    }
    forall address: bytes | |address| == 21 && FromAddressHex(address) == s ensures IsWellFormed(s) {
      TextIsWellFormed(address);
    }
  }

  lemma {:induction false} HexDigitsInjective(a: bytes, b: bytes)
    requires HexDigits(a) == HexDigits(b)
    ensures a == b
  {
    if a != [] && b != [] {
      var n := |a| - 1;
      var x, y := HexDigits(a), HexDigits(b);
      assert x[..2 * n] == HexDigits(a[..n]) && y[..2 * n] == HexDigits(b[..n]);
      assert x[2 * n] == a[n] / 16 && x[2 * n + 1] == a[n] % 16 && y[2 * n] == b[n] / 16 && y[2 * n + 1] == b[n] % 16;
      HexDigitsInjective(a[..n], b[..n]);
      assert a == a[..n] + [a[n]] && b == b[..n] + [b[n]];
    }
  }

  lemma {:induction false} HexInjective(xs: seq<int>, ys: seq<int>)
    requires AreDigits(xs, 16) && AreDigits(ys, 16) && Chars(xs, HEX) == Chars(ys, HEX)
    ensures xs == ys
  {
    assert |xs| == |Chars(xs, HEX)| == |ys|;
    forall i | 0 <= i < |xs| ensures xs[i] == ys[i] {
      assert Chars(xs, HEX)[i] == HEX[xs[i]] && Chars(ys, HEX)[i] == HEX[ys[i]];
      if xs[i] < ys[i] { HexAscends(xs[i], ys[i]); }
      if ys[i] < xs[i] { HexAscends(ys[i], xs[i]); }
    }
  }

  lemma {:induction false} HexAscends(i: nat, j: nat)
    requires i < j < 16
    ensures HEX[i] < HEX[j]
    decreases j
  {
    if i + 1 < j {
      HexAscends(i, j - 1);
    }
  }

  /** Different addresses have different texts. */
  lemma {:induction false} TextsDiffer(a: bytes, b: bytes)
    requires |a| == |b| == 21 && FromAddressHex(a) == FromAddressHex(b)
    ensures a == b
  {
    TextRoundTrip(a);
    TextRoundTrip(b);
    HexInjective(HexDigits(a), HexDigits(b));
    HexDigitsInjective(a, b);
  }

  lemma {:induction false} TwoAndMore(front: string, a: char, b: char, rest: string)
    requires |front| >= 4
    ensures Read(front + [a, b] + rest) ==
            Value(Indices("2" + ToLowerCase(front[4..])) + [IndexOf(Lower(a)), IndexOf(Lower(b))] +
                  Indices(ToLowerCase(rest)), 32)
  {
    hide IndexOf, Lower;
    var head, tail := "2" + ToLowerCase(front[4..]), ToLowerCase(rest);
    assert (front + [a, b] + rest)[4..] == front[4..] + [a, b] + rest;
    assert ToLowerCase(front[4..] + [a, b] + rest) == ToLowerCase(front[4..]) + [Lower(a), Lower(b)] + tail;
    assert Indices(head + [Lower(a), Lower(b)] + tail) ==
           Indices(head) + [IndexOf(Lower(a)), IndexOf(Lower(b))] + Indices(tail);
    assert "2" + (ToLowerCase(front[4..]) + [Lower(a), Lower(b)] + tail) == head + [Lower(a), Lower(b)] + tail;
  }

  /** What follows depends on the number read so far, and on nothing else. */
  lemma {:induction false} SameValueSoFar(xs: seq<int>, ys: seq<int>, zs: seq<int>)
    requires Value(xs, 32) == Value(ys, 32)
    ensures Value(xs + zs, 32) == Value(ys + zs, 32)
  {
    if zs == [] {
      assert xs + zs == xs && ys + zs == ys;
    } else {
      var n := |zs| - 1;
      SameValueSoFar(xs, ys, zs[..n]);
      assert (xs + zs)[..|xs + zs| - 1] == xs + zs[..n] && (ys + zs)[..|ys + zs| - 1] == ys + zs[..n];
    }
  }

  lemma {:induction false} TwoMore(ds: seq<int>, x: int, y: int)
    ensures Value(ds + [x, y], 32) == (Value(ds, 32) * 32 + x) * 32 + y
  {
    var one, two := ds + [x], ds + [x, y];
    assert two[..|ds| + 1] == one && one[..|ds|] == ds;
  }

  lemma {:induction false} SameRead(s: string, t: string)
    requires Read(s) == Read(t) && SliceString(s, 2, 4) == SliceString(t, 2, 4)
    ensures ToAddressHex(s) == ToAddressHex(t)
  {
  }

  lemma {:induction false} SameTwo(front: string, a: char, b: char, c: char, d: char, rest: string)
    requires |front| >= 4
    requires IndexOf(Lower(a)) * 32 + IndexOf(Lower(b)) == IndexOf(Lower(c)) * 32 + IndexOf(Lower(d))
    ensures ToAddressHex(front + [a, b] + rest) == ToAddressHex(front + [c, d] + rest)
  {
    hide Lower, IndexOf, Read, Value, Digits, ReplaceAtIndex, ToAddressHex, Indices;
    var ds := Indices("2" + ToLowerCase(front[4..]));
    TwoAndMore(front, a, b, rest);
    TwoAndMore(front, c, d, rest);
    TwoMore(ds, IndexOf(Lower(a)), IndexOf(Lower(b)));
    TwoMore(ds, IndexOf(Lower(c)), IndexOf(Lower(d)));
    SameValueSoFar(ds + [IndexOf(Lower(a)), IndexOf(Lower(b))], ds + [IndexOf(Lower(c)), IndexOf(Lower(d))],
                   Indices(ToLowerCase(rest)));
    assert SliceString(front + [a, b] + rest, 2, 4) == front[2..4] == SliceString(front + [c, d] + rest, 2, 4);
    SameRead(front + [a, b] + rest, front + [c, d] + rest);
  }

  /**
   A foreign character is not rejected, wherever it stands: behind any character but the
   first of the alphabet it is taken as a borrow, and the text stands for the address
   of another text.
   */
  lemma {:induction false} ForeignCharacterAccepted(front: string, d: nat, c: char, rest: string)
    requires |front| >= 4 && 0 < d < 32 && IndexOf(Lower(c)) == -1
    ensures ToAddressHex(front + [CHARS[d], c] + rest) == ToAddressHex(front + [CHARS[d - 1], CHARS[31]] + rest)
  {
    hide Read, Value, Digits, ReplaceAtIndex, ToAddressHex;
    AlphabetIndex(d);
    AlphabetIndex(d - 1);
    AlphabetIndex(31);
    hide Lower, IndexOf;
    SameTwo(front, CHARS[d], c, CHARS[d - 1], CHARS[31], rest);
  }

  /** `t` is `s` with its capitals written small. */
  predicate Small(s: string, t: string) {
    |t| == |s| && forall i :: 0 <= i < |s| ==>
      t[i] == if 'A' <= s[i] <= 'Z' then ('a' as int + (s[i] as int - 'A' as int)) as char else s[i]
  }

  /** Behind the type, capitals are read like small letters. */
  lemma {:induction false} CapitalsAreRead(front: string, s: string, t: string)
    requires |front| == 4 && Small(s, t)
    ensures ToAddressHex(front + s) == ToAddressHex(front + t)
  {
    var x, y := front + s, front + t;
    assert DropString(x, 4) == s && DropString(y, 4) == t;
    assert ToLowerCase(s) == ToLowerCase(t);
    assert SliceString(x, 2, 4) == x[2..4] == front[2..4] == y[2..4];
    hide ToLowerCase, Small;
  }

  // ---------------------------------------------------------------- every character

  /** The digits: '1' to '9', then the small letters without i, o and x. */
  function Symbol(d: nat): (c: char)
    requires d < 32
    ensures '1' <= c <= '9' || ('a' <= c <= 'z' && c != 'i' && c != 'o' && c != 'x')
  {
    if d < 9 then ('1' as int + d) as char
    else if d < 17 then ('a' as int + d - 9) as char
    else if d < 22 then ('j' as int + d - 17) as char
    else if d < 30 then ('p' as int + d - 22) as char
    else ('y' as int + d - 30) as char
  }

  function HexSymbol(d: nat): char
    requires d < 16
  {
    if d < 10 then ('0' as int + d) as char else ('a' as int + d - 10) as char
  }

  lemma {:induction false} SymbolsAscend(d: nat, e: nat)
    requires d < e < 32
    ensures Symbol(d) < Symbol(e)
  {
  }

  lemma {:induction false} AlphabetIs(d: nat)
    requires d < 32
    ensures CHARS[d] == Symbol(d) && (d < 16 ==> HEX[d] == HexSymbol(d))
  {
    if d < 8 {
      LowAlphabet(d);
    } else if d < 16 {
      MiddleAlphabet(d);
    } else if d < 24 {
      HighAlphabet(d);
    } else {
      TopAlphabet(d);
    }
  }

  lemma {:induction false} LowAlphabet(d: nat)
    requires d < 8
    ensures CHARS[d] == Symbol(d) && HEX[d] == HexSymbol(d)
  {
    assert d == 0 || d == 1 || d == 2 || d == 3 || d == 4 || d == 5 || d == 6 || d == 7;
  }

  lemma {:induction false} MiddleAlphabet(d: nat)
    requires 8 <= d < 16
    ensures CHARS[d] == Symbol(d) && HEX[d] == HexSymbol(d)
  {
    assert d == 8 || d == 9 || d == 10 || d == 11 || d == 12 || d == 13 || d == 14 || d == 15;
  }

  lemma {:induction false} HighAlphabet(d: nat)
    requires 16 <= d < 24
    ensures CHARS[d] == Symbol(d)
  {
    assert d == 16 || d == 17 || d == 18 || d == 19 || d == 20 || d == 21 || d == 22 || d == 23;
  }

  lemma {:induction false} TopAlphabet(d: nat)
    requires 24 <= d < 32
    ensures CHARS[d] == Symbol(d)
  {
    assert d == 24 || d == 25 || d == 26 || d == 27 || d == 28 || d == 29 || d == 30 || d == 31;
  }

  /**
   Every character of an address's text: the mark, the type in two hexadecimal digits with
   an x for a low zero, and the 32 digits in base 32 that have the value of the body.
   */
  lemma {:induction false} EveryCharacter(address: bytes) returns (digits: seq<int>)
    requires |address| == 21
    ensures |digits| == 32 && AreDigits(digits, 32) && Value(digits, 32) == ToInt(address[1..])
    ensures var text := FromAddressHex(address);
            |text| == 36 && text[0] == 'l' && text[1] == 'c' && text[2] == HexSymbol(address[0] / 16) &&
            text[3] == (if address[0] % 16 == 0 then 'x' else HexSymbol(address[0] % 16)) &&
            forall i :: 0 <= i < 32 ==> text[4 + i] == Symbol(digits[i])
  {
    var text, kind := FromAddressHex(address), ReplaceAtIndex(ToHex(address[..1]), '0', 'x', 1);
    digits := Padded(ToInt(address[1..]), 32, 32);
    BodyText(address[1..]);
    ValueOfPadded(ToInt(address[1..]), 32, 32);
    TypeCharacters(address[0]);
    assert address[..1] == [address[0]];
    hide Pow, Padded, Value, ReplaceAtIndex, ToHex, FromAddressHex, HexSymbol, Symbol;
    TextParts(address);
    SymbolsOf(digits);
    FourAndRest(kind, Chars(digits, CHARS));
  }

  lemma {:induction false} SymbolsOf(digits: seq<int>)
    requires AreDigits(digits, 32)
    ensures |Chars(digits, CHARS)| == |digits|
    ensures forall i :: 0 <= i < |digits| ==> Chars(digits, CHARS)[i] == Symbol(digits[i])
  {
    hide Symbol;
    forall i | 0 <= i < |digits| ensures Chars(digits, CHARS)[i] == Symbol(digits[i]) {
      AlphabetIs(digits[i]);
    }
  }

  lemma {:induction false} FourAndRest(kind: string, rest: string)
    requires |kind| == 2
    ensures var s := "lc" + kind + rest;
            |s| == 4 + |rest| && s[0] == 'l' && s[1] == 'c' && s[2] == kind[0] && s[3] == kind[1] &&
            forall i :: 0 <= i < |rest| ==> s[4 + i] == rest[i]
  {
  }

  lemma {:induction false} TypeCharacters(t: byte)
    ensures ReplaceAtIndex(ToHex([t]), '0', 'x', 1) ==
            [HexSymbol(t / 16), if t % 16 == 0 then 'x' else HexSymbol(t % 16)]
  {
    OneByte(t);
    AlphabetIs(t / 16);
    AlphabetIs(t % 16);
    HexChars(t % 16);
    hide ReplaceAtIndex, ToHex, HexSymbol;
    ReplaceInTwo(HEX[t / 16], HEX[t % 16], '0', 'x');
  }

  /** The text of a body grows with its last digit. */
  lemma {:induction false} LastDigitAscends(a: bytes, b: bytes)
    requires |a| == |b| == 21 && a[20] % 32 < b[20] % 32
    ensures var s, t := FromAddressHex(a), FromAddressHex(b); |s| == |t| == 36 && s[35] < t[35]
  {
    hide FromAddressHex, Symbol, HexSymbol, AreDigits;
    var ds := EveryCharacter(a);
    var es := EveryCharacter(b);
    LastByte(a[1..]);
    LastByte(b[1..]);
    LastDigit(ds);
    LastDigit(es);
    hide Value, ToInt;
    SymbolsAscend(ds[31], es[31]);
  }

  lemma {:induction false} LastByte(body: bytes)
    requires body != []
    ensures ToInt(body) % 32 == body[|body| - 1] % 32
  {
    var v, d := ToInt(body[..|body| - 1]), body[|body| - 1];
    assert ToInt(body) == v * 256 + d;
    hide ToInt;
    ModOf32(v * 8, d);
  }

  lemma {:induction false} ModOf32(k: nat, d: nat)
    ensures (k * 32 + d) % 32 == d % 32
  {
    assert k * 32 + d == (k + d / 32) * 32 + d % 32;
  }

  lemma {:induction false} LastDigit(ds: seq<int>)
    requires ds != [] && AreDigits(ds, 32)
    ensures Value(ds, 32) % 32 == ds[|ds| - 1] && 0 <= ds[|ds| - 1] < 32
  {
    var v := Value(ds[..|ds| - 1], 32);
    assert Value(ds, 32) == v * 32 + ds[|ds| - 1];
  }

  // ---------------------------------------------------------------- the loops

  method DecodeLoop(s: string) returns (r: string)
    ensures r == ToAddressHex(s)
  {
    var data := "2" + ToLowerCase(DropString(s, 4));
    var value := 0;
    for i := 0 to |data|
      invariant value == Value(Indices(data)[..i], 32)
    {
      value := value * 32 + IndexOf(data[i]);
      assert Indices(data)[..i + 1][..i] == Indices(data)[..i];
    }
    assert Indices(data)[..|data|] == Indices(data);
    assert value == Read(s);
    r := ReplaceAtIndex(SliceString(s, 2, 4), 'x', '0', 0) + DropString(Chars(Digits(value, 16), HEX), 1);
  }

  method EncodeLoop(address: bytes) returns (r: string)
    requires |address| == 21
    ensures r == FromAddressHex(address)
  {
    var value: nat := Marked(address[1..]);
    var text := "";
    ghost var ds: seq<int> := [];
    while value > 0
      invariant AreDigits(ds, 32) && text == Chars(ds, CHARS)
      invariant Digits(Marked(address[1..]), 32) == Digits(value, 32) + ds
    {
      assert Digits(value / 32, 32) + [value % 32] + ds == Digits(value / 32, 32) + ([value % 32] + ds);
      ds := [value % 32] + ds;
      text := [CHARS[value % 32]] + text;
      value := value / 32;
    }
    assert [] + ds == ds;
    r := "lc" + ReplaceAtIndex(ToHex(address[..1]), '0', 'x', 1) + DropString(text, 1);
  }
}
