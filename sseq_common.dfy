/** The byte-stream readers and formatting helpers of the SSEQ player's
    common header: little-endian integers, the big-endian base-128 length
    ("variable length") integers of the sequence data, NUL-terminated
    strings, fixed-width hexadecimal formatting and header comparison. */
module SseqStream {
  import opened Bits

  // ---------------------------------------------------------------------
  // Little-endian integers

  /** The value of `bytes` read least significant byte first. */
  function LE(bytes: seq<Byte>): (v: nat)
    ensures v < Pow256(|bytes|)
  {
    if bytes == [] then 0
    else
      var n := |bytes| - 1;
      assert LE(bytes[..n]) + bytes[n] * Pow256(n) < Pow256(n + 1) by {
        MulMonotone(bytes[n], 255, Pow256(n));
      }
      LE(bytes[..n]) + bytes[n] * Pow256(n)
  }

  /** The n bytes that store v least significant first (v reduced to n bytes). */
  function LEBytes(v: nat, n: nat): (bytes: seq<Byte>)
    ensures |bytes| == n
  {
    if n == 0 then [] else [v % 256] + LEBytes(v / 256, n - 1)
  }

  /** Reading from the front: the first byte is the low byte. */
  lemma {:induction false} LEFront(bytes: seq<Byte>)
    requires bytes != []
    ensures LE(bytes) == bytes[0] + 256 * LE(bytes[1..])
    decreases |bytes|
  {
    var n := |bytes| - 1;
    if n > 0 {
      LEFront(bytes[..n]);
      assert bytes[..n][1..] == bytes[1..][..n - 1];
      assert bytes[..n][0] == bytes[0];
      assert bytes[1..][n - 1] == bytes[n];
      assert 256 * (bytes[n] * Pow256(n - 1)) == bytes[n] * Pow256(n);
    } else {
      assert bytes[1..] == [];
    }
  }

  /** Storing a value in n bytes and reading them back gives the value
      modulo 256^n. */
  lemma {:induction false} LERoundTrip(v: nat, n: nat)
    ensures LE(LEBytes(v, n)) == v % Pow256(n)
    decreases n
  {
    if n > 0 {
      var bytes := LEBytes(v, n);
      LEFront(bytes);
      assert bytes[1..] == LEBytes(v / 256, n - 1);
      LERoundTrip(v / 256, n - 1);
      ModOfProduct(v, 256, Pow256(n - 1));
    }
  }

  /** Reading n bytes and storing the value back in n bytes gives the bytes. */
  lemma {:induction false} LEBytesOfLE(bytes: seq<Byte>)
    ensures LEBytes(LE(bytes), |bytes|) == bytes
    decreases |bytes|
  {
    if bytes != [] {
      LEFront(bytes);
      var v := LE(bytes);
      DivModUnique(v, 256, LE(bytes[1..]), bytes[0]);
      LEBytesOfLE(bytes[1..]);
      assert LEBytes(v, |bytes|) == [bytes[0]] + bytes[1..];
    }
  }

  /** `sizeof(T)` of the integral types the readers are instantiated with;
      64-bit types are excluded (their upper bytes are shifted as `int`). */
  predicate IntegralSize(size: nat)
  {
    size == 1 || size == 2 || size == 4
  }

  /** Free `ReadLE<T>(arr)`: assembles `sizeof(T)` bytes of `arr`
      least significant first. */
  method ReadLEFrom(arr: seq<Byte>, size: nat) returns (finalVal: nat)
    requires IntegralSize(size) && size <= |arr|
    ensures finalVal < Pow256(size)
    ensures LEBytes(finalVal, size) == arr[..size]
  {
    finalVal := 0;
    for i := 0 to size
      invariant finalVal == LE(arr[..i])
    {
      // `finalVal |= arr[i] << (i * 8)`: the byte lands above every bit set so far
      finalVal := finalVal + arr[i] * Pow256(i);
      assert arr[..i + 1][..i] == arr[..i];
    }
    assert arr[..size] == arr[..size][..size];
    LEBytesOfLE(arr[..size]);
  }

  // ---------------------------------------------------------------------
  // PseudoFile: a read position over a byte vector

  /** The least index at or after `from` holding a NUL byte. */
  predicate HasNul(data: seq<Byte>, from: nat)
  {
    exists k :: from <= k < |data| && data[k] == 0
  }

  function NulAt(data: seq<Byte>, from: nat): (k: nat)
    requires HasNul(data, from)
    ensures from <= k < |data| && data[k] == 0
    ensures forall i :: from <= i < k ==> data[i] != 0
    decreases |data| - from
  {
    if data[from] == 0 then from
    else
      assert HasNul(data, from + 1) by {
        var k :| from <= k < |data| && data[k] == 0;
        assert k != from;
      }
      NulAt(data, from + 1)
  }

  class PseudoFile {
    /** `*data`: the vector being read; the reader never changes it. */
    const data: seq<Byte>
    /** The read position. */
    var pos: nat

    constructor (data: seq<Byte>)
      ensures this.data == data && pos == 0
    {
      this.data := data;
      pos := 0;
    }

    /** `ReadLE<T>()`: the next `sizeof(T)` bytes, least significant first. */
    method ReadLE(size: nat) returns (finalVal: nat)
      requires IntegralSize(size) && pos + size <= |data|
      modifies this
      ensures pos == old(pos) + size
      ensures finalVal == LE(data[old(pos)..pos])
    {
      finalVal := 0;
      ghost var start := pos;
      for i := 0 to size
        invariant pos == start + i
        invariant finalVal == LE(data[start..pos])
      {
        assert data[start..pos + 1][..i] == data[start..pos];
        finalVal := finalVal + data[pos] * Pow256(i);
        pos := pos + 1;
      }
    }

    /** `ReadLE(T (&arr)[N])` and `ReadLE(std::vector<T> &)`: n values of
        `sizeof(T)` bytes each, one after the other. */
    method ReadLEArray(size: nat, n: nat) returns (arr: seq<nat>)
      requires IntegralSize(size) && pos + n * size <= |data|
      modifies this
      ensures pos == old(pos) + n * size
      ensures |arr| == n
      ensures forall i :: 0 <= i < n ==>
        arr[i] == LE(data[old(pos) + i * size..old(pos) + (i + 1) * size])
    {
      arr := [];
      ghost var start := pos;
      for i := 0 to n
        invariant pos == start + i * size && |arr| == i
        invariant forall j :: 0 <= j < i ==>
          arr[j] == LE(data[start + j * size..start + (j + 1) * size])
      {
        MulMonotone(i + 1, n, size);
        var v := ReadLE(size);
        arr := arr + [v];
      }
    }

    /** `ReadLE(std::uint8_t arr[N])` and `ReadLE(std::vector<std::uint8_t> &)`:
        n raw bytes copied as they are. */
    method ReadBytes(n: nat) returns (arr: seq<Byte>)
      requires pos + n <= |data|
      modifies this
      ensures pos == old(pos) + n
      ensures arr == data[old(pos)..pos]
    {
      arr := data[pos..pos + n];
      pos := pos + n;
    }

    /** `ReadNullTerminatedString()`: the bytes up to the next NUL, which is
        consumed but not returned. */
    method ReadNullTerminatedString() returns (str: seq<Byte>)
      requires HasNul(data, pos)
      modifies this
      ensures pos == NulAt(data, old(pos)) + 1
      ensures str == data[old(pos)..pos - 1]
      ensures forall i :: 0 <= i < |str| ==> str[i] != 0
    {
      ghost var start := pos;
      ghost var end := NulAt(data, pos);
      str := [];
      var chr := 1;
      while chr != 0
        invariant start <= pos <= end + 1
        invariant chr == 0 <==> pos == end + 1
        invariant str == data[start..if chr == 0 then pos - 1 else pos]
        decreases end + 1 - pos
      {
        chr := ReadLE(1);
        LEFront(data[pos - 1..pos]);
        assert chr == data[pos - 1];
        if chr != 0 {
          assert data[start..pos] == data[start..pos - 1] + [data[pos - 1]];
          str := str + [chr];
        }
      }
    }
  }

  // ---------------------------------------------------------------------
  // The `const std::uint8_t **` cursor of the sequence reader

  /** Number of bytes of a base-128 integer: up to and including the first
      byte whose bit 7 is clear. */
  predicate VlTerminated(s: seq<Byte>)
  {
    exists k :: 0 <= k < |s| && s[k] < 0x80
  }

  function VlSpan(s: seq<Byte>): (n: nat)
    requires VlTerminated(s)
    ensures 1 <= n <= |s| && s[n - 1] < 0x80
    ensures forall i :: 0 <= i < n - 1 ==> s[i] >= 0x80
  {
    if s[0] < 0x80 then 1
    else
      assert VlTerminated(s[1..]) by {
        var k :| 0 <= k < |s| && s[k] < 0x80;
        assert s[1..][k - 1] == s[k];
      }
      1 + VlSpan(s[1..])
  }

  /** The 7-bit groups of `s` concatenated, most significant first. */
  function VlValue(s: seq<Byte>): nat
  {
    if s == [] then 0 else VlValue(s[..|s| - 1]) * 128 + s[|s| - 1] % 128
  }

  /** Big-endian base-128 encoding: every byte but the last has bit 7 set. */
  function VlEncode(x: nat): (s: seq<Byte>)
    ensures s != [] && s[|s| - 1] < 0x80
  {
    VlPrefix(x / 128) + [x % 128]
  }

  function VlPrefix(y: nat): (s: seq<Byte>)
    ensures forall i :: 0 <= i < |s| ==> s[i] >= 0x80
  {
    if y == 0 then [] else VlPrefix(y / 128) + [y % 128 + 128]
  }

  function Pow128(k: nat): (r: nat)
    ensures r >= 1
  {
    if k == 0 then 1 else 128 * Pow128(k - 1)
  }

  lemma {:induction false} VlPrefixValue(y: nat)
    ensures VlValue(VlPrefix(y)) == y
    decreases y
  {
    if y > 0 {
      var s := VlPrefix(y);
      var q, r := y / 128, y % 128;
      assert s[..|s| - 1] == VlPrefix(q) && s[|s| - 1] % 128 == r;
      VlPrefixValue(q);
      assert VlValue(s) == q * 128 + r;
    }
  }

  lemma {:induction false} VlPrefixLength(y: nat, k: nat)
    requires y < Pow128(k)
    ensures |VlPrefix(y)| <= k
    decreases k
  {
    if y > 0 {
      VlPrefixLength(y / 128, k - 1);
    }
  }

  /** A run of continuation bytes closed by one byte with bit 7 clear is
      read to its end, whatever follows it. */
  lemma VlSpanOfRun(e: seq<Byte>, rest: seq<Byte>)
    requires e != [] && e[|e| - 1] < 0x80
    requires forall i :: 0 <= i < |e| - 1 ==> e[i] >= 0x80
    ensures VlTerminated(e + rest) && VlSpan(e + rest) == |e|
  {
    var s := e + rest;
    assert s[|e| - 1] == e[|e| - 1];
  }

  lemma VlEncodeValue(x: nat)
    ensures VlValue(VlEncode(x)) == x
  {
    var e := VlEncode(x);
    var q, r := x / 128, x % 128;
    assert e[..|e| - 1] == VlPrefix(q) && e[|e| - 1] % 128 == r;
    VlPrefixValue(q);
    assert VlValue(e) == q * 128 + r;
  }

  /** readvl reads back what the encoder wrote, stopping exactly after it;
      values below 2^28 take at most four bytes, so the decoder's `int`
      accumulator cannot overflow on them. */
  lemma VlRoundTrip(x: nat, rest: seq<Byte>)
    ensures VlTerminated(VlEncode(x) + rest)
    ensures VlSpan(VlEncode(x) + rest) == |VlEncode(x)|
    ensures VlValue(VlEncode(x)) == x
    ensures x < 0x1000_0000 ==> |VlEncode(x)| <= 4
  {
    var e := VlEncode(x);
    assert forall i :: 0 <= i < |e| - 1 ==> e[i] == VlPrefix(x / 128)[i];
    VlSpanOfRun(e, rest);
    VlEncodeValue(x);
    if x < 0x1000_0000 {
      VlPrefixLength(x / 128, 3);
    }
  }

  /** Bytes of `s` before its first byte with bit 7 clear are at most k-1
      continuation bytes: the value then fits in 7k bits. */
  lemma {:induction false} VlValueBound(s: seq<Byte>)
    ensures VlValue(s) < Pow128(|s|)
    decreases |s|
  {
    if s != [] {
      var n := |s| - 1;
      VlValueBound(s[..n]);
      MulMonotone(VlValue(s[..n]), Pow128(n) - 1, 128);
    }
  }

  /** One more byte appends its seven low bits. */
  lemma VlValueSnoc(s: seq<Byte>, b: Byte)
    ensures VlValue(s + [b]) == VlValue(s) * 128 + b % 128
  {
    assert (s + [b])[..|s|] == s;
  }

  /** The groups read so far never exceed the whole integer's value. */
  lemma {:induction false} VlValuePrefix(s: seq<Byte>, i: nat)
    requires i <= |s|
    ensures VlValue(s[..i]) <= VlValue(s)
    decreases |s|
  {
    if i == |s| {
      assert s[..i] == s;
    } else {
      var n := |s| - 1;
      assert s[..n][..i] == s[..i];
      VlValuePrefix(s[..n], i);
      assert VlValue(s) == VlValue(s[..n]) * 128 + s[n] % 128;
    }
  }

  /** The accumulator of `readvl` holds the groups before the last byte
      when it makes its last shift; the shifts stay inside a 32-bit `int`
      exactly when that value is below 2^24. Integers of at most four
      bytes always are. */
  predicate VlFitsInt(s: seq<Byte>)
    requires VlTerminated(s)
  {
    VlValue(s[..VlSpan(s) - 1]) < 0x100_0000
  }

  lemma VlShortFitsInt(s: seq<Byte>)
    requires VlTerminated(s) && VlSpan(s) <= 4
    ensures VlFitsInt(s)
  {
    VlValueBound(s[..VlSpan(s) - 1]);
    assert Pow128(3) == 0x20_0000 && Pow128(2) == 0x4000 && Pow128(1) == 128 && Pow128(0) == 1;
  }

  /** Every group prefix before the last byte of an encoding that fits
      stays below 2^24. */
  lemma VlPrefixFitsInt(s: seq<Byte>, k: nat)
    requires VlTerminated(s) && VlFitsInt(s) && k < VlSpan(s)
    ensures VlValue(s[..k]) < 0x100_0000
  {
    var body := s[..VlSpan(s) - 1];
    assert s[..k] == body[..k];
    VlValuePrefix(body, k);
  }

  /** One more group on an accumulator below 2^24 stays below 2^31. */
  lemma VlStepFitsInt(v: nat, b: Byte)
    requires v < 0x100_0000
    ensures v * 128 + b % 128 < 0x8000_0000
  {
  }

  class ByteCursor {
    /** The buffer the cursor walks over. */
    const data: seq<Byte>
    /** Offset of `*ppData` into the buffer. */
    var pos: nat

    constructor (data: seq<Byte>, pos: nat)
      ensures this.data == data && this.pos == pos
    {
      this.data := data;
      this.pos := pos;
    }

    /** `read8`: one byte, advancing the cursor by one. */
    method Read8() returns (x: Byte)
      requires pos < |data|
      modifies this
      ensures pos == old(pos) + 1
      ensures x == data[old(pos)]
    {
      x := data[pos];
      pos := pos + 1;
    }

    /** `read16`: b0 | b1 << 8, advancing the cursor by two. */
    method Read16() returns (x: Word)
      requires pos + 2 <= |data|
      modifies this
      ensures pos == old(pos) + 2
      ensures x == data[old(pos)] + 0x100 * (data[old(pos) + 1] as int)
      ensures x == LE(data[old(pos)..pos])
    {
      var lo := Read8();
      var hi := Read8();
      x := lo + (hi as int) * 0x100;
      LEFront(data[pos - 2..pos]);
      LEFront(data[pos - 1..pos]);
      assert data[pos - 2..pos][1..] == data[pos - 1..pos];
    }

    /** `read24`: b0 | b1 << 8 | b2 << 16, advancing the cursor by three. */
    method Read24() returns (x: int)
      requires pos + 3 <= |data|
      modifies this
      ensures pos == old(pos) + 3
      ensures x == data[old(pos)] + 0x100 * (data[old(pos) + 1] as int) + 0x1_0000 * (data[old(pos) + 2] as int)
      ensures x == LE(data[old(pos)..pos])
    {
      var b0 := Read8();
      var b1 := Read8();
      var b2 := Read8();
      x := b0 + (b1 as int) * 0x100 + (b2 as int) * 0x1_0000;
      LEFront(data[pos - 3..pos]);
      LEFront(data[pos - 2..pos]);
      LEFront(data[pos - 1..pos]);
      assert data[pos - 3..pos][1..] == data[pos - 2..pos];
      assert data[pos - 2..pos][1..] == data[pos - 1..pos];
    }

    /** `readvl`: a big-endian base-128 integer, consuming bytes up to and
        including the first one with bit 7 clear. The source accumulates in
        an `int`, so the groups before the last byte must fit in 24 bits. */
    method ReadVL() returns (x: int)
      requires pos <= |data| && VlTerminated(data[pos..]) && VlFitsInt(data[pos..])
      modifies this
      ensures pos == old(pos) + VlSpan(data[old(pos)..])
      ensures x == VlValue(data[old(pos)..pos])
      ensures 0 <= x < 0x8000_0000
    {
      ghost var start := pos;
      ghost var rest := data[pos..];
      ghost var span := VlSpan(rest);
      x := 0;
      while true
        invariant start <= pos < start + span
        invariant x == VlValue(data[start..pos])
        decreases start + span - pos
      {
        assert rest[pos - start] == data[pos];
        ghost var before := data[start..pos];
        assert before == rest[..pos - start];
        VlPrefixFitsInt(rest, pos - start);
        var b := Read8();
        VlStepFitsInt(x, b);
        // `x = (x << 7) | (data & 0x7F)`
        x := x * 128 + b % 128;
        assert data[start..pos] == before + [b];
        VlValueSnoc(before, b);
        if b < 0x80 {
          assert pos - start == span;
          break;
        }
        assert pos - 1 - start < span - 1;
      }
    }
  }

  // ---------------------------------------------------------------------
  // Hexadecimal formatting

  /** The lower-case hexadecimal digit of a nibble. */
  function HexChar(nibble: int): (c: char)
    requires 0 <= nibble < 16
    ensures IsLowerHexDigit(c) && HexValue(c) == nibble
  {
    if nibble < 10 then (nibble + '0' as int) as char else (nibble - 10 + 'a' as int) as char
  }

  predicate IsLowerHexDigit(c: char)
  {
    '0' <= c <= '9' || 'a' <= c <= 'f'
  }

  function HexValue(c: char): (v: nat)
    requires IsLowerHexDigit(c)
    ensures v < 16
  {
    if c <= '9' then c as int - '0' as int else c as int - 'a' as int + 10
  }

  /** The w low nibbles of num (two's complement for negative num), most
      significant first. */
  function HexDigits(num: int, w: nat): (s: string)
    ensures |s| == w
  {
    if w == 0 then [] else [HexChar((num / Pow16(w - 1)) % 16)] + HexDigits(num, w - 1)
  }

  /** A digit below 16 followed by a value below q stays below 16q. */
  lemma DigitStep(d: int, rest: int, q: int)
    requires 0 <= d < 16 && 0 <= rest < q
    ensures d * q + rest < 16 * q
  {
    MulMonotone(d, 15, q);
  }

  /** The value of a string of hexadecimal digits, most significant first. */
  function ParseHex(s: string): (v: nat)
    requires forall i :: 0 <= i < |s| ==> IsLowerHexDigit(s[i])
    ensures v < Pow16(|s|)
  {
    if s == [] then 0
    else
      DigitStep(HexValue(s[0]), ParseHex(s[1..]), Pow16(|s| - 1));
      HexValue(s[0]) * Pow16(|s| - 1) + ParseHex(s[1..])
  }

  /** Every formatted digit is a lower-case hex digit and parsing the digits
      back gives num modulo 16^w. */
  lemma {:induction false} HexDigitsRoundTrip(num: int, w: nat)
    ensures forall i :: 0 <= i < w ==> IsLowerHexDigit(HexDigits(num, w)[i])
    ensures ParseHex(HexDigits(num, w)) == num % Pow16(w)
    decreases w
  {
    if w > 0 {
      var s := HexDigits(num, w);
      HexDigitsRoundTrip(num, w - 1);
      assert s[1..] == HexDigits(num, w - 1);
      var nib := (num / Pow16(w - 1)) % 16;
      assert HexValue(HexChar(nib)) == nib;
      ModOfProduct(num, Pow16(w - 1), 16);
      assert Pow16(w - 1) * 16 == Pow16(w);
    }
  }

  lemma {:induction false} Pow16Twice(n: nat)
    ensures Pow16(2 * n) == Pow256(n)
    decreases n
  {
    if n > 0 {
      Pow16Twice(n - 1);
      assert Pow16(2 * n) == 16 * Pow16(2 * n - 1);
    }
  }

  /** `NumToHexString(num)`: "0x" followed by 2*sizeof(T) lower-case digits,
      most significant first. `num` is a value of an integral type of `size`
      bytes, signed or unsigned. */
  method NumToHexString(num: int, size: nat) returns (s: string)
    requires size == 1 || size == 2 || size == 4 || size == 8
    requires -((Pow256(size) / 2) as int) <= num < Pow256(size)
    ensures |s| == 2 + 2 * size && s[..2] == "0x"
    ensures forall i :: 2 <= i < |s| ==> IsLowerHexDigit(s[i])
    ensures ParseHex(s[2..]) == num % Pow256(size)
  {
    var hex: string := "";
    var len := size * 2;
    for i := 0 to len
      invariant hex == HexDigits(num, i)
    {
      // `(num >> (i * 4)) & 0xF`: `>>` on a signed value floors like `/`
      var tmp := (num / Pow16(i)) % 16;
      hex := [HexChar(tmp)] + hex;
    }
    s := "0x" + hex;
    assert s[2..] == hex;
    HexDigitsRoundTrip(num, len);
    Pow16Twice(size);
  }

  // ---------------------------------------------------------------------
  // Header check

  /** `VerifyHeader(arr, header)`: the N bytes of `arr`, NULs included,
      spell `header` exactly (bytes are compared as unsigned). The
      pointwise agreement in the contract is the whole meaning of the
      source's byte-by-byte comparison. */
  function VerifyHeader(arr: seq<Byte>, header: seq<Byte>): (ok: bool)
    ensures ok ==> |header| == |arr|
    ensures ok <==> |header| == |arr| && forall i :: 0 <= i < |arr| ==> arr[i] == header[i]
  {
    arr == header
  }
}
