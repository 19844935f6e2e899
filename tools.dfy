/** The static helpers of class `Tools` (include/Tools.hpp): the clock read with a
    minute offset, the lowercase hex encoding of a SHA-256 digest, the time-ordered
    session identifier, and the tolerant integer extraction built on `std::stoi`.

    The system clock, the high-resolution clock, the random engine and the OpenSSL
    digest are not computed here: their values are parameters. */
module Tools {
  import opened Outcomes

  type Byte = b: int | 0 <= b < 256

  /** A SHA-256 digest: 32 bytes. */
  type Digest = d: seq<Byte> | |d| == 32 witness seq(32, _ => 0)

  /** C++ `unsigned int` (32 bits). */
  type U32 = n: int | 0 <= n < 0x1_0000_0000

  const TwoTo32: int := 0x1_0000_0000
  /** Range of C++ `int` (32 bits). */
  const IntMin: int := -0x8000_0000
  const IntMax: int := 0x7fff_ffff

  // ------------------------------------------------------------------------
  // currentTimestamp
  // ------------------------------------------------------------------------

  /** Ticks of `std::chrono::system_clock` in one minute. With libstdc++ the
      clock counts nanoseconds, and adding `std::chrono::minutes` to a time
      point keeps that finer unit. */
  const TicksPerMinute: int := 60_000_000_000

  /** `currentTimestamp(addedminutes)`: the clock reading `clock` (ticks since the
      epoch) moved `addedMinutes` minutes into the future. */
  function CurrentTimestamp(clock: int, addedMinutes: int := 0): (t: int)
    ensures addedMinutes >= 0 ==> t >= clock
    ensures addedMinutes > 0 ==> t > clock
  {
    clock + addedMinutes * TicksPerMinute
  }

  /** The offset is linear in the minutes added. */
  lemma CurrentTimestampOffset(clock: int, m: int)
    ensures CurrentTimestamp(clock, m) == CurrentTimestamp(clock) + m * TicksPerMinute
  {
  }

  /** More minutes added never gives an earlier timestamp. */
  lemma CurrentTimestampMonotone(clock: int, m1: int, m2: int)
    requires m1 <= m2
    ensures CurrentTimestamp(clock, m1) <= CurrentTimestamp(clock, m2)
  {
  }

  // ------------------------------------------------------------------------
  // Lowercase hexadecimal (the `%02x` of sha256, the std::hex of the uuid)
  // ------------------------------------------------------------------------

  predicate IsLowerHexChar(c: char)
  {
    '0' <= c <= '9' || 'a' <= c <= 'f'
  }

  predicate IsLowerHex(s: string)
  {
    forall i :: 0 <= i < |s| ==> IsLowerHexChar(s[i])
  }

  function HexDigit(n: int): (c: char)
    requires 0 <= n < 16
    ensures IsLowerHexChar(c)
  {
    if n < 10 then ('0' as int + n) as char else ('a' as int + n - 10) as char
  }

  /** Inverse of HexDigit. */
  function HexDigitValue(c: char): (n: int)
    requires IsLowerHexChar(c)
    ensures 0 <= n < 16 && HexDigit(n) == c
  {
    if c <= '9' then c as int - '0' as int else c as int - 'a' as int + 10
  }

  /** `sprintf(hex, "%02x", b)`: two lowercase digits, high nibble first. */
  function HexByte(b: Byte): (s: string)
    ensures |s| == 2 && IsLowerHex(s)
  {
    [HexDigit(b / 16), HexDigit(b % 16)]
  }

  /** The bytes written one after the other as HexByte. */
  function Hex(bytes: seq<Byte>): (s: string)
    ensures |s| == 2 * |bytes|
  {
    if bytes == [] then "" else Hex(bytes[..|bytes| - 1]) + HexByte(bytes[|bytes| - 1])
  }

  /** Characters 2k and 2k+1 of the encoding are the two digits of byte k. */
  lemma {:induction false} HexAt(bytes: seq<Byte>, k: int)
    requires 0 <= k < |bytes|
    ensures Hex(bytes)[2 * k] == HexDigit(bytes[k] / 16)
    ensures Hex(bytes)[2 * k + 1] == HexDigit(bytes[k] % 16)
  {
    var n := |bytes| - 1;
    if k < n {
      HexAt(bytes[..n], k);
    }
  }

  lemma HexIsLowerHex(bytes: seq<Byte>)
    ensures IsLowerHex(Hex(bytes))
  {
    forall i | 0 <= i < |Hex(bytes)|
      ensures IsLowerHexChar(Hex(bytes)[i])
    {
      HexAt(bytes, i / 2);
    }
  }

  /** Decoding of an even-length lowercase hex string, two digits per byte. */
  function Unhex(s: string): (bytes: seq<Byte>)
    requires |s| % 2 == 0 && IsLowerHex(s)
    ensures 2 * |bytes| == |s|
  {
    if s == [] then []
    else Unhex(s[..|s| - 2]) + [UnhexByte(s[|s| - 2], s[|s| - 1])]
  }

  /** The byte two hex digits denote, high nibble first. */
  function UnhexByte(hi: char, lo: char): Byte
    requires IsLowerHexChar(hi) && IsLowerHexChar(lo)
  {
    16 * HexDigitValue(hi) + HexDigitValue(lo)
  }

  /** Reading back the two digits of a byte gives the byte. */
  lemma UnhexByteHexByte(b: Byte)
    ensures UnhexByte(HexByte(b)[0], HexByte(b)[1]) == b
  {
    var hi, lo := b / 16, b % 16;
    assert HexDigitValue(HexDigit(hi)) == hi;
    assert HexDigitValue(HexDigit(lo)) == lo;
  }

  /** Decoding a text extended by one byte's two digits appends that byte. */
  lemma UnhexAppendByte(t: string, b: Byte)
    requires |t| % 2 == 0 && IsLowerHex(t)
    ensures IsLowerHex(t + HexByte(b))
    ensures Unhex(t + HexByte(b)) == Unhex(t) + [b]
  {
    var h := HexByte(b);
    var s := t + h;
    assert IsLowerHex(s) by {
      forall i | 0 <= i < |s| ensures IsLowerHexChar(s[i]) {
        if i < |t| {
          assert s[i] == t[i];
        } else {
          assert s[i] == h[i - |t|];
        }
      }
    }
    assert s[..|s| - 2] == t;
    assert s[|s| - 2] == h[0] && s[|s| - 1] == h[1];
    UnhexByteHexByte(b);
  }

  /** Decoding undoes the encoding. */
  lemma {:induction false} UnhexHex(bytes: seq<Byte>)
    ensures IsLowerHex(Hex(bytes)) && Unhex(Hex(bytes)) == bytes
  {
    if bytes != [] {
      var n := |bytes| - 1;
      var init, last := bytes[..n], bytes[n];
      assert bytes == init + [last] by {
        assert |init + [last]| == |bytes|;
        forall i | 0 <= i < |bytes| ensures (init + [last])[i] == bytes[i] {
        }
      }
      UnhexHex(init);
      UnhexAppendByte(Hex(init), last);
    }
  }

  /** Distinct byte strings have distinct encodings. */
  lemma HexInjective(a: seq<Byte>, b: seq<Byte>)
    requires Hex(a) == Hex(b)
    ensures a == b
  {
    UnhexHex(a);
    UnhexHex(b);
  }

  // ------------------------------------------------------------------------
  // sha256
  // ------------------------------------------------------------------------

  /** The string `Tools::sha256(input)` returns, where `digest` stands for the
      OpenSSL SHA-256 computation. */
  function Sha256Hex(digest: string -> Digest, input: string): (hashed: string)
    ensures |hashed| == 64 && IsLowerHex(hashed)
  {
    HexIsLowerHex(digest(input));
    Hex(digest(input))
  }

  /** `Tools::sha256`: the digest's bytes appended one `%02x` at a time. */
  method Sha256(input: string, digest: string -> Digest) returns (hashedString: string)
    ensures hashedString == Sha256Hex(digest, input)
  {
    var hash := digest(input);
    hashedString := "";
    var i := 0;
    while i < 32
      invariant 0 <= i <= 32
      invariant hashedString == Hex(hash[..i])
    {
      assert hash[..i + 1][..i] == hash[..i];
      hashedString := hashedString + HexByte(hash[i]);
      i := i + 1;
    }
    assert hash[..32] == hash;
  }

  /** The fingerprint is 64 lowercase hex characters; characters 2i and 2i+1 are
      the `%02x` of digest byte i; distinct digests give distinct fingerprints. */
  lemma Sha256HexShape(digest: string -> Digest, x: string, y: string)
    ensures |Sha256Hex(digest, x)| == 64 && IsLowerHex(Sha256Hex(digest, x))
    ensures forall i :: 0 <= i < 32 ==> Sha256Hex(digest, x)[2 * i..2 * i + 2] == HexByte(digest(x)[i])
    ensures Sha256Hex(digest, x) == Sha256Hex(digest, y) ==> digest(x) == digest(y)
  {
    var h := Sha256Hex(digest, x);
    forall i | 0 <= i < 32
      ensures h[2 * i..2 * i + 2] == HexByte(digest(x)[i])
    {
      HexAt(digest(x), i);
    }
    if h == Sha256Hex(digest, y) {
      HexInjective(digest(x), digest(y));
    }
  }

  // ------------------------------------------------------------------------
  // uuidFromTimestamp
  // ------------------------------------------------------------------------

  function Pow256(e: nat): (p: int)
    ensures p > 0
  {
    if e == 0 then 1 else 256 * Pow256(e - 1)
  }

  /** Byte i (0..7) of the signed 64-bit nanosecond count, most significant
      first: `(timestamp >> ((7 - i) * 8)) & 0xFF`. For a positive divisor Dafny's
      `/` rounds down, as an arithmetic right shift does, and `% 256` keeps the
      low eight bits, so a negative count gives its two's-complement bytes. */
  function TimestampByte(nanos: int, i: int): Byte
    requires 0 <= i < 8
  {
    (nanos / Pow256(7 - i)) % 256
  }

  /** The number a byte string denotes, most significant byte first. */
  function BigEndian(bytes: seq<Byte>): (v: nat)
    ensures v < Pow256(|bytes|)
  {
    if bytes == [] then 0
    else
      var init := BigEndian(bytes[..|bytes| - 1]);
      assert init * 256 <= (Pow256(|bytes| - 1) - 1) * 256;
      init * 256 + bytes[|bytes| - 1]
  }

  /** The eight bytes of the clock reading, in the order the fill loop writes them. */
  function TimestampBytes(nanos: int): (t: seq<Byte>)
    ensures |t| == 8
    ensures forall i :: 0 <= i < 8 ==> t[i] == TimestampByte(nanos, i)
  {
    seq(8, i requires 0 <= i < 8 => TimestampByte(nanos, i))
  }

  /** Quotient and remainder are determined by the division equation. */
  lemma DivModUnique(n: int, d: int, q: int, m: int)
    requires d > 0 && n == d * q + m && 0 <= m < d
    ensures n / d == q && n % d == m
  {
    var q', m' := n / d, n % d;
    assert d * q + m == d * q' + m';
    assert d * (q - q') == d * q - d * q' && d * (q' - q) == d * q' - d * q;
    if q > q' {
      MulAtLeast(d, q - q');
    } else if q < q' {
      MulAtLeast(d, q' - q);
    }
  }

  lemma {:induction false} MulAtLeast(a: int, k: int)
    requires a >= 0 && k >= 1
    ensures a * k >= a
  {
    if k > 1 {
      MulAtLeast(a, k - 1);
      assert a * k == a * (k - 1) + a;
    }
  }

  /** Dividing by a, then by b, is dividing by a * b. */
  lemma DivDiv(n: int, a: int, b: int)
    requires a > 0 && b > 0
    ensures n / (a * b) == (n / a) / b
  {
    var q, r := n / a, n % a;
    var q2, r2 := q / b, q % b;
    assert n == (a * b) * q2 + (a * r2 + r) by {
      assert n == a * q + r;
      assert q == b * q2 + r2;
    }
    assert a * r2 <= a * (b - 1);
    DivModUnique(n, a * b, q2, a * r2 + r);
  }

  /** The remainder modulo 256 * p splits into the remainder of the quotient by
      256 modulo p, shifted by one byte, and the low byte. */
  lemma ModByteSplit(x: int, p: int)
    requires p > 0
    ensures x % (256 * p) == ((x / 256) % p) * 256 + x % 256
  {
    var q, r := x / 256, x % 256;
    var q2, r2 := q / p, q % p;
    assert x == (256 * p) * q2 + (r2 * 256 + r) by {
      assert x == 256 * q + r;
      assert q == p * q2 + r2;
    }
    assert r2 * 256 <= (p - 1) * 256;
    DivModUnique(x, 256 * p, q2, r2 * 256 + r);
  }

  /** The first k clock bytes denote the clock reading shifted right by
      8 * (8 - k) bits, truncated to k bytes. */
  lemma {:induction false} TimestampPrefix(nanos: int, k: nat)
    requires k <= 8
    ensures BigEndian(TimestampBytes(nanos)[..k]) == (nanos / Pow256(8 - k)) % Pow256(k)
  {
    if k > 0 {
      var t := TimestampBytes(nanos);
      TimestampPrefix(nanos, k - 1);
      assert t[..k][..k - 1] == t[..k - 1];
      var x := nanos / Pow256(8 - k);
      assert Pow256(8 - (k - 1)) == Pow256(8 - k) * 256;
      DivDiv(nanos, Pow256(8 - k), 256);
      ModByteSplit(x, Pow256(k - 1));
    }
  }

  /** The eight clock bytes are the 64-bit two's-complement encoding of the
      reading, most significant first: they denote it modulo 2^64. */
  lemma TimestampBytesBigEndian(nanos: int)
    ensures BigEndian(TimestampBytes(nanos)) == nanos % Pow256(8)
  {
    TimestampPrefix(nanos, 8);
    assert TimestampBytes(nanos)[..8] == TimestampBytes(nanos);
  }

  /** The 16 bytes after both fill loops and the two bit-stampings:
      byte 6 `&= 0x0F; |= 0x10` and byte 8 `&= 0x3F; |= 0x80`. For a byte b,
      `b & 0x0F` is `b % 16`, and or-ing 0x10 into a value below 16 adds 16;
      likewise for 0x3F / 0x80 with 64 and 128. */
  function UuidBytes(nanos: int, random: seq<Byte>): (u: seq<Byte>)
    requires |random| == 8
    ensures |u| == 16
    ensures u[..6] == TimestampBytes(nanos)[..6] && u[7] == TimestampByte(nanos, 7)
    ensures u[6] / 16 == 1 && u[8] / 64 == 2
    ensures u[9..] == random[1..]
  {
    seq(16, i requires 0 <= i < 16 =>
          if i == 6 then TimestampByte(nanos, 6) % 16 + 16
          else if i < 8 then TimestampByte(nanos, i)
          else if i == 8 then random[0] % 64 + 128
          else random[i - 8])
  }

  /** 8-4-4-4-12 layout: the 16 bytes in hex, with a dash after bytes 3, 5, 7, 9. */
  function UuidText(u: seq<Byte>): string
    requires |u| == 16
  {
    Hex(u[..4]) + "-" + Hex(u[4..6]) + "-" + Hex(u[6..8]) + "-" + Hex(u[8..10]) + "-" + Hex(u[10..])
  }

  predicate DashAfter(i: int)
  {
    i == 3 || i == 5 || i == 7 || i == 9
  }

  /** What the output loop has streamed after its first i bytes. */
  function Streamed(u: seq<Byte>, i: int): string
    requires |u| == 16 && 0 <= i <= 16
  {
    if i == 0 then ""
    else Streamed(u, i - 1) + HexByte(u[i - 1]) + (if DashAfter(i - 1) then "-" else "")
  }

  lemma {:induction false} StreamedRun(u: seq<Byte>, lo: int, i: int)
    requires |u| == 16 && 0 <= lo <= i <= 16
    requires forall k :: lo <= k < i ==> !DashAfter(k)
    ensures Streamed(u, i) == Streamed(u, lo) + Hex(u[lo..i])
  {
    if i > lo {
      StreamedRun(u, lo, i - 1);
      assert u[lo..i][..i - 1 - lo] == u[lo..i - 1];
    }
  }

  lemma StreamedGroup(u: seq<Byte>, lo: int, hi: int)
    requires |u| == 16 && 0 <= lo < hi <= 16
    requires forall k :: lo <= k < hi - 1 ==> !DashAfter(k)
    requires DashAfter(hi - 1)
    ensures Streamed(u, hi) == Streamed(u, lo) + Hex(u[lo..hi]) + "-"
  {
    StreamedRun(u, lo, hi - 1);
    var run := u[lo..hi];
    assert run[..|run| - 1] == u[lo..hi - 1] && run[|run| - 1] == u[hi - 1];
    assert Hex(run) == Hex(u[lo..hi - 1]) + HexByte(u[hi - 1]);
    assert Streamed(u, hi) == Streamed(u, hi - 1) + HexByte(u[hi - 1]) + "-";
  }

  /** The streaming loop produces the 8-4-4-4-12 text. */
  lemma StreamedIsUuidText(u: seq<Byte>)
    requires |u| == 16
    ensures Streamed(u, 16) == UuidText(u)
  {
    StreamedGroup(u, 0, 4);
    assert Streamed(u, 4) == Hex(u[..4]) + "-";
    StreamedGroup(u, 4, 6);
    StreamedGroup(u, 6, 8);
    StreamedGroup(u, 8, 10);
    StreamedRun(u, 10, 16);
    assert u[10..16] == u[10..];
  }

  /** `Tools::uuidFromTimestamp`, given the high-resolution clock's nanosecond
      count and the eight bytes the random engine draws. */
  method UuidFromTimestamp(nanos: int, random: seq<Byte>) returns (uuid: string)
    requires |random| == 8
    ensures uuid == UuidText(UuidBytes(nanos, random))
  {
    var bytes := new Byte[16];
    for i := 0 to 8
      invariant forall k :: 0 <= k < i ==> bytes[k] == TimestampByte(nanos, k)
    {
      bytes[i] := (nanos / Pow256(7 - i)) % 256;
    }
    for i := 8 to 16
      invariant forall k :: 0 <= k < 8 ==> bytes[k] == TimestampByte(nanos, k)
      invariant forall k :: 8 <= k < i ==> bytes[k] == random[k - 8]
    {
      bytes[i] := random[i - 8];
    }
    // version
    bytes[6] := bytes[6] % 16;
    bytes[6] := bytes[6] + 16;
    // variant
    bytes[8] := bytes[8] % 64;
    bytes[8] := bytes[8] + 128;
    assert bytes[..] == UuidBytes(nanos, random);

    var ss := "";
    for i := 0 to 16
      invariant ss == Streamed(bytes[..], i)
    {
      ss := ss + HexByte(bytes[i]);
      if i == 3 || i == 5 || i == 7 || i == 9 {
        ss := ss + "-";
      }
    }
    StreamedIsUuidText(bytes[..]);
    uuid := ss;
  }

  /** The text is 36 characters: dashes at 8, 13, 18 and 23, lowercase hex
      digits elsewhere; characters 14 and 19 are the high nibbles of bytes 6 and 8. */
  lemma UuidTextShape(u: seq<Byte>)
    requires |u| == 16
    ensures |UuidText(u)| == 36
    ensures forall i :: 0 <= i < 36 ==>
              (UuidText(u)[i] == '-' <==> i == 8 || i == 13 || i == 18 || i == 23)
    ensures forall i :: 0 <= i < 36 && i != 8 && i != 13 && i != 18 && i != 23 ==>
              IsLowerHexChar(UuidText(u)[i])
    ensures UuidText(u)[14] == HexDigit(u[6] / 16)
    ensures UuidText(u)[19] == HexDigit(u[8] / 16)
  {
    HexIsLowerHex(u[..4]);
    HexIsLowerHex(u[4..6]);
    HexIsLowerHex(u[6..8]);
    HexIsLowerHex(u[8..10]);
    HexIsLowerHex(u[10..]);
    HexAt(u[6..8], 0);
    HexAt(u[8..10], 0);
  }

  /** Version nibble 1 at index 14; variant bits 10, so index 19 is 8, 9, a or b. */
  lemma UuidVersionVariant(nanos: int, random: seq<Byte>)
    requires |random| == 8
    ensures UuidText(UuidBytes(nanos, random))[14] == '1'
    ensures UuidText(UuidBytes(nanos, random))[19] in "89ab"
  {
    var u := UuidBytes(nanos, random);
    UuidTextShape(u);
    assert u[6] / 16 == 1;
    var v := u[8] / 16;
    assert 8 <= v < 12;
    assert HexDigit(v) == "89ab"[v - 8];
  }

  /** Byte layout: bytes 0-5 and 7 are the clock's big-endian bytes, byte 6
      keeps the low nibble of its clock byte, byte 8 keeps the low 6 bits of the
      first random byte, bytes 9-15 are the other random bytes unchanged. */
  lemma UuidBytesLayout(nanos: int, random: seq<Byte>)
    requires |random| == 8
    ensures forall i :: 0 <= i < 8 && i != 6 ==> UuidBytes(nanos, random)[i] == TimestampByte(nanos, i)
    ensures UuidBytes(nanos, random)[6] / 16 == 1
    ensures UuidBytes(nanos, random)[6] % 16 == TimestampByte(nanos, 6) % 16
    ensures UuidBytes(nanos, random)[8] / 64 == 2
    ensures UuidBytes(nanos, random)[8] % 64 == random[0] % 64
    ensures UuidBytes(nanos, random)[9..] == random[1..]
  {
  }

  // ------------------------------------------------------------------------
  // std::stoi (strtol, base 10) and extractInteger
  // ------------------------------------------------------------------------

  /** `isspace` in the "C" locale: space, \t, \n, \v, \f, \r. */
  predicate IsSpace(c: char)
  {
    c == ' ' || '\t' <= c <= '\r'
  }

  predicate IsDigit(c: char)
  {
    '0' <= c <= '9'
  }

  /** Number of leading white-space characters. */
  function LeadingSpaces(s: string): (n: nat)
    ensures n <= |s|
    ensures forall i :: 0 <= i < n ==> IsSpace(s[i])
    ensures n == |s| || !IsSpace(s[n])
  {
    if s == [] || !IsSpace(s[0]) then 0 else 1 + LeadingSpaces(s[1..])
  }

  /** Number of leading decimal digits. */
  function LeadingDigits(s: string): (n: nat)
    ensures n <= |s|
    ensures forall i :: 0 <= i < n ==> IsDigit(s[i])
    ensures n == |s| || !IsDigit(s[n])
  {
    if s == [] || !IsDigit(s[0]) then 0 else 1 + LeadingDigits(s[1..])
  }

  /** Value of a string of decimal digits. */
  function DigitsValue(ds: string): (v: nat)
    requires forall i :: 0 <= i < |ds| ==> IsDigit(ds[i])
  {
    if ds == [] then 0
    else
      assert IsDigit(ds[|ds| - 1]);
      10 * DigitsValue(ds[..|ds| - 1]) + (ds[|ds| - 1] as int - '0' as int)
  }

  /** The two exceptions `std::stoi` throws. */
  datatype StoiError = InvalidArgument | OutOfRange

  /** Length of the optional sign that `strtol` accepts. */
  function SignLength(t: string): (n: nat)
    ensures n <= |t|
  {
    if |t| > 0 && (t[0] == '-' || t[0] == '+') then 1 else 0
  }

  /** `strtol` once the white space is skipped: sign, digits, then the range check. */
  function StoiAfterSpaces(t: string): (r: Result<int, StoiError>)
    ensures r.Success? ==> IntMin <= r.value <= IntMax
  {
    var u := t[SignLength(t)..];
    var n := LeadingDigits(u);
    if n == 0 then Failure(InvalidArgument)
    else
      var magnitude: int := DigitsValue(u[..n]);
      var v := if |t| > 0 && t[0] == '-' then -magnitude else magnitude;
      if IntMin <= v <= IntMax then Success(v) else Failure(OutOfRange)
  }

  /** `std::stoi(s)`: `strtol` skips leading white space, reads an optional sign
      and the longest run of digits, and ignores what follows. No digit gives
      `invalid_argument`; a value outside `int` gives `out_of_range`. */
  function Stoi(s: string): (r: Result<int, StoiError>)
    ensures r.Success? ==> IntMin <= r.value <= IntMax
  {
    StoiAfterSpaces(s[LeadingSpaces(s)..])
  }

  function DigitChar(d: int): (c: char)
    requires 0 <= d < 10
    ensures IsDigit(c)
  {
    ('0' as int + d) as char
  }

  /** Decimal digits of a natural number, no leading zero. */
  function Decimal(n: nat): (s: string)
    ensures |s| > 0 && forall i :: 0 <= i < |s| ==> IsDigit(s[i])
  {
    if n < 10 then [DigitChar(n)] else Decimal(n / 10) + [DigitChar(n % 10)]
  }

  /** `std::to_string` of an integer: a minus sign, then the digits of the magnitude. */
  function IntToString(n: int): string
  {
    if n < 0 then "-" + Decimal(-n) else Decimal(n)
  }

  lemma {:induction false} DigitsValueDecimal(n: nat)
    ensures DigitsValue(Decimal(n)) == n
  {
    if n >= 10 {
      DigitsValueDecimal(n / 10);
      var s := Decimal(n);
      assert s[..|s| - 1] == Decimal(n / 10);
    }
  }

  lemma LeadingDigitsOfDecimal(n: nat, rest: string)
    requires rest == [] || !IsDigit(rest[0])
    ensures LeadingDigits(Decimal(n) + rest) == |Decimal(n)|
    ensures (Decimal(n) + rest)[..|Decimal(n)|] == Decimal(n)
  {
    var d := Decimal(n);
    var s := d + rest;
    assert forall i :: 0 <= i < |d| ==> IsDigit(s[i]);
    assert |s| == |d| || !IsDigit(s[|d|]);
  }

  lemma LeadingSpacesOfPrefix(spaces: string, x: string)
    requires forall i :: 0 <= i < |spaces| ==> IsSpace(spaces[i])
    requires x == [] || !IsSpace(x[0])
    ensures LeadingSpaces(spaces + x) == |spaces|
    ensures (spaces + x)[|spaces|..] == x
  {
    var s := spaces + x;
    assert forall i :: 0 <= i < |spaces| ==> IsSpace(s[i]);
    assert |s| == |spaces| || !IsSpace(s[|spaces|]);
  }

  lemma StoiAfterSpacesIntToString(n: int, rest: string)
    requires rest == [] || !IsDigit(rest[0])
    ensures StoiAfterSpaces(IntToString(n) + rest)
            == if IntMin <= n <= IntMax then Success(n) else Failure(OutOfRange)
  {
    var m := if n < 0 then -n else n;
    var t := IntToString(n) + rest;
    assert t[SignLength(t)..] == Decimal(m) + rest;
    LeadingDigitsOfDecimal(m, rest);
    DigitsValueDecimal(m);
  }

  /** Round trip: `stoi` reads back an integer written in decimal, after any
      white space and before any text that does not start with a digit, and
      reports `out_of_range` exactly when it does not fit in an `int`. */
  lemma StoiIntToString(spaces: string, n: int, rest: string)
    requires forall i :: 0 <= i < |spaces| ==> IsSpace(spaces[i])
    requires rest == [] || !IsDigit(rest[0])
    ensures Stoi(spaces + IntToString(n) + rest)
            == if IntMin <= n <= IntMax then Success(n) else Failure(OutOfRange)
  {
    var x := IntToString(n) + rest;
    assert spaces + IntToString(n) + rest == spaces + x;
    LeadingSpacesOfPrefix(spaces, x);
    StoiAfterSpacesIntToString(n, rest);
  }

  /** A string without any digit is rejected as `invalid_argument`. */
  lemma StoiNoDigit(s: string)
    requires forall i :: 0 <= i < |s| ==> !IsDigit(s[i])
    ensures Stoi(s) == Failure(InvalidArgument)
  {
    var t := s[LeadingSpaces(s)..];
    var u := t[SignLength(t)..];
    assert u == [] || !IsDigit(u[0]);
  }

  /** `Tools::extractInteger` applied to the parameter's text: the `stoi`
      value converted to `unsigned int`, or 0 when `stoi` throws. */
  function ExtractInteger(param: string): (r: U32)
    ensures Stoi(param).Failure? ==> r == 0
    ensures Stoi(param).Success? ==> (r - Stoi(param).value) % TwoTo32 == 0
  {
    match Stoi(param)
    case Success(v) => v % TwoTo32
    case Failure(_) => 0
  }

  /** A decimal integer followed by non-digit text: its value, wrapped modulo
      2^32 when negative, and 0 when it does not fit in an `int`. */
  lemma ExtractIntegerIntToString(n: int, rest: string)
    requires rest == [] || !IsDigit(rest[0])
    ensures ExtractInteger(IntToString(n) + rest)
            == if n < IntMin || IntMax < n then 0 else if n >= 0 then n else n + TwoTo32
  {
    var s := IntToString(n) + rest;
    assert "" + IntToString(n) + rest == s;
    StoiIntToString("", n, rest);
    if IntMin <= n <= IntMax {
      WrapInt(n);
    }
  }

  lemma WrapInt(n: int)
    requires IntMin <= n <= IntMax
    ensures n % TwoTo32 == if n >= 0 then n else n + TwoTo32
  {
  }

  /** "12abc" gives 12, "-1" gives 4294967295, "abc" gives 0. */
  lemma ExtractIntegerExamples()
    ensures ExtractInteger("12abc") == 12
    ensures ExtractInteger("-1") == 4294967295
    ensures ExtractInteger("abc") == 0
  {
    assert Decimal(12) == Decimal(1) + "2";
    assert IntToString(12) + "abc" == "12abc";
    ExtractIntegerIntToString(12, "abc");
    assert IntToString(-1) + "" == "-1";
    ExtractIntegerIntToString(-1, "");
    StoiNoDigit("abc");
  }
}
