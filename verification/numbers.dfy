/** Numeric literals and fixed-width binary output: `read_hex`, `read_dec`
    and `write_binary`. Integers are unbounded here; the 32-bit `int` of the
    original only matters for literals too long for it, which are left out. */
module Numbers {

  // ---------------------------------------------------------------------
  // Arithmetic helpers.

  function Pow2(w: nat): (p: nat)
    ensures p >= 1
  {
    if w == 0 then 1 else 2 * Pow2(w - 1)
  }

  /** Euclidean division is determined by any quotient/remainder pair. */
  lemma DivModUnique(a: int, d: int, q: int, r: int)
    requires 0 < d && 0 <= r < d && a == d * q + r
    ensures a / d == q && a % d == r
  {
    var q0, r0 := a / d, a % d;
    assert d * q + r == d * q0 + r0;
    if q > q0 {
      assert d * (q - q0) == d * q - d * q0;
      MulAtLeast(d, q - q0);
    } else if q < q0 {
      assert d * (q0 - q) == d * q0 - d * q;
      MulAtLeast(d, q0 - q);
    }
  }

  lemma MulAtLeast(d: int, k: int)
    requires d > 0 && k >= 1
    ensures d * k >= d
  {
  }

  // ---------------------------------------------------------------------
  // read_hex

  /** One character as `read_hex` converts it: '0'..'9' are decimal digits,
      every other character c counts as c - 'a' + 10. */
  function HexDigit(c: char): int {
    if '0' <= c <= '9' then c as int - '0' as int else c as int - 'a' as int + 10
  }

  predicate IsHexDigit(c: char) {
    '0' <= c <= '9' || 'a' <= c <= 'f'
  }

  const HEX_CHARS: string := "0123456789abcdef"

  /** The accumulator `n = n * 16 + digit` run over `ds`. */
  function HexDigitsValue(ds: string): int {
    if ds == [] then 0 else HexDigitsValue(ds[..|ds| - 1]) * 16 + HexDigit(ds[|ds| - 1])
  }

  /** `read_hex`: a one-character string is a single digit; a longer one has
      its first two characters (the `0x` prefix) skipped unread. */
  function HexValue(s: string): int {
    if |s| == 1 then HexDigit(s[0])
    else if |s| < 2 then 0
    else HexDigitsValue(s[2..])
  }

  method ReadHex(s: string) returns (n: int)
    ensures n == HexValue(s)
  {
    n := 0;
    if |s| == 1 {
      if '0' <= s[0] <= '9' {
        n := s[0] as int - '0' as int;
      } else {
        n := s[0] as int - 'a' as int + 10;
      }
    } else {
      var i := 2;
      while i < |s|
        invariant 2 <= i
        invariant i <= |s| || |s| < 2
        invariant n == if |s| < 2 then 0 else HexDigitsValue(s[2..i])
      {
        assert s[2..i + 1][..i - 2] == s[2..i];
        n := n * 16;
        if '0' <= s[i] <= '9' {
          n := n + (s[i] as int - '0' as int);
        } else {
          n := n + (s[i] as int - 'a' as int + 10);
        }
        i := i + 1;
      }
      assert |s| >= 2 ==> s[2..i] == s[2..];
    }
  }

  /** Lower-case hexadecimal digits of n, most significant first, no leading zeros. */
  function HexString(n: nat): (s: string)
    ensures s != [] && forall k :: 0 <= k < |s| ==> IsHexDigit(s[k])
  {
    if n < 16 then [HEX_CHARS[n]] else HexString(n / 16) + [HEX_CHARS[n % 16]]
  }

  /** Each lower-case hex digit reads back as its position in "0123456789abcdef". */
  lemma HexDigitOfChar(d: nat)
    requires d < 16
    ensures HexDigit(HEX_CHARS[d]) == d
  {
  }

  /** A single character is read as that one digit (the template constants
      "8", "9", "a", "b", ...). */
  lemma ReadHexSingle(d: nat)
    requires d < 16
    ensures HexValue([HEX_CHARS[d]]) == d
  {
    HexDigitOfChar(d);
  }

  lemma {:induction false} HexDigitsOfString(n: nat)
    ensures HexDigitsValue(HexString(n)) == n
    decreases n
  {
    HexDigitOfChar(n % 16);
    if n < 16 {
      assert HexString(n)[..0] == [];
    } else {
      var s := HexString(n);
      assert s[..|s| - 1] == HexString(n / 16);
      HexDigitsOfString(n / 16);
    }
  }

  /** Round trip: `read_hex` of "0x" followed by the hex digits of n gives n. */
  lemma ReadHexOfPrefixed(n: nat)
    ensures HexValue("0x" + HexString(n)) == n
  {
    var s := "0x" + HexString(n);
    assert s[2..] == HexString(n);
    HexDigitsOfString(n);
  }

  /** A string of lower-case hex digits never reads as a negative number. */
  lemma {:induction false} HexDigitsNonNegative(ds: string)
    requires forall k :: 0 <= k < |ds| ==> IsHexDigit(ds[k])
    ensures 0 <= HexDigitsValue(ds)
    decreases |ds|
  {
    if ds != [] {
      HexDigitsNonNegative(ds[..|ds| - 1]);
    }
  }

  // ---------------------------------------------------------------------
  // read_dec

  /** The accumulator of `read_dec` over `s`: each `-` is skipped, every other
      character c adds c - '0' after multiplying by ten. */
  function DecDigitsValue(s: string): int {
    if s == [] then 0
    else if s[|s| - 1] == '-' then DecDigitsValue(s[..|s| - 1])
    else DecDigitsValue(s[..|s| - 1]) * 10 + (s[|s| - 1] as int - '0' as int)
  }

  /** `read_dec`: the digits' value, negated when a `-` occurs anywhere. */
  function DecValue(s: string): int {
    (if '-' in s then -1 else 1) * DecDigitsValue(s)
  }

  method ReadDec(s: string) returns (r: int)
    ensures r == DecValue(s)
  {
    var n, sign := 0, 1;
    for i := 0 to |s|
      invariant n == DecDigitsValue(s[..i])
      invariant sign == if '-' in s[..i] then -1 else 1
    {
      assert s[..i + 1][..i] == s[..i];
      assert s[..i + 1] == s[..i] + [s[i]];
      if s[i] == '-' {
        sign := -1;
        continue;
      }
      n := n * 10;
      n := n + (s[i] as int - '0' as int);
    }
    assert s[..|s|] == s;
    r := sign * n;
  }

  const DEC_CHARS: string := "0123456789"

  predicate IsDecDigit(c: char) {
    '0' <= c <= '9'
  }

  /** Decimal digits of n, most significant first, no leading zeros. */
  function NatString(n: nat): (s: string)
    ensures s != [] && forall k :: 0 <= k < |s| ==> IsDecDigit(s[k])
  {
    if n < 10 then [DEC_CHARS[n]] else NatString(n / 10) + [DEC_CHARS[n % 10]]
  }

  /** Signed decimal text of x, with a leading `-` when negative. */
  function IntString(x: int): string {
    if x < 0 then "-" + NatString(-x) else NatString(x)
  }

  lemma {:induction false} DecDigitsOfString(n: nat)
    ensures DecDigitsValue(NatString(n)) == n
    decreases n
  {
    if n < 10 {
      assert NatString(n)[..0] == [];
    } else {
      var s := NatString(n);
      assert s[..|s| - 1] == NatString(n / 10);
      DecDigitsOfString(n / 10);
    }
  }

  /** A leading `-` does not change the accumulated digits. */
  lemma {:induction false} DecDigitsSkipMinus(ds: string)
    ensures DecDigitsValue("-" + ds) == DecDigitsValue(ds)
    decreases |ds|
  {
    if ds != [] {
      assert ("-" + ds)[..|ds|] == "-" + ds[..|ds| - 1];
      DecDigitsSkipMinus(ds[..|ds| - 1]);
    }
  }

  /** Round trip: `read_dec` of the signed decimal text of x gives x back,
      for negative x as well. */
  lemma ReadDecOfString(x: int)
    ensures DecValue(IntString(x)) == x
  {
    if x < 0 {
      DecDigitsOfString(-x);
      DecDigitsSkipMinus(NatString(-x));
      assert ("-" + NatString(-x))[0] == '-';
    } else {
      DecDigitsOfString(x);
      assert forall k :: 0 <= k < |NatString(x)| ==> NatString(x)[k] != '-';
    }
  }

  // ---------------------------------------------------------------------
  // write_binary

  predicate IsBit(c: char) {
    c == '0' || c == '1'
  }

  predicate IsBinary(s: string) {
    forall k :: 0 <= k < |s| ==> IsBit(s[k])
  }

  /** Unsigned value of a string of bits, most significant first. */
  function BinaryValue(s: string): nat {
    if s == [] then 0 else 2 * BinaryValue(s[..|s| - 1]) + (if s[|s| - 1] == '1' then 1 else 0)
  }

  /** The `length` characters `write_binary` emits for n: the last one is
      `n & 1` (that is n % 2), and the rest are those of `n >> 1` (that is
      n / 2, rounded down, also for negative n). */
  function Bits(n: int, length: nat): string
    decreases length
  {
    if length == 0 then [] else Bits(n / 2, length - 1) + [if n % 2 == 0 then '0' else '1']
  }

  /** `write_binary`: fills a buffer of `length` characters from the end
      while shifting n right. */
  method WriteBinary(n: int, length: nat) returns (s: string)
    ensures s == Bits(n, length)
  {
    var buffer := new char[length];
    var m, len := n, length;
    while len > 0
      invariant 0 <= len <= length
      invariant Bits(m, len) + buffer[len..] == Bits(n, length)
    {
      len := len - 1;
      buffer[len] := (if m % 2 == 0 then '0' else '1');
      assert buffer[len..] == [buffer[len]] + buffer[len + 1..];
      m := m / 2;
    }
    s := buffer[..];
  }

  lemma {:induction false} BitsShape(n: int, length: nat)
    ensures |Bits(n, length)| == length && IsBinary(Bits(n, length))
    decreases length
  {
    if length > 0 {
      BitsShape(n / 2, length - 1);
    }
  }

  lemma ModDouble(n: int, p: nat)
    requires p >= 1
    ensures 2 * ((n / 2) % p) + n % 2 == n % (2 * p)
  {
    var q, r := n / 2, n % 2;
    var q2, r2 := q / p, q % p;
    assert n == 2 * p * q2 + (2 * r2 + r);
    DivModUnique(n, 2 * p, q2, 2 * r2 + r);
  }

  /** What `write_binary` emits, read back as unsigned binary, is n modulo
      2^length: negative n comes out in two's complement. */
  lemma {:induction false} BitsValue(n: int, length: nat)
    ensures BinaryValue(Bits(n, length)) == n % Pow2(length)
    decreases length
  {
    if length > 0 {
      var s := Bits(n, length);
      assert s[..|s| - 1] == Bits(n / 2, length - 1) by {
        BitsShape(n / 2, length - 1);
      }
      BitsValue(n / 2, length - 1);
      ModDouble(n, Pow2(length - 1));
    }
  }

  /** Round trip: a string of bits is what `write_binary` emits for its own value. */
  lemma {:induction false} BitsOfValue(s: string)
    requires IsBinary(s)
    ensures Bits(BinaryValue(s), |s|) == s
    decreases |s|
  {
    if s != [] {
      var v := BinaryValue(s);
      var b := if s[|s| - 1] == '1' then 1 else 0;
      DivModUnique(v, 2, BinaryValue(s[..|s| - 1]), b);
      BitsOfValue(s[..|s| - 1]);
      assert s == s[..|s| - 1] + [s[|s| - 1]];
    }
  }

  /** Only n modulo 2^length matters to `write_binary`. */
  lemma BitsWrap(n: int, length: nat)
    ensures Bits(n, length) == Bits(n % Pow2(length), length)
  {
    BitsShape(n, length);
    BitsOfValue(Bits(n, length));
    BitsValue(n, length);
  }

  /** A negative n that fits in `length` bits is written as 2^length + n. */
  lemma TwosComplement(n: int, length: nat)
    requires length >= 1 && 0 <= n + Pow2(length - 1) && n < 0
    ensures BinaryValue(Bits(n, length)) == Pow2(length) + n
  {
    BitsValue(n, length);
    DivModUnique(n, Pow2(length), -1, Pow2(length) + n);
  }
}
