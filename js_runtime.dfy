/** The few ECMAScript built-ins the scoring engine and the answer codec rely
    on, stated over unbounded integers so that every wrap-around, truncation
    and parsing rule is explicit. JS strings are sequences of UTF-16 code
    units; `CodeUnits` gives that view of a Dafny string. */
module JsRuntime {

  const TwoTo31: int := 0x8000_0000
  const TwoTo32: int := 0x1_0000_0000

  /** An integral JS Number, or NaN (what `parseInt` yields when no digit is found). */
  datatype IntOrNaN = NaN | Finite(value: int)

  function Abs(x: int): (r: nat)
    ensures r == x || r == -x
  {
    if x < 0 then -x else x
  }

  function Min(a: int, b: int): (r: int)
    ensures r <= a && r <= b && (r == a || r == b)
  {
    if a <= b then a else b
  }

  function Max(a: int, b: int): (r: int)
    ensures r >= a && r >= b && (r == a || r == b)
  {
    if a >= b then a else b
  }

  // ---------------------------------------------------------------------
  // Integer conversions and operators (ECMA-262, sections 7.1.6, 7.1.7,
  // 6.1.6.1.6, 6.1.6.1.9 and 6.1.6.1.17)
  // ---------------------------------------------------------------------

  /** ToUint32: the representative of x modulo 2^32 in [0, 2^32). */
  function ToUint32(x: int): (r: int)
    ensures 0 <= r < TwoTo32
    ensures (x - r) % TwoTo32 == 0
  {
    x % TwoTo32
  }

  /** ToInt32: the representative of x modulo 2^32 in [-2^31, 2^31). */
  function ToInt32(x: int): (r: int)
    ensures -TwoTo31 <= r < TwoTo31
    ensures (x - r) % TwoTo32 == 0
  {
    var m := x % TwoTo32;
    if m >= TwoTo31 then m - TwoTo32 else m
  }

  /** Any two int32 representatives of the same class modulo 2^32 coincide. */
  lemma Int32Unique(x: int, y: int)
    requires -TwoTo31 <= x < TwoTo31 && -TwoTo31 <= y < TwoTo31
    requires (x - y) % TwoTo32 == 0
    ensures x == y
  {
    var d := x - y;
    assert -TwoTo32 < d < TwoTo32;
    assert d == TwoTo32 * (d / TwoTo32);
  }

  /** ToInt32 depends only on the class of its argument modulo 2^32. */
  lemma ToInt32Congruent(x: int, y: int)
    requires (x - y) % TwoTo32 == 0
    ensures ToInt32(x) == ToInt32(y)
  {
    var a, b := ToInt32(x), ToInt32(y);
    assert x - a == TwoTo32 * ((x - a) / TwoTo32);
    assert y - b == TwoTo32 * ((y - b) / TwoTo32);
    assert x - y == TwoTo32 * ((x - y) / TwoTo32);
    assert a - b == TwoTo32 * ((x - y) / TwoTo32 - (x - a) / TwoTo32 + (y - b) / TwoTo32);
    Int32Unique(a, b);
  }

  /** `a << count`: the left operand is converted with ToInt32, the count is
      taken modulo 32, and the shifted bits are read back as an int32. */
  function ShiftLeft(a: int, count: nat): (r: int)
    ensures -TwoTo31 <= r < TwoTo31
  {
    ToInt32(ToInt32(a) * Pow2(count % 32))
  }

  /** `a << count` is a times 2^(count mod 32), wrapped once to 32 bits:
      wrapping the left operand first changes nothing. */
  lemma ShiftLeftWraps(a: int, count: nat)
    ensures ShiftLeft(a, count) == ToInt32(a * Pow2(count % 32))
  {
    var p := Pow2(count % 32);
    var t := ToInt32(a);
    var q := (a - t) / TwoTo32;
    assert a - t == TwoTo32 * q;
    assert a * p - t * p == TwoTo32 * (q * p) by {
      assert a * p - t * p == (a - t) * p;
    }
    ToInt32Congruent(a * p, t * p);
  }

  function Pow2(k: nat): (r: nat)
    ensures r >= 1
  {
    if k == 0 then 1 else 2 * Pow2(k - 1)
  }

  /** `a & b`: both operands are converted to their 32-bit two's-complement
      patterns (ToUint32 reads the same bits unsigned) and combined bit by bit. */
  function BitAnd(a: int, b: int): (r: int)
    ensures -TwoTo31 <= r < TwoTo31
    ensures a == b ==> r == ToInt32(a)
  {
    AndSelfWraps(a);
    ToInt32(AndBits(ToUint32(a), ToUint32(b), 32))
  }

  /** The bitwise AND of the low k bits of two non-negative integers. */
  function AndBits(a: nat, b: nat, k: nat): (r: nat)
    ensures r < Pow2(k)
  {
    if k == 0 then 0
    else 2 * AndBits(a / 2, b / 2, k - 1) + (if a % 2 == 1 && b % 2 == 1 then 1 else 0)
  }

  /** A k-bit pattern ANDed with itself is unchanged. */
  lemma {:induction false} AndBitsSelf(a: nat, k: nat)
    requires a < Pow2(k)
    ensures AndBits(a, a, k) == a
  {
    if k > 0 {
      AndBitsSelf(a / 2, k - 1);
    }
  }

  /** The 32-bit pattern of x ANDed with itself reads back as ToInt32(x). */
  lemma AndSelfWraps(x: int)
    ensures ToInt32(AndBits(ToUint32(x), ToUint32(x), 32)) == ToInt32(x)
  {
    var u := ToUint32(x);
    assert Pow2(32) == TwoTo32 by { Pow2Value32(); }
    AndBitsSelf(u, 32);
    ToInt32Congruent(u, x);
  }

  lemma Pow2Value32()
    ensures Pow2(32) == TwoTo32
  {
    assert Pow2(8) == 0x100;
    assert Pow2(16) == 0x1_0000 by { Pow2Add(8, 8); }
    Pow2Add(16, 16);
  }

  lemma {:induction false} Pow2Add(j: nat, k: nat)
    ensures Pow2(j + k) == Pow2(j) * Pow2(k)
  {
    if j > 0 {
      Pow2Add(j - 1, k);
    }
  }

  /** The Number remainder operator `%` on integers (truncating division):
      the magnitude is that of |a| mod b and the sign is the dividend's. */
  function JsRem(a: int, b: int): (r: int)
    requires b > 0
    ensures Abs(r) == Abs(a) % b
    ensures a >= 0 ==> r >= 0
    ensures a < 0 ==> r <= 0
  {
    if a >= 0 then a % b else -((-a) % b)
  }

  /** `Math.floor(a / b)` for a positive integer divisor. */
  function FloorDiv(a: int, b: int): (r: int)
    requires b > 0
    ensures b * r <= a < b * r + b
  {
    DivModFacts(a, b);
    a / b
  }

  lemma DivModFacts(a: int, b: int)
    requires b > 0
    ensures a == b * (a / b) + a % b && 0 <= a % b < b
  {
  }

  // ---------------------------------------------------------------------
  // Strings as UTF-16 code units
  // ---------------------------------------------------------------------

  /** The UTF-16 encoding of one character: one code unit inside the basic
      multilingual plane, a surrogate pair outside it. */
  function Utf16(c: char): (u: seq<int>)
    ensures 1 <= |u| <= 2
    ensures |u| == 1 <==> c as int < 0x1_0000
    ensures |u| == 1 ==> u[0] == c as int
  {
    var v := c as int;
    if v < 0x1_0000 then [v]
    else
      var w := v - 0x1_0000;
      [0xD800 + w / 0x400, 0xDC00 + w % 0x400]
  }

  /** The code units that JS's `length`, `slice` and `charCodeAt` index. */
  function CodeUnits(s: string): (u: seq<int>)
    ensures |s| <= |u| <= 2 * |s|
  {
    if s == [] then [] else Utf16(s[0]) + CodeUnits(s[1..])
  }

  /** Every code unit is a 16-bit value. */
  lemma {:induction false} CodeUnitsRange(s: string)
    ensures forall i :: 0 <= i < |CodeUnits(s)| ==> 0 <= CodeUnits(s)[i] < 0x1_0000
  {
    if s != [] {
      CodeUnitsRange(s[1..]);
      var head, tail := Utf16(s[0]), CodeUnits(s[1..]);
      assert CodeUnits(s) == head + tail;
      forall i | 0 <= i < |head + tail|
        ensures 0 <= (head + tail)[i] < 0x1_0000
      {
        if i >= |head| {
          assert (head + tail)[i] == tail[i - |head|];
        }
      }
    }
  }

  predicate IsBmp(s: string)
  {
    forall i :: 0 <= i < |s| ==> s[i] as int < 0x1_0000
  }

  /** A string without supplementary-plane characters is its own code-unit
      sequence: one unit per character, equal to the character's value. */
  lemma {:induction false} CodeUnitsBmp(s: string)
    requires IsBmp(s)
    ensures |CodeUnits(s)| == |s|
    ensures forall i :: 0 <= i < |s| ==> CodeUnits(s)[i] == s[i] as int
  {
    if s != [] {
      assert IsBmp(s[1..]) by {
        forall i | 0 <= i < |s[1..]| ensures s[1..][i] as int < 0x1_0000 {
          assert s[1..][i] == s[i + 1];
        }
      }
      CodeUnitsBmp(s[1..]);
    }
  }

  /** `CodeUnits` distributes over concatenation. */
  lemma {:induction false} CodeUnitsAppend(s: string, t: string)
    ensures CodeUnits(s + t) == CodeUnits(s) + CodeUnits(t)
  {
    if s == [] {
      assert s + t == t;
    } else {
      assert (s + t)[0] == s[0];
      assert (s + t)[1..] == s[1..] + t;
      CodeUnitsAppend(s[1..], t);
    }
  }

  // ---------------------------------------------------------------------
  // String helpers: padStart, padEnd, slice
  // ---------------------------------------------------------------------

  function Repeat(c: char, n: nat): (r: string)
    ensures |r| == n
  {
    if n == 0 then [] else [c] + Repeat(c, n - 1)
  }

  lemma {:induction false} RepeatChars(c: char, n: nat)
    ensures forall i :: 0 <= i < n ==> Repeat(c, n)[i] == c
  {
    if n > 0 {
      RepeatChars(c, n - 1);
      assert forall i :: 1 <= i < n ==> Repeat(c, n)[i] == Repeat(c, n - 1)[i - 1];
    }
  }

  /** `s.padStart(len, c)` with a one-character filler. */
  function PadStart(s: string, len: nat, c: char): (r: string)
    ensures |r| == Max(len, |s|)
  {
    if |s| >= len then s else Repeat(c, len - |s|) + s
  }

  /** padStart keeps s at the end and fills the front with c. */
  lemma PadStartShape(s: string, len: nat, c: char)
    ensures var r := PadStart(s, len, c);
      r[|r| - |s|..] == s && forall i :: 0 <= i < |r| - |s| ==> r[i] == c
  {
    if |s| < len {
      RepeatChars(c, len - |s|);
      var r := PadStart(s, len, c);
      assert forall i :: 0 <= i < |r| - |s| ==> r[i] == Repeat(c, len - |s|)[i];
    }
  }

  /** `s.padEnd(len, c)` with a one-character filler. */
  function PadEnd(s: string, len: nat, c: char): (r: string)
    ensures |r| == Max(len, |s|)
  {
    if |s| >= len then s else s + Repeat(c, len - |s|)
  }

  /** padEnd keeps s at the front and fills the end with c. */
  lemma PadEndShape(s: string, len: nat, c: char)
    ensures var r := PadEnd(s, len, c);
      r[..|s|] == s && forall i :: |s| <= i < |r| ==> r[i] == c
  {
    if |s| < len {
      RepeatChars(c, len - |s|);
      var r := PadEnd(s, len, c);
      assert forall i :: |s| <= i < |r| ==> r[i] == Repeat(c, len - |s|)[i - |s|];
    }
  }

  /** `s.slice(from, from + len)` for a non-negative start: the indices past
      the end are clamped away. */
  function Slice<T>(s: seq<T>, from: nat, len: nat): (r: seq<T>)
    ensures |r| == if from >= |s| then 0 else Min(len, |s| - from)
  {
    if from >= |s| then [] else s[from..Min(from + len, |s|)]
  }

  /** The slice holds the elements from `from` on, in order. */
  lemma SliceContents<T>(s: seq<T>, from: nat, len: nat)
    ensures forall i :: 0 <= i < |Slice(s, from, len)| ==> Slice(s, from, len)[i] == s[from + i]
  {
  }

  /** A slice from an index inside s is the front of the rest of s, and what
      follows the slice is what the rest keeps after that front. */
  lemma SliceFront<T>(s: seq<T>, from: nat, len: nat)
    requires from < |s|
    ensures Slice(s, from, len) == s[from..][..Min(len, |s| - from)]
    ensures s[Min(from + len, |s|)..] == s[from..][Min(len, |s| - from)..]
  {
  }

  /** `s.slice(0, end)`: a negative end counts back from the length. */
  function SliceTo<T>(s: seq<T>, end: int): (r: seq<T>)
    ensures |r| == if end >= 0 then Min(end, |s|) else Max(|s| + end, 0)
    ensures r == s[..|r|]
  {
    if end >= 0 then s[..Min(end, |s|)] else s[..Max(|s| + end, 0)]
  }

  // ---------------------------------------------------------------------
  // Number.prototype.toString(radix) for non-negative integers
  // ---------------------------------------------------------------------

  /** The digit characters of radices up to 36: `0`-`9` then `a`-`z`. */
  function DigitChar(d: nat): (c: char)
    requires d < 36
    ensures DigitValue(c) == d
  {
    if d < 10 then (48 + d) as char else (97 + d - 10) as char
  }

  /** The value of a lower-case radix digit (36 for anything else). */
  function DigitValue(c: char): (d: nat)
    ensures d <= 36
    ensures d < 36 <==> ('0' <= c <= '9' || 'a' <= c <= 'z')
  {
    if '0' <= c <= '9' then c as int - 48
    else if 'a' <= c <= 'z' then c as int - 97 + 10
    else 36
  }

  predicate IsDigitOf(c: char, radix: nat)
  {
    DigitValue(c) < radix
  }

  /** `n.toString(radix)`: the shortest digit string of n in that radix. */
  function ToRadixString(n: nat, radix: nat): (s: string)
    requires 2 <= radix <= 36
    ensures 1 <= |s|
    ensures |s| == 1 <==> n < radix
    decreases n
  {
    if n < radix then [DigitChar(n)]
    else
      DivStep(n, radix);
      var q, d := n / radix, n % radix;
      ToRadixString(q, radix) + [DigitChar(d)]
  }

  /** `toString(radix)` writes only digits of the radix, and a number of two
      or more digits does not start with '0'. */
  lemma {:induction false} ToRadixStringDigits(n: nat, radix: nat)
    requires 2 <= radix <= 36
    ensures forall i :: 0 <= i < |ToRadixString(n, radix)| ==> IsDigitOf(ToRadixString(n, radix)[i], radix)
    ensures |ToRadixString(n, radix)| > 1 ==> ToRadixString(n, radix)[0] != '0'
    decreases n
  {
    if n >= radix {
      DivStep(n, radix);
      var q, d := n / radix, n % radix;
      ToRadixStringDigits(q, radix);
      var front := ToRadixString(q, radix);
      assert ToRadixString(n, radix) == front + [DigitChar(d)];
      if q < radix {
        assert front == [DigitChar(q)];
        assert DigitValue(front[0]) == q;
      }
    }
  }

  /** Euclidean division by a radix no larger than n makes progress. */
  lemma DivStep(n: nat, r: nat)
    requires 2 <= r <= n
    ensures 1 <= n / r < n && n % r < r && n == r * (n / r) + n % r
  {
  }

  /** Reads a digit string back as a number, most significant digit first
      (meaningful when every character is a digit of the radix). */
  function FromRadixString(s: string, radix: nat): nat
  {
    if s == [] then 0
    else Shifted(FromRadixString(s[..|s| - 1], radix), radix) + DigitValue(s[|s| - 1])
  }

  /** A value moved up one digit place. */
  function Shifted(v: nat, radix: nat): nat
  {
    v * radix
  }

  /** `toString(radix)` loses nothing: reading its digits back gives n. */
  lemma {:induction false} ToRadixStringRoundTrip(n: nat, radix: nat)
    requires 2 <= radix <= 36
    ensures FromRadixString(ToRadixString(n, radix), radix) == n
    decreases n
  {
    var s := ToRadixString(n, radix);
    if n >= radix {
      DivStep(n, radix);
      var q, d := n / radix, n % radix;
      ToRadixStringRoundTrip(q, radix);
      assert s == ToRadixString(q, radix) + [DigitChar(d)];
      assert s[..|s| - 1] == ToRadixString(q, radix);
      assert FromRadixString(s, radix) == q * radix + d;
    }
  }

  /** Below radix^k a number has at most k digits (and always at least one). */
  lemma {:induction false} ToRadixStringLength(n: nat, radix: nat, k: nat)
    requires 2 <= radix <= 36
    requires 1 <= k && n < Power(radix, k)
    ensures |ToRadixString(n, radix)| <= k
    decreases k
  {
    if n >= radix {
      DivStep(n, radix);
      assert Power(radix, 1) == radix;
      assert k >= 2;
      assert n / radix < Power(radix, k - 1) by {
        DivBelow(n, radix, Power(radix, k - 1));
      }
      ToRadixStringLength(n / radix, radix, k - 1);
    }
  }

  lemma DivBelow(n: nat, r: nat, p: nat)
    requires r >= 2 && n < r * p
    ensures n / r < p
  {
  }

  function Power(b: nat, k: nat): (r: nat)
  {
    if k == 0 then 1 else b * Power(b, k - 1)
  }

  // ---------------------------------------------------------------------
  // parseInt(s, 16) (ECMA-262, section 19.2.5)
  // ---------------------------------------------------------------------

  /** The single WhiteSpace and LineTerminator code units: tab, line feed,
      vertical tab, form feed, carriage return, space, no-break space, ogham
      space mark, line and paragraph separators, narrow no-break space,
      medium mathematical space, ideographic space and the byte order mark. */
  const SingleWhitespace: set<int> := {0x09, 0x0A, 0x0B, 0x0C, 0x0D, 0x20, 0xA0, 0x1680,
    0x2028, 0x2029, 0x202F, 0x205F, 0x3000, 0xFEFF}

  /** WhiteSpace and LineTerminator code units, which parseInt skips first:
      the single ones and the run of spaces U+2000 to U+200A. */
  predicate IsJsWhitespace(u: int)
  {
    u in SingleWhitespace || 0x2000 <= u <= 0x200A
  }

  /** The value of a hexadecimal digit code unit, either case; 16 if none. */
  function HexDigitValue(u: int): (d: nat)
    ensures d <= 16
  {
    if 0x30 <= u <= 0x39 then u - 0x30
    else if 0x61 <= u <= 0x66 then u - 0x61 + 10
    else if 0x41 <= u <= 0x46 then u - 0x41 + 10
    else 16
  }

  /** Drops the leading white space. */
  function TrimStart(s: seq<int>): seq<int>
  {
    if s != [] && IsJsWhitespace(s[0]) then TrimStart(s[1..]) else s
  }

  /** What TrimStart drops is white space, and what it keeps is a suffix
      that does not start with white space. */
  lemma {:induction false} TrimStartSuffix(s: seq<int>)
    ensures |TrimStart(s)| <= |s| && TrimStart(s) == s[|s| - |TrimStart(s)|..]
    ensures TrimStart(s) != [] ==> !IsJsWhitespace(TrimStart(s)[0])
    ensures forall i :: 0 <= i < |s| - |TrimStart(s)| ==> IsJsWhitespace(s[i])
  {
    if s != [] && IsJsWhitespace(s[0]) {
      TrimStartSuffix(s[1..]);
      assert s[1..][|s| - 1 - |TrimStart(s)|..] == s[|s| - |TrimStart(s)|..];
      forall i | 0 <= i < |s| - |TrimStart(s)|
        ensures IsJsWhitespace(s[i])
      {
        if i > 0 {
          assert s[i] == s[1..][i - 1];
        }
      }
    }
  }

  /** The longest prefix made only of hexadecimal digits. */
  function HexDigitPrefix(s: seq<int>): seq<int>
  {
    if s != [] && HexDigitValue(s[0]) < 16 then [s[0]] + HexDigitPrefix(s[1..]) else []
  }

  /** HexDigitPrefix is a prefix of digits that stops only at a non-digit or
      at the end. */
  lemma {:induction false} HexDigitPrefixLongest(s: seq<int>)
    ensures |HexDigitPrefix(s)| <= |s| && HexDigitPrefix(s) == s[..|HexDigitPrefix(s)|]
    ensures forall i :: 0 <= i < |HexDigitPrefix(s)| ==> HexDigitValue(HexDigitPrefix(s)[i]) < 16
    ensures |HexDigitPrefix(s)| < |s| ==> HexDigitValue(s[|HexDigitPrefix(s)|]) == 16
  {
    if s != [] && HexDigitValue(s[0]) < 16 {
      HexDigitPrefixLongest(s[1..]);
      var r := HexDigitPrefix(s[1..]);
      assert HexDigitPrefix(s) == [s[0]] + r;
      assert s[..|r| + 1] == [s[0]] + s[1..][..|r|];
      forall i | 0 <= i < |r| + 1
        ensures HexDigitValue(HexDigitPrefix(s)[i]) < 16
      {
        if i > 0 {
          assert HexDigitPrefix(s)[i] == r[i - 1];
        }
      }
      if |r| + 1 < |s| {
        assert s[|r| + 1] == s[1..][|r|];
      }
    }
  }

  /** The value of a run of hexadecimal digits, most significant first. */
  function HexValue(s: seq<int>): nat
  {
    if s == [] then 0 else HexValue(s[..|s| - 1]) * 16 + HexDigitValue(s[|s| - 1])
  }

  /** parseInt(s, 16): skip leading white space, take one optional sign,
      strip one optional `0x`/`0X`, then read the longest run of hexadecimal
      digits; no digit at all is NaN. A negative zero is the integer 0. */
  function ParseIntHex(s: seq<int>): (r: IntOrNaN)
    ensures r.NaN? <==> HexBody(s) == [] || HexDigitValue(HexBody(s)[0]) == 16
    ensures r.Finite? && r.value < 0 ==> TrimStart(s) != [] && TrimStart(s)[0] == 0x2D
  {
    var t := TrimStart(s);
    var sign := if t != [] && t[0] == 0x2D then -1 else 1;
    var z := HexDigitPrefix(HexBody(s));
    if z == [] then NaN else Finite(sign * HexValue(z))
  }

  /** What parseInt reads digits from: the input without its leading white
      space, one optional sign and one optional `0x`/`0X`. */
  function HexBody(s: seq<int>): seq<int>
  {
    var t := TrimStart(s);
    var t1 := if t != [] && (t[0] == 0x2D || t[0] == 0x2B) then t[1..] else t;
    if |t1| >= 2 && t1[0] == 0x30 && (t1[1] == 0x78 || t1[1] == 0x58) then t1[2..] else t1
  }

  /** A lower-case hexadecimal digit has the same value for parseInt. */
  lemma HexDigitAgrees(c: char)
    requires IsDigitOf(c, 16)
    ensures HexDigitValue(c as int) == DigitValue(c)
  {
  }

  /** Two hexadecimal digit code units parse to the number they spell. */
  lemma ParseIntHexDigitPair(a: int, b: int)
    requires HexDigitValue(a) < 16 && HexDigitValue(b) < 16
    ensures ParseIntHex([a, b]) == Finite(HexDigitValue(a) * 16 + HexDigitValue(b))
  {
    TrimStartDigits(a, b);
    HexDigitPrefixPair(a, b);
    HexValuePair(a, b);
    assert a != 0x2D && a != 0x2B && b != 0x78 && b != 0x58;
  }

  /** Leading digits are no white space to skip. */
  lemma TrimStartDigits(a: int, b: int)
    requires HexDigitValue(a) < 16
    ensures TrimStart([a, b]) == [a, b]
  {
  }

  lemma HexDigitPrefixPair(a: int, b: int)
    requires HexDigitValue(a) < 16 && HexDigitValue(b) < 16
    ensures HexDigitPrefix([a, b]) == [a, b]
  {
    assert [a, b][1..] == [b];
    assert [b][1..] == [];
    assert HexDigitPrefix([b]) == [b];
  }

  lemma HexValuePair(a: int, b: int)
    requires HexDigitValue(a) < 16 && HexDigitValue(b) < 16
    ensures HexValue([a, b]) == HexDigitValue(a) * 16 + HexDigitValue(b)
  {
    assert [a, b][..1] == [a];
    assert [a][..0] == [];
    assert HexValue([a]) == HexDigitValue(a);
  }

  /** A two-digit string reads as its first digit times the radix plus its
      second. */
  lemma FromRadixStringPair(s: string, radix: nat)
    requires |s| == 2
    ensures FromRadixString(s, radix) == DigitValue(s[0]) * radix + DigitValue(s[1])
  {
    var a := s[0];
    assert s[..1] == [a];
    assert [a][..0] == [];
    assert FromRadixString([a], radix) == Shifted(0, radix) + DigitValue(a);
  }

  /** Two lower-case hexadecimal digits parse to the number they spell. */
  lemma ParseIntHexTwoDigits(s: string)
    requires |s| == 2 && forall i :: 0 <= i < |s| ==> IsDigitOf(s[i], 16)
    ensures IsBmp(s)
    ensures ParseIntHex(CodeUnits(s)) == Finite(FromRadixString(s, 16))
  {
    var a, b := s[0], s[1];
    assert IsBmp(s) by {
      assert DigitValue(a) < 16 && DigitValue(b) < 16;
    }
    var u := CodeUnits(s);
    assert u == [a as int, b as int] by {
      CodeUnitsBmp(s);
    }
    assert HexDigitValue(a as int) == DigitValue(a) && HexDigitValue(b as int) == DigitValue(b) by {
      HexDigitAgrees(a);
      HexDigitAgrees(b);
    }
    ParseIntHexDigitPair(a as int, b as int);
    FromRadixStringPair(s, 16);
  }
}
