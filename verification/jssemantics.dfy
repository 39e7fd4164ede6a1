/** The pieces of JavaScript number and string semantics the soundboard relies
    on, written out over unbounded integers and Unicode strings: `Math.round`
    of a ratio, the truncating `%`, `ToInt32` and `<< 5`, `String.prototype.trim`,
    `toLowerCase` (on the ranges listed below), UTF-16 code units, and decimal
    and hexadecimal digits. */
module JsSemantics {
  import opened Types

  const TwoPow31: int := 0x8000_0000
  const TwoPow32: int := 0x1_0000_0000

  /** `Math.round(n / d)` for a positive divisor: the nearest integer, halves
      rounding up (towards +infinity). Dafny's `/` floors for positive divisors. */
  function JsRound(n: int, d: int): (r: int)
    requires d > 0
    ensures 2 * d * r - d <= 2 * n < 2 * d * r + d
  {
    (2 * n + d) / (2 * d)
  }

  /** JS `a % b` for a positive `b`: the remainder takes the sign of the
      dividend, and its magnitude is Dafny's remainder of the magnitudes. */
  function JsRem(a: int, b: int): (r: int)
    requires b > 0
    ensures -b < r < b
    ensures a >= 0 ==> r == a % b
    ensures a < 0 ==> r == -((-a) % b) && r <= 0
  {
    if a >= 0 then a % b else -((-a) % b)
  }

  function Abs(a: int): (r: nat)
    ensures r == a || r == -a
  {
    if a < 0 then -a else a
  }

  function Max(a: int, b: int): (r: int)
    ensures r >= a && r >= b && (r == a || r == b)
  {
    if a >= b then a else b
  }

  function Min(a: int, b: int): (r: int)
    ensures r <= a && r <= b && (r == a || r == b)
  {
    if a <= b then a else b
  }

  /** `Math.max(lo, Math.min(hi, v))` on reals. */
  function ClampReal(v: real, lo: real, hi: real): (r: real)
    requires lo <= hi
    ensures lo <= r <= hi
    ensures lo <= v <= hi ==> r == v
    ensures v > hi ==> r == hi
    ensures v < lo ==> r == lo
  {
    if v > hi then (if lo >= hi then lo else hi) else if v < lo then lo else v
  }

  /** ECMAScript ToInt32 of an integer-valued number. */
  function ToInt32(x: int): (r: int)
    ensures -TwoPow31 <= r < TwoPow31
    ensures (x - r) % TwoPow32 == 0
  {
    var m := x % TwoPow32;
    if m >= TwoPow31 then m - TwoPow32 else m
  }

  /** `x << 5`: ToInt32 of the left operand, then a 32-bit wrapping shift. */
  function Shl5(x: int): (r: int)
    ensures -TwoPow31 <= r < TwoPow31
    ensures (r - 32 * x) % TwoPow32 == 0
  {
    var t := ToInt32(x);
    var r := ToInt32(t * 32);
    CongruentSum(32 * t - r, 32 * x - 32 * t, 32 * ((x - t) / TwoPow32));
    r
  }

  /** Two multiples of 2^32 add up to one. */
  lemma CongruentSum(a: int, b: int, kb: int)
    requires a % TwoPow32 == 0 && b == kb * TwoPow32
    ensures (-(a + b)) % TwoPow32 == 0
  {
    var ka := a / TwoPow32;
    assert a == ka * TwoPow32;
    assert -(a + b) == (-ka - kb) * TwoPow32;
  }

  /** While `x` is small enough that `32 * x` fits in 32 bits, the shift is plain multiplication. */
  lemma Shl5Small(x: int)
    requires -0x400_0000 <= x < 0x400_0000
    ensures Shl5(x) == 32 * x
  {
    assert ToInt32(x) == x;
    assert ToInt32(x * 32) == x * 32 by {
      if x < 0 {
        assert (x * 32) % TwoPow32 == x * 32 + TwoPow32;
      }
    }
  }

  // ---------------------------------------------------------------- characters

  /** ECMAScript WhiteSpace and LineTerminator code points (what `trim` removes). */
  predicate IsJsWhitespace(c: char) {
    var v := c as int;
    (0x09 <= v <= 0x0D) || v == 0x20 || v == 0xA0 || v == 0x1680 || (0x2000 <= v <= 0x200A)
    || v == 0x2028 || v == 0x2029 || v == 0x202F || v == 0x205F || v == 0x3000 || v == 0xFEFF
  }

  /** The characters a regular-expression `.` does not match. */
  predicate IsLineTerminator(c: char) {
    var v := c as int;
    v == 0x0A || v == 0x0D || v == 0x2028 || v == 0x2029
  }

  predicate IsDigit(c: char) {
    '0' <= c <= '9'
  }

  function DigitValue(c: char): (r: nat)
    requires IsDigit(c)
    ensures r < 10
  {
    (c as int) - ('0' as int)
  }

  /** `toLowerCase` on ASCII, Latin-1 and basic Cyrillic capitals; every other
      character maps to itself. */
  function LowerChar(c: char): (r: char)
    ensures 'A' <= c <= 'Z' ==> r as int == c as int + 32
    ensures !(0x41 <= c as int <= 0x5A || 0xC0 <= c as int <= 0xDE || 0x400 <= c as int <= 0x42F) ==> r == c
  {
    var v := c as int;
    if 0x41 <= v <= 0x5A then (v + 32) as char            // A..Z
    else if 0xC0 <= v <= 0xDE && v != 0xD7 then (v + 32) as char  // Latin-1 capitals, not the multiplication sign
    else if 0x410 <= v <= 0x42F then (v + 32) as char     // Cyrillic U+0410..U+042F
    else if 0x400 <= v <= 0x40F then (v + 80) as char     // Cyrillic U+0400..U+040F
    else c
  }

  function ToLower(s: string): (r: string)
    ensures |r| == |s|
    ensures forall i :: 0 <= i < |s| ==> r[i] == LowerChar(s[i])
  {
    seq(|s|, i requires 0 <= i < |s| => LowerChar(s[i]))
  }

  /** `a.toLowerCase() === b.toLowerCase()`. */
  predicate SameIgnoringCase(a: string, b: string) {
    ToLower(a) == ToLower(b)
  }

  // ---------------------------------------------------------------- trim

  function TrimStart(s: string): (r: string)
    ensures |r| <= |s| && r == s[|s| - |r|..]
    ensures |r| > 0 ==> !IsJsWhitespace(r[0])
    ensures forall i :: 0 <= i < |s| - |r| ==> IsJsWhitespace(s[i])
  {
    if |s| > 0 && IsJsWhitespace(s[0]) then TrimStart(s[1..]) else s
  }

  function TrimEnd(s: string): (r: string)
    ensures |r| <= |s| && r == s[..|r|]
    ensures |r| > 0 ==> !IsJsWhitespace(r[|r| - 1])
    ensures forall i :: |r| <= i < |s| ==> IsJsWhitespace(s[i])
  {
    if |s| > 0 && IsJsWhitespace(s[|s| - 1]) then TrimEnd(s[..|s| - 1]) else s
  }

  /** `r` is the slice of `s` starting at `i` and everything around it is whitespace. */
  predicate IsWhitespaceBounded(s: string, i: int, r: string) {
    0 <= i <= i + |r| <= |s| && r == s[i..i + |r|]
    && (forall k :: 0 <= k < i ==> IsJsWhitespace(s[k]))
    && (forall k :: i + |r| <= k < |s| ==> IsJsWhitespace(s[k]))
  }

  /** `s.trim()`: the slice left after removing leading and trailing whitespace. */
  function Trim(s: string): (r: string)
    ensures exists i :: IsWhitespaceBounded(s, i, r)
    ensures |r| > 0 ==> !IsJsWhitespace(r[0]) && !IsJsWhitespace(r[|r| - 1])
  {
    var t := TrimStart(s);
    TrimIsBounded(s, t, TrimEnd(t));
    TrimEnd(t)
  }

  /** Whitespace stripped from the front of `s` and then from the back of `t`. */
  lemma TrimIsBounded(s: string, t: string, r: string)
    requires |t| <= |s| && t == s[|s| - |t|..] && forall k :: 0 <= k < |s| - |t| ==> IsJsWhitespace(s[k])
    requires |r| <= |t| && r == t[..|r|] && forall k :: |r| <= k < |t| ==> IsJsWhitespace(t[k])
    ensures IsWhitespaceBounded(s, |s| - |t|, r)
  {
    var i := |s| - |t|;
    assert forall k :: 0 <= k < |r| ==> r[k] == t[k] == s[i + k];
    assert r == s[i..i + |r|];
    forall k | i + |r| <= k < |s|
      ensures IsJsWhitespace(s[k])
    {
      assert s[k] == t[k - i];
    }
  }

  /** A string with no surrounding whitespace is its own trim. */
  lemma {:induction false} TrimOfTrimmed(s: string)
    requires |s| > 0 ==> !IsJsWhitespace(s[0]) && !IsJsWhitespace(s[|s| - 1])
    ensures Trim(s) == s
  {
  }

  // ---------------------------------------------------------------- UTF-16

  /** The UTF-16 code units of one code point. */
  function CodeUnits(c: char): (r: seq<int>)
    ensures 1 <= |r| <= 2
    ensures forall k :: 0 <= k < |r| ==> 0 <= r[k] < 0x1_0000
    ensures (c as int) < 0x1_0000 <==> r == [c as int]
  {
    var v := c as int;
    if v < 0x1_0000 then [v]
    else [0xD800 + (v - 0x1_0000) / 0x400, 0xDC00 + (v - 0x1_0000) % 0x400]
  }

  /** The sequence JS indexes with `charCodeAt` and measures with `length`. */
  function Utf16(s: string): (r: seq<int>)
    ensures |r| >= |s|
    ensures forall k :: 0 <= k < |r| ==> 0 <= r[k] < 0x1_0000
  {
    if |s| == 0 then [] else Utf16(s[..|s| - 1]) + CodeUnits(s[|s| - 1])
  }

  /** A string of Basic Multilingual Plane characters is its own code-unit sequence. */
  lemma {:induction false} Utf16OfBmp(s: string)
    requires forall k :: 0 <= k < |s| ==> (s[k] as int) < 0x1_0000
    ensures |Utf16(s)| == |s|
    ensures forall k :: 0 <= k < |s| ==> Utf16(s)[k] == s[k] as int
  {
    if |s| > 0 {
      Utf16OfBmp(s[..|s| - 1]);
    }
  }

  // ---------------------------------------------------------------- digits

  /** The value of a run of decimal digits (`parseInt(run, 10)`). */
  predicate AllDigits(s: string) {
    forall k :: 0 <= k < |s| ==> IsDigit(s[k])
  }

  function DecimalValue(s: string): (r: nat)
    requires AllDigits(s)
  {
    if |s| == 0 then 0 else 10 * DecimalValue(s[..|s| - 1]) + DigitValue(s[|s| - 1])
  }

  /** `n.toString()` for a natural number. */
  function DecimalString(n: nat): (r: string)
    ensures |r| > 0
    ensures forall k :: 0 <= k < |r| ==> IsDigit(r[k])
  {
    if n < 10 then [('0' as int + n) as char]
    else DecimalString(n / 10) + [('0' as int + n % 10) as char]
  }

  lemma {:induction false} DecimalRoundTrip(n: nat)
    ensures DecimalValue(DecimalString(n)) == n
  {
    var s := DecimalString(n);
    if n >= 10 {
      DecimalRoundTrip(n / 10);
      assert s[..|s| - 1] == DecimalString(n / 10);
    }
  }

  /** A hexadecimal digit code unit, either case. */
  predicate IsHexUnit(u: int) {
    ('0' as int <= u <= '9' as int) || ('a' as int <= u <= 'f' as int) || ('A' as int <= u <= 'F' as int)
  }

  function HexUnitValue(u: int): (r: nat)
    requires IsHexUnit(u)
    ensures r < 16
  {
    if u <= '9' as int then u - '0' as int
    else if u <= 'F' as int then u - 'A' as int + 10
    else u - 'a' as int + 10
  }

  /** The lowercase hexadecimal digit for 0..15. */
  function HexDigitChar(v: nat): (c: char)
    requires v < 16
    ensures IsHexUnit(c as int) && HexUnitValue(c as int) == v
  {
    if v < 10 then ('0' as int + v) as char else ('a' as int + v - 10) as char
  }

  /** `n.toString(16)` for a natural number: lowercase, no padding. */
  function HexString(n: nat): (r: string)
    ensures |r| > 0
    ensures n < 16 <==> |r| == 1
    ensures 16 <= n < 256 ==> |r| == 2
  {
    if n < 16 then [HexDigitChar(n)] else HexString(n / 16) + [HexDigitChar(n % 16)]
  }

  /** `c.toString(16)` for any integer: a minus sign before the digits of a negative. */
  function IntHexString(c: int): (r: string)
    ensures |r| > 0
  {
    if c < 0 then "-" + HexString(-c) else HexString(c)
  }

  // ---------------------------------------------------------------- file names

  /** `p` starts the part `/\.[^/.]+$/` matches: a dot followed by at least one
      character, running to the end, with no further dot or slash. */
  predicate IsExtensionAt(name: string, p: int) {
    0 <= p < |name| - 1 && name[p] == '.'
    && forall k :: p < k < |name| ==> name[k] != '.' && name[k] != '/'
  }

  /** The position of the last '.' or '/', if any. */
  function LastDotOrSlash(s: string): (r: Option<nat>)
    ensures r.Some? ==> r.value < |s| && (s[r.value] == '.' || s[r.value] == '/')
                        && forall k :: r.value < k < |s| ==> s[k] != '.' && s[k] != '/'
    ensures r.None? ==> forall k :: 0 <= k < |s| ==> s[k] != '.' && s[k] != '/'
  {
    if |s| == 0 then None
    else if s[|s| - 1] == '.' || s[|s| - 1] == '/' then Some(|s| - 1)
    else LastDotOrSlash(s[..|s| - 1])
  }

  /** `name.replace(/\.[^/.]+$/, "")`: the last extension removed, if the name has one. */
  function StripExtension(name: string): (r: string)
    ensures |r| <= |name| && r == name[..|r|]
    ensures (exists p :: IsExtensionAt(name, p)) ==> IsExtensionAt(name, |r|)
    ensures !(exists p :: IsExtensionAt(name, p)) ==> r == name
  {
    match LastDotOrSlash(name)
    case Some(p) =>
      if name[p] == '.' && p < |name| - 1 then
        assert IsExtensionAt(name, p);
        name[..p]
      else
        assert forall q :: 0 <= q < |name| - 1 && name[q] == '.' ==> q <= p;
        name
    case None => name
  }

  /** A base name followed by a dot and a non-empty extension free of dots
      and slashes strips back to the base name. */
  lemma StripExtensionOfJoined(base: string, ext: string)
    requires |ext| > 0 && forall k :: 0 <= k < |ext| ==> ext[k] != '.' && ext[k] != '/'
    ensures StripExtension(base + "." + ext) == base
  {
    var name := base + "." + ext;
    assert IsExtensionAt(name, |base|);
    assert name[..|base|] == base;
  }

  /** At most one position starts an extension. */
  lemma ExtensionIsUnique(name: string, p: int, q: int)
    requires IsExtensionAt(name, p) && IsExtensionAt(name, q)
    ensures p == q
  {
    assert !(p < q) && !(q < p);
  }
}
