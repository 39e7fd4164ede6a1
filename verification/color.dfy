/** Colour derivation for clips (utils/color.ts): the numbered-name parser,
    the name hash, hex/RGB conversion, the brightness test, and the
    leader/follower hue and lightness shift. The floating-point conversions
    `hexToHsl` and `hslToHex` are supplied by the caller as an `HslCodec`. */
module Color {
  import opened Types
  import opened JsSemantics

  /** An HSL triple as `hexToHsl` produces it: an integer hue, saturation and
      lightness in percent. */
  datatype Hsl = Hsl(h: int, s: real, l: real)

  /** The floating-point conversions between hex strings and HSL. */
  datatype HslCodec = HslCodec(toHsl: string -> Hsl, toHex: Hsl -> string)

  /** One parsed colour channel: `parseInt` yields a number or NaN. */
  datatype Channel = Num(v: int) | NaN

  datatype Rgb = Rgb(r: Channel, g: Channel, b: Channel)

  /** The family name and index of a numbered clip name ("Intro 2" is ("Intro", 2)). */
  datatype NameParts = NameParts(baseName: string, number: nat)

  // ---------------------------------------------------------------- parseName

  /** The characters `[ #]` of the name pattern. */
  predicate IsSeparator(c: char) {
    c == ' ' || c == '#'
  }

  predicate NoLineTerminator(s: string) {
    forall i :: 0 <= i < |s| ==> !IsLineTerminator(s[i])
  }

  /** Positions where `/^(.*?)(?:[ #]*(\d+))(.*)$/` can place its groups:
      group 1 is `s[..k]`, the separators are `s[k..d]`, group 2 is `s[d..e]`.
      `.` matches no line terminator, so the whole name must be free of them. */
  ghost predicate PatternSplit(s: string, k: int, d: int, e: int) {
    && 0 <= k <= d < e <= |s|
    && NoLineTerminator(s)
    && (forall i :: k <= i < d ==> IsSeparator(s[i]))
    && (forall i :: d <= i < e ==> IsDigit(s[i]))
  }

  function FirstDigitIndex(s: string): (r: nat)
    ensures r <= |s|
    ensures r < |s| ==> IsDigit(s[r])
    ensures forall i :: 0 <= i < r ==> !IsDigit(s[i])
  {
    if |s| == 0 then 0
    else if IsDigit(s[0]) then 0
    else
      var r := 1 + FirstDigitIndex(s[1..]);
      assert forall i :: 1 <= i < r ==> s[i] == s[1..][i - 1];
      r
  }

  predicate AllSeparators(s: string, from: int, to: int)
    requires 0 <= from <= to <= |s|
  {
    forall i :: from <= i < to ==> IsSeparator(s[i])
  }

  /** The start of the run of separators that ends at `d`. */
  function SeparatorRunStart(s: string, d: nat): (k: nat)
    requires d <= |s|
    ensures k <= d
    ensures AllSeparators(s, k, d)
    ensures k == 0 || !IsSeparator(s[k - 1])
    ensures forall k' :: 0 <= k' <= d && AllSeparators(s, k', d) ==> k <= k'
  {
    if d > 0 && IsSeparator(s[d - 1]) then SeparatorRunStart(s, d - 1) else d
  }

  /** The end of the run of digits that starts at `d`. */
  function DigitRunEnd(s: string, d: nat): (e: nat)
    requires d <= |s|
    ensures d <= e <= |s|
    ensures forall i :: d <= i < e ==> IsDigit(s[i])
    ensures e == |s| || !IsDigit(s[e])
    decreases |s| - d
  {
    if d < |s| && IsDigit(s[d]) then DigitRunEnd(s, d + 1) else d
  }

  /** How the regular expression splits the name: at the first digit, with
      the separators just before it and the digits from it on (see
      `NameSplitMatchesPattern`). */
  function NameSplit(s: string): (r: Option<(nat, nat, nat)>)
    ensures r.Some? ==> r.value.0 <= r.value.1 < r.value.2 <= |s| && AllDigits(s[r.value.1..r.value.2])
  {
    if !NoLineTerminator(s) then None
    else
      var d := FirstDigitIndex(s);
      if d == |s| then None
      else
        var k := SeparatorRunStart(s, d);
        var e := DigitRunEnd(s, d);
        assert forall i :: 0 <= i < e - d ==> s[d..e][i] == s[d + i];
        Some((k, d, e))
  }

  /** The split is where the regular expression puts its groups: the lazy
      first group makes `k` the least possible start, and the greedy digit
      group runs to the end of the digits. No split exists exactly when the
      pattern does not match. */
  lemma NameSplitMatchesPattern(s: string)
    ensures var r := NameSplit(s);
            && (r.Some? ==> PatternSplit(s, r.value.0, r.value.1, r.value.2))
            && (r.Some? ==> forall k, d, e :: PatternSplit(s, k, d, e) ==> r.value.0 <= k)
            && (r.Some? ==> r.value.2 == |s| || !IsDigit(s[r.value.2]))
            && (r.None? <==> forall k, d, e :: !PatternSplit(s, k, d, e))
  {
    if NoLineTerminator(s) {
      var d := FirstDigitIndex(s);
      SplitStartsAtADigit(s, d);
      if d < |s| {
        SplitIsLeast(s, SeparatorRunStart(s, d), d, DigitRunEnd(s, d));
      }
    }
  }

  /** Every split puts its digits at or after the first digit. */
  lemma SplitStartsAtADigit(s: string, d: nat)
    requires d <= |s| && forall i :: 0 <= i < d ==> !IsDigit(s[i])
    ensures forall k', d', e' :: PatternSplit(s, k', d', e') ==> d <= d' < |s|
  {
    forall k', d', e' | PatternSplit(s, k', d', e')
      ensures d <= d' < |s|
    {
      assert IsDigit(s[d']);
    }
  }

  /** The separators before the first digit run and that run form the least split. */
  lemma SplitIsLeast(s: string, k: nat, d: nat, e: nat)
    requires NoLineTerminator(s) && k <= d < e <= |s|
    requires AllSeparators(s, k, d) && forall i :: d <= i < e ==> IsDigit(s[i])
    requires forall k', d', e' :: PatternSplit(s, k', d', e') ==> d <= d' < |s|
    requires forall k' :: 0 <= k' <= d && AllSeparators(s, k', d) ==> k <= k'
    ensures PatternSplit(s, k, d, e) && AllDigits(s[d..e])
    ensures forall k', d', e' :: PatternSplit(s, k', d', e') ==> k <= k'
  {
    assert forall i :: 0 <= i < e - d ==> s[d..e][i] == s[d + i];
    forall k', d', e' | PatternSplit(s, k', d', e')
      ensures k <= k'
    {
      if k' <= d {
        assert AllSeparators(s, k', d);
      }
    }
  }

  /** `parseName`: the first digit run is the number; the base name is the
      trimmed text before it (separators dropped), else the trimmed text after
      it, else the whole name. Without a match the name is its own family, number 1. */
  function ParseName(name: string): (r: NameParts)
    ensures NameSplit(name).None? ==> r == NameParts(name, 1)
    ensures NameSplit(name).Some? ==>
      var (k, d, e) := NameSplit(name).value;
      && r.number == DecimalValue(name[d..e])
      && (Trim(name[..k]) != "" ==> r.baseName == Trim(name[..k]))
      && (Trim(name[..k]) == "" && Trim(name[e..]) != "" ==> r.baseName == Trim(name[e..]))
      && (Trim(name[..k]) == "" && Trim(name[e..]) == "" ==> r.baseName == name)
  {
    match NameSplit(name)
    case None => NameParts(name, 1)
    case Some((k, d, e)) =>
      var prefix := Trim(name[..k]);
      var suffix := Trim(name[e..]);
      var baseName := if prefix != "" then prefix else if suffix != "" then suffix else name;
      NameParts(baseName, DecimalValue(name[d..e]))
  }

  /** A name without digits is a family of its own with number 1. */
  lemma NameWithoutDigits(name: string)
    requires forall i :: 0 <= i < |name| ==> !IsDigit(name[i])
    ensures ParseName(name) == NameParts(name, 1)
  {
    NameSplitMatchesPattern(name);
    assert NameSplit(name).None?;
  }

  /** Writing a family name, any run of spaces and '#', and a number, parses
      back to that family name and number ("Intro #2" is ("Intro", 2)). */
  lemma {:induction false} ParseNumberedName(base: string, sep: string, n: nat)
    requires |base| > 0
    requires !IsJsWhitespace(base[0]) && !IsJsWhitespace(base[|base| - 1]) && !IsSeparator(base[|base| - 1])
    requires forall i :: 0 <= i < |base| ==> !IsDigit(base[i]) && !IsLineTerminator(base[i])
    requires forall i :: 0 <= i < |sep| ==> IsSeparator(sep[i])
    ensures ParseName(base + sep + DecimalString(n)) == NameParts(base, n)
  {
    var digits := DecimalString(n);
    NumberedNameRuns(base, sep, digits);
    ParseNameOfRuns(base + sep + digits, |base|, |base| + |sep|, |base| + |sep| + |digits|, base, n);
  }

  /** A name whose text before its first digit run is a trimmed non-blank
      text is named by that text, numbered by the run. */
  lemma ParseNameOfRuns(s: string, k: nat, d: nat, e: nat, baseName: string, n: nat)
    requires d < |s| && FirstDigitIndex(s) == d
    requires SeparatorRunStart(s, d) == k && DigitRunEnd(s, d) == e
    requires forall i :: 0 <= i < |s| ==> !IsLineTerminator(s[i])
    requires s[..k] == baseName && |baseName| > 0
    requires !IsJsWhitespace(baseName[0]) && !IsJsWhitespace(baseName[|baseName| - 1])
    requires s[d..e] == DecimalString(n)
    ensures ParseName(s) == NameParts(baseName, n)
  {
    TrimOfTrimmed(baseName);
    DecimalRoundTrip(n);
    assert NameSplit(s) == Some((k, d, e));
  }

  /** Where the first digit and the runs around it fall in a numbered name. */
  lemma NumberedNameRuns(base: string, sep: string, digits: string)
    requires |base| > 0 && !IsSeparator(base[|base| - 1])
    requires forall i :: 0 <= i < |base| ==> !IsDigit(base[i]) && !IsLineTerminator(base[i])
    requires forall i :: 0 <= i < |sep| ==> IsSeparator(sep[i])
    requires |digits| > 0 && AllDigits(digits)
    ensures var name := base + sep + digits;
            var d := |base| + |sep|;
            && FirstDigitIndex(name) == d
            && SeparatorRunStart(name, d) == |base|
            && DigitRunEnd(name, d) == |base| + |sep| + |digits|
            && (forall i :: 0 <= i < |name| ==> !IsLineTerminator(name[i]))
            && name[..|base|] == base
            && name[d..|base| + |sep| + |digits|] == digits
  {
    var name := base + sep + digits;
    var d := |base| + |sep|;
    assert forall i :: 0 <= i < |base| ==> name[i] == base[i];
    assert forall i :: |base| <= i < d ==> name[i] == sep[i - |base|];
    assert forall i :: d <= i < |name| ==> name[i] == digits[i - d];
    FirstDigitIs(name, d);
    SeparatorRunStartIs(name, |base|, d);
    DigitRunEndIs(name, d);
    assert name[..|base|] == base;
    assert name[d..|name|] == digits;
  }

  lemma FirstDigitIs(s: string, d: nat)
    requires d < |s| && IsDigit(s[d]) && forall i :: 0 <= i < d ==> !IsDigit(s[i])
    ensures FirstDigitIndex(s) == d
  {
  }

  lemma SeparatorRunStartIs(s: string, k: nat, d: nat)
    requires k <= d <= |s| && (k == 0 || !IsSeparator(s[k - 1]))
    requires forall i :: k <= i < d ==> IsSeparator(s[i])
    ensures SeparatorRunStart(s, d) == k
  {
    var r := SeparatorRunStart(s, d);
    assert AllSeparators(s, k, d);
    assert forall i :: r <= i < d ==> IsSeparator(s[i]);
  }

  lemma DigitRunEndIs(s: string, d: nat)
    requires d <= |s| && forall i :: d <= i < |s| ==> IsDigit(s[i])
    ensures DigitRunEnd(s, d) == |s|
  {
  }



  // ---------------------------------------------------------------- stringToHue

  /** The textbook string hash `31 * hash + code` over the code units, without wrap-around. */
  function PolyHash(units: seq<int>): int {
    if |units| == 0 then 0 else 31 * PolyHash(units[..|units| - 1]) + units[|units| - 1]
  }

  /** The hash after each UTF-16 code unit: `hash = code + ((hash << 5) - hash)`,
      with `hash` itself an unbounded number. Only the shift wraps to 32 bits,
      so the hash agrees with the textbook hash modulo 2^32. */
  function NameHash(units: seq<int>): (r: int)
    ensures (r - PolyHash(units)) % TwoPow32 == 0
  {
    if |units| == 0 then 0
    else
      var h := NameHash(units[..|units| - 1]);
      var code := units[|units| - 1];
      ModCombine(Shl5(h) - 32 * h, h - PolyHash(units[..|units| - 1]));
      code + (Shl5(h) - h)
  }

  /** Multiples of 2^32 stay multiples under `a + 31 * b`. */
  lemma ModCombine(a: int, b: int)
    requires a % TwoPow32 == 0 && b % TwoPow32 == 0
    ensures (a + 31 * b) % TwoPow32 == 0
  {
    var i, j := a / TwoPow32, b / TwoPow32;
    assert a == TwoPow32 * i && b == TwoPow32 * j;
    assert a + 31 * b == TwoPow32 * (i + 31 * j);
  }

  /** While the hash stays small, each step is the familiar `31 * hash + code`. */
  lemma NameHashStep(units: seq<int>, code: int)
    requires -0x400_0000 <= NameHash(units) < 0x400_0000
    ensures NameHash(units + [code]) == 31 * NameHash(units) + code
  {
    assert (units + [code])[..|units|] == units;
    Shl5Small(NameHash(units));
  }

  /** `stringToHue`: `Math.abs(hash % 360)` with the JS remainder. */
  function StringToHue(s: string): (r: int)
    ensures 0 <= r < 360
    ensures r == Abs(NameHash(Utf16(s))) % 360
  {
    var hash := NameHash(Utf16(s));
    Abs(JsRem(hash, 360))
  }

  // ---------------------------------------------------------------- hex and RGB

  /** `parseInt("0x" + a + b)`: the leading hex digits, NaN when there are none. */
  function ParseHexPair(a: int, b: int): (r: Channel)
    ensures IsHexUnit(a) && IsHexUnit(b) ==> r == Num(16 * HexUnitValue(a) + HexUnitValue(b))
    ensures r.Num? ==> 0 <= r.v < 256
    ensures IsHexUnit(a) && !IsHexUnit(b) ==> r == Num(HexUnitValue(a))
    ensures r.NaN? <==> !IsHexUnit(a)
  {
    if !IsHexUnit(a) then NaN
    else if !IsHexUnit(b) then Num(HexUnitValue(a))
    else Num(16 * HexUnitValue(a) + HexUnitValue(b))
  }

  /** `hexToRgb`: a 4-unit string doubles each digit, a 7-unit string reads
      three pairs; the first unit is not inspected; any other length gives black. */
  function HexToRgb(hex: string): (r: Rgb)
    ensures |Utf16(hex)| != 4 && |Utf16(hex)| != 7 ==> r == Rgb(Num(0), Num(0), Num(0))
    ensures |Utf16(hex)| == 7 ==>
      var u := Utf16(hex);
      r == Rgb(ParseHexPair(u[1], u[2]), ParseHexPair(u[3], u[4]), ParseHexPair(u[5], u[6]))
    ensures |Utf16(hex)| == 4 ==>
      var u := Utf16(hex);
      r == Rgb(ParseHexPair(u[1], u[1]), ParseHexPair(u[2], u[2]), ParseHexPair(u[3], u[3]))
  {
    var u := Utf16(hex);
    if |u| == 4 then Rgb(ParseHexPair(u[1], u[1]), ParseHexPair(u[2], u[2]), ParseHexPair(u[3], u[3]))
    else if |u| == 7 then Rgb(ParseHexPair(u[1], u[2]), ParseHexPair(u[3], u[4]), ParseHexPair(u[5], u[6]))
    else Rgb(Num(0), Num(0), Num(0))
  }

  /** `componentToHex`: `c.toString(16)`, padded with one "0" when it is a single digit. */
  function ComponentToHex(c: int): (r: string)
    ensures 0 <= c < 256 ==> r == [HexDigitChar(c / 16), HexDigitChar(c % 16)]
  {
    var h := IntHexString(c);
    assert 0 <= c < 16 ==> h == [HexDigitChar(c)] && HexDigitChar(0) == '0';
    assert 16 <= c < 256 ==> h == HexString(c / 16) + [HexDigitChar(c % 16)]
                             && HexString(c / 16) == [HexDigitChar(c / 16)];
    if |h| == 1 then "0" + h else h
  }

  /** Parsing the two digits `componentToHex` writes gives the channel back. */
  lemma ComponentParsesBack(c: int)
    requires 0 <= c < 256
    ensures ParseHexPair(HexDigitChar(c / 16) as int, HexDigitChar(c % 16) as int) == Num(c)
  {
  }

  function RgbToHex(r: int, g: int, b: int): (hex: string)
    ensures 0 <= r < 256 && 0 <= g < 256 && 0 <= b < 256 ==> |hex| == 7 && hex[0] == '#'
  {
    "#" + ComponentToHex(r) + ComponentToHex(g) + ComponentToHex(b)
  }

  lemma FormattedDigits(r: int, g: int, b: int)
    requires 0 <= r < 256 && 0 <= g < 256 && 0 <= b < 256
    ensures RgbToHex(r, g, b) == ['#', HexDigitChar(r / 16), HexDigitChar(r % 16), HexDigitChar(g / 16),
                                  HexDigitChar(g % 16), HexDigitChar(b / 16), HexDigitChar(b % 16)]
  {
    assert ComponentToHex(r) == [HexDigitChar(r / 16), HexDigitChar(r % 16)];
    assert ComponentToHex(g) == [HexDigitChar(g / 16), HexDigitChar(g % 16)];
    assert ComponentToHex(b) == [HexDigitChar(b / 16), HexDigitChar(b % 16)];
  }

  /** Formatting channels in 0..255 and parsing them back gives the channels. */
  lemma HexRoundTrip(r: int, g: int, b: int)
    requires 0 <= r < 256 && 0 <= g < 256 && 0 <= b < 256
    ensures HexToRgb(RgbToHex(r, g, b)) == Rgb(Num(r), Num(g), Num(b))
  {
    var hex := RgbToHex(r, g, b);
    FormattedDigits(r, g, b);
    Utf16OfBmp(hex);
    var u := Utf16(hex);
    assert u[1] == HexDigitChar(r / 16) as int && u[2] == HexDigitChar(r % 16) as int;
    assert u[3] == HexDigitChar(g / 16) as int && u[4] == HexDigitChar(g % 16) as int;
    assert u[5] == HexDigitChar(b / 16) as int && u[6] == HexDigitChar(b % 16) as int;
    ComponentParsesBack(r);
    ComponentParsesBack(g);
    ComponentParsesBack(b);
  }

  /** `isLightColor`: the YIQ brightness `(299r + 587g + 114b) / 1000` is at
      least 200; a NaN channel makes the comparison false. */
  function IsLightColor(hex: string): (r: bool)
    ensures r <==> HexToRgb(hex).r.Num? && HexToRgb(hex).g.Num? && HexToRgb(hex).b.Num?
                   && (299 * HexToRgb(hex).r.v + 587 * HexToRgb(hex).g.v + 114 * HexToRgb(hex).b.v) as real / 1000.0 >= 200.0
  {
    match HexToRgb(hex)
    case Rgb(Num(r), Num(g), Num(b)) => 299 * r + 587 * g + 114 * b >= 200000
    case _ => false
  }

  /** On formatted channels the test is the integer YIQ threshold. */
  lemma LightnessOfFormattedColor(r: int, g: int, b: int)
    requires 0 <= r < 256 && 0 <= g < 256 && 0 <= b < 256
    ensures IsLightColor(RgbToHex(r, g, b)) <==> 299 * r + 587 * g + 114 * b >= 200000
  {
    HexRoundTrip(r, g, b);
  }

  // ---------------------------------------------------------------- leader and shift

  /** A clip leads the family `baseName`: its own name parses to that family
      (ignoring case) with number 1. */
  predicate LeadsFamily(c: Clip, baseName: string) {
    var p := ParseName(c.name);
    SameIgnoringCase(p.baseName, baseName) && p.number == 1
  }

  /** `existingClips.find(...)`: the first clip leading the family. */
  function FindLeader(clips: seq<Clip>, baseName: string): (r: Option<Clip>)
    ensures r.Some? ==> exists i :: 0 <= i < |clips| && clips[i] == r.value && LeadsFamily(clips[i], baseName)
                                    && forall j :: 0 <= j < i ==> !LeadsFamily(clips[j], baseName)
    ensures r.None? <==> forall i :: 0 <= i < |clips| ==> !LeadsFamily(clips[i], baseName)
  {
    match FindFirst(clips, (c: Clip) => LeadsFamily(c, baseName))
    case None => None
    case Some(i) => Some(clips[i])
  }

  /** The lightness a shift aims for before clamping: the base nudged by +3
      for even and -3 for odd numbers, less half of `(3(n-1)) % 15`. */
  function LightnessTarget(l: real, n: int): real {
    l + (if JsRem(n, 2) == 0 then 3.0 else -3.0) - (JsRem((n - 1) * 3, 15) as real) / 2.0
  }

  /** The per-index shift shared by `generateSmartColor` and
      `deriveColorFromLeader`: hue moves by 6 degrees per index (JS
      remainder), lightness is nudged by +3 for even and -3 for odd numbers,
      less half of `(3(n-1)) % 15`, and clamped to 20..80. */
  function ShiftHsl(base: Hsl, n: int): (r: Hsl)
    ensures r.s == base.s
    ensures 20.0 <= r.l <= 80.0
    ensures -360 < r.h < 360
    ensures base.h + 6 * (n - 1) >= 0 ==> r.h == (base.h + 6 * (n - 1)) % 360
    ensures base.h + 6 * (n - 1) < 0 ==> r.h <= 0
    ensures r.h == JsRem(base.h + 6 * (n - 1), 360)
    ensures r.l == ClampReal(LightnessTarget(base.l, n), 20.0, 80.0)
    ensures 20.0 <= LightnessTarget(base.l, n) <= 80.0 ==> r.l == LightnessTarget(base.l, n)
  {
    var newH := JsRem(base.h + (n - 1) * 6, 360);
    Hsl(newH, base.s, ClampReal(LightnessTarget(base.l, n), 20.0, 80.0))
  }

  /** `deriveColorFromLeader`: the leader's colour with the hue turned by 6
      degrees per step past 1 (JS remainder), the saturation kept and the
      lightness nudged and clamped to 20..80. */
  function DeriveColorFromLeader(codec: HslCodec, leaderHex: string, followerNumber: int): (r: string)
    ensures var base := codec.toHsl(leaderHex);
            exists h: Hsl :: r == codec.toHex(h) && h.s == base.s
                             && h.l == ClampReal(LightnessTarget(base.l, followerNumber), 20.0, 80.0)
                             && h.h == JsRem(base.h + 6 * (followerNumber - 1), 360)
  {
    var h := ShiftHsl(codec.toHsl(leaderHex), followerNumber);
    codec.toHex(h)
  }

  /** The base colour of a family: the leader's HSL when a leader with a
      colour exists, otherwise the name hash at 65% saturation and 50% lightness. */
  function FamilyBase(codec: HslCodec, baseName: string, existing: seq<Clip>): (r: Hsl)
    ensures FindLeader(existing, baseName).None? || FindLeader(existing, baseName).value.color == ""
            ==> r == Hsl(StringToHue(baseName), 65.0, 50.0) && 0 <= r.h < 360
    ensures FindLeader(existing, baseName).Some? && FindLeader(existing, baseName).value.color != ""
            ==> r == codec.toHsl(FindLeader(existing, baseName).value.color)
  {
    match FindLeader(existing, baseName)
    case Some(leader) => if leader.color != "" then codec.toHsl(leader.color) else Hsl(StringToHue(baseName), 65.0, 50.0)
    case None => Hsl(StringToHue(baseName), 65.0, 50.0)
  }

  /** `generateSmartColor`: a name whose family has a coloured leader gets
      the colour `deriveColorFromLeader` gives for its number; otherwise the
      family name's hash at 65% saturation and 50% lightness, shifted the
      same way. */
  function GenerateSmartColor(codec: HslCodec, name: string, existing: seq<Clip>): (r: string)
    ensures var p := ParseName(name);
            var leader := FindLeader(existing, p.baseName);
            leader.Some? && leader.value.color != "" ==> r == DeriveColorFromLeader(codec, leader.value.color, p.number)
    ensures var p := ParseName(name);
            var leader := FindLeader(existing, p.baseName);
            leader.None? || leader.value.color == "" ==> r == codec.toHex(ShiftHsl(Hsl(StringToHue(p.baseName), 65.0, 50.0), p.number))
  {
    var p := ParseName(name);
    codec.toHex(ShiftHsl(FamilyBase(codec, p.baseName, existing), p.number))
  }

  /** A clip whose family has a coloured leader gets exactly the colour
      `deriveColorFromLeader` computes from the leader's colour. */
  lemma SmartColorFollowsLeader(codec: HslCodec, name: string, existing: seq<Clip>, leader: Clip)
    requires FindLeader(existing, ParseName(name).baseName) == Some(leader)
    requires leader.color != ""
    ensures GenerateSmartColor(codec, name, existing) == DeriveColorFromLeader(codec, leader.color, ParseName(name).number)
  {
  }

  /** Without a coloured leader the colour comes from the hashed family name. */
  lemma SmartColorWithoutLeader(codec: HslCodec, name: string, existing: seq<Clip>)
    requires forall i :: 0 <= i < |existing| ==> !LeadsFamily(existing[i], ParseName(name).baseName)
    ensures GenerateSmartColor(codec, name, existing)
            == codec.toHex(ShiftHsl(Hsl(StringToHue(ParseName(name).baseName), 65.0, 50.0), ParseName(name).number))
  {
  }

  /** Only the family's first leader matters: clips added after it, or clips
      of other families, do not change the colour. */
  lemma SmartColorDependsOnFirstLeader(codec: HslCodec, name: string, a: seq<Clip>, b: seq<Clip>)
    requires FindLeader(a, ParseName(name).baseName).Some?
    ensures GenerateSmartColor(codec, name, a + b) == GenerateSmartColor(codec, name, a)
  {
    var base := ParseName(name).baseName;
    FindFirstOfConcat(a, b, (c: Clip) => LeadsFamily(c, base));
    assert FindLeader(a + b, base) == FindLeader(a, base);
  }
}
