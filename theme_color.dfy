/** `darkenColor`: the hover shade of the user's primary colour. Each of the
    three channels is read from a two-character slice of the "#rrggbb" string
    with `parseInt(…, 16)`, scaled down by a percentage with `Math.floor`, and
    written back as the last two characters of `"0" + c.toString(16)`.

    A channel that does not parse is JavaScript's NaN, modelled as `None`;
    NaN flows through the arithmetic and prints as "NaN". */
module ThemeColor {
  import opened Records
  import opened Text

  /** The colour the theme starts from when none is stored. */
  const DefaultColor: string := "#4ade80"

  /** The provider always darkens by this percentage for the hover shade. */
  const HoverDarkenPercent: int := 20

  // ---------------------------------------------------------------------------
  // Hexadecimal digits

  predicate IsHexDigit(c: char) {
    ('0' <= c <= '9') || ('a' <= c <= 'f') || ('A' <= c <= 'F')
  }

  predicate IsLowerHexDigit(c: char) {
    ('0' <= c <= '9') || ('a' <= c <= 'f')
  }

  predicate AllHex(s: string) {
    forall i :: 0 <= i < |s| ==> IsHexDigit(s[i])
  }

  function HexDigitValue(c: char): (d: nat)
    requires IsHexDigit(c)
    ensures d < 16
  {
    if '0' <= c <= '9' then c as int - '0' as int
    else if 'a' <= c <= 'f' then c as int - 'a' as int + 10
    else c as int - 'A' as int + 10
  }

  /** The lower-case digit `toString(16)` writes for `d`. */
  function HexChar(d: int): (c: char)
    requires 0 <= d < 16
    ensures IsLowerHexDigit(c) && IsHexDigit(c) && HexDigitValue(c) == d
  {
    if d < 10 then ('0' as int + d) as char else ('a' as int + d - 10) as char
  }

  /** Reading a digit and writing it again gives its lower-case form. */
  lemma HexCharOfValue(c: char)
    requires IsHexDigit(c)
    ensures HexChar(HexDigitValue(c)) == LowerChar(c)
  {
  }

  /** The value of a string of hexadecimal digits, most significant first. */
  function HexValue(s: string): nat
    requires AllHex(s)
  {
    if s == [] then 0 else HexValue(s[..|s| - 1]) * 16 + HexDigitValue(s[|s| - 1])
  }

  /** `n.toString(16)` for a non-negative integer. */
  function HexDigits(n: nat): (s: string)
    ensures 1 <= |s|
    ensures forall i :: 0 <= i < |s| ==> IsLowerHexDigit(s[i])
  {
    if n < 16 then [HexChar(n)] else HexDigits(n / 16) + [HexChar(n % 16)]
  }

  // ---------------------------------------------------------------------------
  // The JavaScript operations

  /** The characters `parseInt` skips before the number: white space and line terminators. */
  predicate IsJsWhitespace(c: char) {
    var n := c as int;
    (9 <= n <= 13) || n == 0x20 || n == 0xA0 || n == 0x1680 || (0x2000 <= n <= 0x200A)
    || n == 0x2028 || n == 0x2029 || n == 0x202F || n == 0x205F || n == 0x3000 || n == 0xFEFF
  }

  function TrimStart(s: string): (r: string)
    ensures r == [] || !IsJsWhitespace(r[0])
    ensures |r| <= |s|
  {
    if s != [] && IsJsWhitespace(s[0]) then TrimStart(s[1..]) else s
  }

  /** What is left after the white space is the rest of the string. */
  lemma {:induction false} TrimStartIsSuffix(s: string)
    ensures TrimStart(s) == s[|s| - |TrimStart(s)|..]
    ensures s != [] && !IsJsWhitespace(s[0]) ==> TrimStart(s) == s
  {
    if s != [] && IsJsWhitespace(s[0]) {
      TrimStartIsSuffix(s[1..]);
    }
  }

  /** The longest prefix of `s` made of hexadecimal digits. */
  function HexPrefix(s: string): (p: string)
    ensures |p| <= |s| && AllHex(p)
  {
    if s != [] && IsHexDigit(s[0]) then [s[0]] + HexPrefix(s[1..]) else []
  }

  /** `HexPrefix` is a prefix, and the character after it is not a digit. */
  lemma {:induction false} HexPrefixIsLongest(s: string)
    ensures HexPrefix(s) == s[..|HexPrefix(s)|]
    ensures |HexPrefix(s)| < |s| ==> !IsHexDigit(s[|HexPrefix(s)|])
    ensures AllHex(s) ==> HexPrefix(s) == s
  {
    if s != [] && IsHexDigit(s[0]) {
      HexPrefixIsLongest(s[1..]);
      var rest := HexPrefix(s[1..]);
      assert [s[0]] + rest == s[..|rest| + 1];
      if AllHex(s) {
        assert AllHex(s[1..]);
        assert s == [s[0]] + s[1..];
      }
    }
  }

  /** `parseInt(s, 16)`: leading white space, an optional sign and an optional
      "0x"/"0X" are skipped, then the longest run of hexadecimal digits is
      read; no digit at all gives NaN (`None`). */
  function ParseInt16(s: string): (r: Option<int>)
    ensures r.None? <==> HexPrefix(StripRadixPrefix(StripSign(TrimStart(s)))) == []
    ensures r.Some? ==>
              TrimStart(s) != []
              && r.value == (if TrimStart(s)[0] == '-' then -1 else 1)
                            * HexValue(HexPrefix(StripRadixPrefix(StripSign(TrimStart(s)))))
  {
    var t := TrimStart(s);
    var digits := HexPrefix(StripRadixPrefix(StripSign(t)));
    var value: int := HexValue(digits);
    if digits == [] then None
    else if t[0] == '-' then Some(-value)
    else Some(value)
  }

  /** Drops a leading "-" or "+". */
  function StripSign(t: string): (u: string)
    ensures |u| <= |t|
  {
    if t != [] && (t[0] == '-' || t[0] == '+') then t[1..] else t
  }

  /** Drops a leading "0x" or "0X". */
  function StripRadixPrefix(u: string): string {
    if |u| >= 2 && u[0] == '0' && (u[1] == 'x' || u[1] == 'X') then u[2..] else u
  }

  /** `s.substring(start, end)` for `0 <= start <= end`: both ends are clamped to the length. */
  function Substring(s: string, start: nat, end: nat): (r: string)
    requires start <= end
    ensures |s| >= end ==> r == s[start..end]
  {
    var a := if start <= |s| then start else |s|;
    var b := if end <= |s| then end else |s|;
    s[a..b]
  }

  /** `c.toString(16)`, NaN included. */
  function NumberToHex(c: Option<int>): string {
    match c
    case None => "NaN"
    case Some(n) => if n < 0 then "-" + HexDigits(-n) else HexDigits(n)
  }

  /** `("0" + c.toString(16)).slice(-2)`: the last two characters. */
  function ToHex(c: Option<int>): (r: string)
    ensures |r| == 2
  {
    var s := "0" + NumberToHex(c);
    s[|s| - 2..]
  }

  /** `Math.floor((c * (100 - percent)) / 100)`, NaN staying NaN: the largest
      whole number whose hundredfold does not exceed the scaled channel. */
  function Scale(c: Option<int>, percent: int): (r: Option<int>)
    ensures r.Some? <==> c.Some?
    ensures r.Some? ==> r.value * 100 <= c.value * (100 - percent) < r.value * 100 + 100
  {
    match c
    case None => None
    case Some(v) => Some((v * (100 - percent)) / 100)
  }

  /** The channel read from the characters at `start` and `start + 1`: the
      value of the pair when both are hexadecimal digits, NaN when the string
      ends before `start`. */
  function Channel(hex: string, start: nat): (r: Option<int>)
    ensures start + 2 <= |hex| && AllHex(hex[start..start + 2]) ==> r == Some(HexValue(hex[start..start + 2]))
    ensures |hex| <= start ==> r.None?
  {
    ParseOfPairWhenHex(Substring(hex, start, start + 2));
    ParseInt16(Substring(hex, start, start + 2))
  }

  /** `darkenColor(hex, percent)`: "#" and the three darkened channels, each
      written with two characters. */
  function DarkenColor(hex: string, percent: int): (r: string)
    ensures |r| == 7 && r[0] == '#'
  {
    "#" + ToHex(Scale(Channel(hex, 1), percent))
        + ToHex(Scale(Channel(hex, 3), percent))
        + ToHex(Scale(Channel(hex, 5), percent))
  }

  // ---------------------------------------------------------------------------
  // Properties

  /** A colour as the palette stores it: any first character, then six hexadecimal digits. */
  predicate IsHexColor(hex: string) {
    |hex| >= 7 && forall i :: 1 <= i < 7 ==> IsHexDigit(hex[i])
  }

  /** "#" followed by exactly six lower-case hexadecimal digits. */
  predicate IsLowerHexColor(r: string) {
    |r| == 7 && r[0] == '#' && forall i :: 1 <= i < 7 ==> IsLowerHexDigit(r[i])
  }

  /** Only the first seven characters count: an alpha pair or anything else
      after them is ignored. */
  lemma IgnoresTail(hex: string, percent: int)
    requires |hex| >= 7
    ensures DarkenColor(hex, percent) == DarkenColor(hex[..7], percent)
  {
    assert Substring(hex, 1, 3) == Substring(hex[..7], 1, 3);
    assert Substring(hex, 3, 5) == Substring(hex[..7], 3, 5);
    assert Substring(hex, 5, 7) == Substring(hex[..7], 5, 7);
  }

  /** For a percentage from 0 to 100 a channel never leaves the range from 0 to its old value. */
  lemma ScaleBounds(v: int, percent: int)
    requires v >= 0 && 0 <= percent <= 100
    ensures 0 <= Scale(Some(v), percent).value <= v
  {
    var k := 100 - percent;
    assert 0 <= v * k <= v * 100 by {
      assert v * 100 - v * k == v * percent;
    }
  }

  lemma HexValueOfPair(p: string)
    requires |p| == 2 && AllHex(p)
    ensures HexValue(p) == HexDigitValue(p[0]) * 16 + HexDigitValue(p[1])
  {
    var q := p[..1];
    assert p[..|p| - 1] == q && p[|p| - 1] == p[1];
    assert q[..|q| - 1] == [] && q[|q| - 1] == p[0];
    assert HexValue(q) == HexDigitValue(p[0]);
  }

  /** `parseInt(s, 16)` of a written number: white space, an optional sign,
      an optional "0x"/"0X", hexadecimal digits and then anything that does
      not continue the digits gives the digits' value, negated after "-". */
  lemma ParseInt16OfNumeral(ws: string, sign: string, prefix: string, digits: string, tail: string)
    requires forall i :: 0 <= i < |ws| ==> IsJsWhitespace(ws[i])
    requires sign == "" || sign == "-" || sign == "+"
    requires prefix == "" || prefix == "0x" || prefix == "0X"
    requires digits != [] && AllHex(digits)
    requires tail == [] || !IsHexDigit(tail[0])
    requires prefix == "" && digits == "0" && tail != [] ==> tail[0] != 'x' && tail[0] != 'X'
    ensures ParseInt16(ws + sign + prefix + digits + tail)
            == Some((if sign == "-" then -1 else 1) * HexValue(digits))
  {
    var body := digits + tail;
    var unsigned := prefix + body;
    var rest := sign + unsigned;
    assert ws + sign + prefix + digits + tail == ws + rest;
    RadixPrefixStripped(prefix, digits, tail);
    SignStripped(sign, unsigned);
    TrimStartOfWhitespace(ws, rest);
    HexPrefixOfDigits(digits, tail);
    assert rest[0] == '-' <==> sign == "-";
  }

  lemma SignStripped(sign: string, unsigned: string)
    requires sign == "" || sign == "-" || sign == "+"
    requires unsigned != [] && IsHexDigit(unsigned[0])
    ensures sign + unsigned != [] && !IsJsWhitespace((sign + unsigned)[0])
    ensures StripSign(sign + unsigned) == unsigned
    ensures (sign + unsigned)[0] == '-' <==> sign == "-"
  {
    if sign == "" {
      assert sign + unsigned == unsigned;
    } else {
      assert (sign + unsigned)[0] == sign[0];
      assert (sign + unsigned)[1..] == unsigned;
    }
  }

  lemma RadixPrefixStripped(prefix: string, digits: string, tail: string)
    requires prefix == "" || prefix == "0x" || prefix == "0X"
    requires digits != [] && AllHex(digits)
    requires prefix == "" && digits == "0" && tail != [] ==> tail[0] != 'x' && tail[0] != 'X'
    ensures prefix + (digits + tail) != []
    ensures IsHexDigit((prefix + (digits + tail))[0])
    ensures StripRadixPrefix(prefix + (digits + tail)) == digits + tail
  {
    var body := digits + tail;
    if prefix == "" {
      assert prefix + body == body;
      assert body[0] == digits[0];
      if |digits| >= 2 {
        assert body[1] == digits[1];
      }
    } else {
      assert (prefix + body)[0] == '0';
      assert (prefix + body)[1] == prefix[1];
      assert (prefix + body)[2..] == body;
    }
  }

  lemma {:induction false} TrimStartOfWhitespace(ws: string, rest: string)
    requires forall i :: 0 <= i < |ws| ==> IsJsWhitespace(ws[i])
    requires rest == [] || !IsJsWhitespace(rest[0])
    ensures TrimStart(ws + rest) == rest
  {
    if ws == [] {
      assert ws + rest == rest;
    } else {
      assert (ws + rest)[1..] == ws[1..] + rest;
      TrimStartOfWhitespace(ws[1..], rest);
    }
  }

  lemma {:induction false} HexPrefixOfDigits(digits: string, tail: string)
    requires AllHex(digits)
    requires tail == [] || !IsHexDigit(tail[0])
    ensures HexPrefix(digits + tail) == digits
  {
    if digits == [] {
      assert digits + tail == tail;
    } else {
      assert (digits + tail)[1..] == digits[1..] + tail;
      HexPrefixOfDigits(digits[1..], tail);
      assert [digits[0]] + digits[1..] == digits;
    }
  }

  /** Leading white space and a minus sign: `parseInt(" -f", 16)` is -15. */
  lemma PaddedNegativeExample()
    ensures ParseInt16(" -f") == Some(-15)
  {
    var f := "f";
    assert IsJsWhitespace(' ') && AllHex(f);
    ParseInt16OfNumeral(" ", "-", "", f, "");
    assert " " + "-" + "" + f + "" == " -f";
    assert HexValue(f) == 15 by { assert f[..0] == []; }
  }

  /** A radix prefix is skipped: `parseInt("0x1A", 16)` is 26. */
  lemma RadixPrefixExample()
    ensures ParseInt16("0x1A") == Some(26)
  {
    var d := "1A";
    assert AllHex(d);
    ParseInt16OfNumeral("", "", "0x", d, "");
    assert "" + "" + "0x" + d + "" == "0x1A";
    HexValueOf1A();
  }

  lemma HexValueOf1A()
    ensures HexValue("1A") == 26
  {
    var d := "1A";
    assert d[..1] == "1";
    assert d[..1][..0] == [];
  }

  /** A plus sign and a trailing non-digit: `parseInt("+ff;", 16)` is 255. */
  lemma SignedTailExample()
    ensures ParseInt16("+ff;") == Some(255)
  {
    var d := "ff";
    assert AllHex(d) && !IsHexDigit(';');
    ParseInt16OfNumeral("", "+", "", d, ";");
    assert "" + "+" + "" + d + ";" == "+ff;";
    assert HexValue(d) == 255 by { assert d[..1] == "f"; assert d[..1][..0] == []; }
  }

  /** No digit at all: `parseInt("zz", 16)` is NaN. */
  lemma NoDigitExample()
    ensures ParseInt16("zz") == None
  {
    var z := "zz";
    assert !IsJsWhitespace(z[0]) && !IsHexDigit(z[0]) && z[0] != '-' && z[0] != '+' && z[0] != '0';
    assert TrimStart(z) == z;
    assert StripSign(z) == z && StripRadixPrefix(z) == z;
  }

  /** `parseInt` reads two hexadecimal digits as their value. */
  lemma ParseOfPair(p: string)
    requires |p| == 2 && AllHex(p)
    ensures ParseInt16(p) == Some(HexValue(p))
  {
    ParseInt16OfNumeral("", "", "", p, "");
    assert "" + "" + "" + p + "" == p;
  }

  /** `ParseOfPair`, for any string: when it is two hexadecimal digits. */
  lemma ParseOfPairWhenHex(p: string)
    ensures |p| == 2 && AllHex(p) ==> ParseInt16(p) == Some(HexValue(p))
  {
    if |p| == 2 && AllHex(p) {
      ParseOfPair(p);
    }
  }

  /** The three channels of "#" followed by three two-character strings are those strings, parsed. */
  lemma ChannelsOfFormatted(a: string, b: string, c: string)
    requires |a| == 2 && |b| == 2 && |c| == 2
    ensures Channel("#" + a + b + c, 1) == ParseInt16(a)
    ensures Channel("#" + a + b + c, 3) == ParseInt16(b)
    ensures Channel("#" + a + b + c, 5) == ParseInt16(c)
  {
    var r := "#" + a + b + c;
    assert r[1..3] == a && r[3..5] == b && r[5..7] == c;
  }

  /** What `ToHex` writes for a value from 0 to 255: its high and low hexadecimal digits. */
  lemma ToHexOfByte(v: int)
    requires 0 <= v < 256
    ensures ToHex(Some(v)) == [HexChar(v / 16), HexChar(v % 16)]
  {
    var hi, lo := v / 16, v % 16;
    if v < 16 {
      assert hi == 0 && lo == v;
      ZeroPrefixed(HexDigits(v));
    } else {
      HexDigitsOfByte(v);
      ZeroPrefixed(HexDigits(v));
    }
  }

  lemma HexDigitsOfByte(v: int)
    requires 16 <= v < 256
    ensures HexDigits(v) == [HexChar(v / 16), HexChar(v % 16)]
  {
    var hi := v / 16;
    assert 1 <= hi < 16;
    assert HexDigits(hi) == [HexChar(hi)];
  }

  /** The last two characters of "0" followed by one or two characters. */
  lemma ZeroPrefixed(x: string)
    requires 1 <= |x| <= 2
    ensures ("0" + x)[|"0" + x| - 2..] == if |x| == 1 then ['0', x[0]] else x
  {
  }

  /** Reading back what `ToHex` wrote gives the value, for a value from 0 to 255. */
  lemma ToHexRoundTrip(v: int)
    requires 0 <= v < 256
    ensures AllHex(ToHex(Some(v))) && ParseInt16(ToHex(Some(v))) == Some(v)
  {
    ToHexOfByte(v);
    var p := ToHex(Some(v));
    ParseOfPair(p);
    HexValueOfPair(p);
  }

  /** Two hexadecimal digits read as a channel and written again come back lower-cased. */
  lemma PairRoundTrip(p: string)
    requires |p| == 2 && AllHex(p)
    ensures ParseInt16(p) == Some(HexValue(p)) && HexValue(p) < 256
    ensures ToHex(Some(HexValue(p))) == ToLower(p)
  {
    ParseOfPair(p);
    PairRewritten(p);
  }

  /** A pair's value, written again, is the pair in lower case. */
  lemma PairRewritten(p: string)
    requires |p| == 2 && AllHex(p)
    ensures HexValue(p) < 256
    ensures ToHex(Some(HexValue(p))) == ToLower(p)
  {
    HexValueOfPair(p);
    var v := HexValue(p);
    var hi, lo := HexDigitValue(p[0]), HexDigitValue(p[1]);
    assert v / 16 == hi && v % 16 == lo;
    ToHexOfByte(v);
    HexCharOfValue(p[0]);
    HexCharOfValue(p[1]);
    assert ToHex(Some(v)) == [LowerChar(p[0]), LowerChar(p[1])];
    assert ToLower(p) == [LowerChar(p[0]), LowerChar(p[1])];
  }

  lemma ChannelOfHexColor(hex: string, start: nat)
    requires IsHexColor(hex) && start in {1, 3, 5}
    ensures AllHex(hex[start..start + 2])
    ensures Channel(hex, start) == Some(HexValue(hex[start..start + 2]))
    ensures HexValue(hex[start..start + 2]) < 256
    ensures ToHex(Channel(hex, start)) == ToLower(hex[start..start + 2])
  {
    PairRoundTrip(hex[start..start + 2]);
  }

  /** One channel of a colour of six hexadecimal digits, darkened by a
      percentage from 0 to 100: written as two lower-case digits that read
      back as the scaled value, which lies between 0 and the old value. */
  lemma DarkenedChannel(hex: string, start: nat, percent: int)
    requires IsHexColor(hex) && start in {1, 3, 5} && 0 <= percent <= 100
    ensures Scale(Channel(hex, start), percent).Some?
    ensures 0 <= Scale(Channel(hex, start), percent).value <= Channel(hex, start).value
    ensures IsLowerHexDigit(ToHex(Scale(Channel(hex, start), percent))[0])
    ensures IsLowerHexDigit(ToHex(Scale(Channel(hex, start), percent))[1])
    ensures ParseInt16(ToHex(Scale(Channel(hex, start), percent))) == Scale(Channel(hex, start), percent)
  {
    ChannelOfHexColor(hex, start);
    var v := Channel(hex, start).value;
    ScaleBounds(v, percent);
    var c := Scale(Channel(hex, start), percent).value;
    ToHexOfByte(c);
    ToHexRoundTrip(c);
  }

  /** For a colour of six hexadecimal digits and a percentage from 0 to 100,
      the result is "#" and six lower-case hexadecimal digits, and reading it
      back gives every channel scaled down. */
  lemma DarkenWellFormed(hex: string, percent: int)
    requires IsHexColor(hex) && 0 <= percent <= 100
    ensures IsLowerHexColor(DarkenColor(hex, percent))
    ensures Channel(DarkenColor(hex, percent), 1) == Scale(Channel(hex, 1), percent)
    ensures Channel(DarkenColor(hex, percent), 3) == Scale(Channel(hex, 3), percent)
    ensures Channel(DarkenColor(hex, percent), 5) == Scale(Channel(hex, 5), percent)
  {
    var a := ToHex(Scale(Channel(hex, 1), percent));
    var b := ToHex(Scale(Channel(hex, 3), percent));
    var c := ToHex(Scale(Channel(hex, 5), percent));
    DarkenedChannel(hex, 1, percent);
    DarkenedChannel(hex, 3, percent);
    DarkenedChannel(hex, 5, percent);
    assert DarkenColor(hex, percent) == "#" + a + b + c;
    ChannelsOfFormatted(a, b, c);
    FormattedIsLowerHex(a, b, c);
  }

  lemma FormattedIsLowerHex(a: string, b: string, c: string)
    requires |a| == 2 && |b| == 2 && |c| == 2
    requires IsLowerHexDigit(a[0]) && IsLowerHexDigit(a[1]) && IsLowerHexDigit(b[0])
    requires IsLowerHexDigit(b[1]) && IsLowerHexDigit(c[0]) && IsLowerHexDigit(c[1])
    ensures IsLowerHexColor("#" + a + b + c)
  {
    var r := "#" + a + b + c;
    assert r[1] == a[0] && r[2] == a[1] && r[3] == b[0] && r[4] == b[1] && r[5] == c[0] && r[6] == c[1];
  }

  /** Darkening by 0 lower-cases the first seven characters of a colour that starts with "#". */
  lemma DarkenByZero(hex: string)
    requires IsHexColor(hex) && hex[0] == '#'
    ensures DarkenColor(hex, 0) == ToLower(hex[..7])
  {
    UnscaledColor(hex);
    LowerOfPrefix(hex);
  }

  lemma UnscaledColor(hex: string)
    requires IsHexColor(hex)
    ensures DarkenColor(hex, 0) == "#" + ToLower(hex[1..3]) + ToLower(hex[3..5]) + ToLower(hex[5..7])
  {
    UnscaledChannel(hex, 1);
    UnscaledChannel(hex, 3);
    UnscaledChannel(hex, 5);
  }

  lemma LowerOfPrefix(hex: string)
    requires |hex| >= 7 && hex[0] == '#'
    ensures ToLower(hex[..7]) == "#" + ToLower(hex[1..3]) + ToLower(hex[3..5]) + ToLower(hex[5..7])
  {
    var h := hex[..7];
    LowerOfColor(h);
    assert h[1..3] == hex[1..3] && h[3..5] == hex[3..5] && h[5..7] == hex[5..7];
  }

  lemma UnscaledChannel(hex: string, start: nat)
    requires IsHexColor(hex) && start in {1, 3, 5}
    ensures ToHex(Scale(Channel(hex, start), 0)) == ToLower(hex[start..start + 2])
  {
    ChannelOfHexColor(hex, start);
    ScaleByZero(Channel(hex, start));
  }

  lemma ScaleByZero(c: Option<int>)
    ensures Scale(c, 0) == c
  {
  }

  /** Lower-casing a "#" and three pairs lower-cases each pair. */
  lemma LowerOfColor(h: string)
    requires |h| == 7 && h[0] == '#'
    ensures ToLower(h) == "#" + ToLower(h[1..3]) + ToLower(h[3..5]) + ToLower(h[5..7])
  {
    var p1, p3, p5 := h[1..3], h[3..5], h[5..7];
    var l1, l3, l5 := ToLower(p1), ToLower(p3), ToLower(p5);
    var r := "#" + l1 + l3 + l5;
    forall i | 0 <= i < 7
      ensures r[i] == LowerChar(h[i])
    {
      if i == 0 {
        assert r[i] == '#' && LowerChar('#') == '#';
      } else if i < 3 {
        assert r[i] == l1[i - 1] && p1[i - 1] == h[i];
      } else if i < 5 {
        assert r[i] == l3[i - 3] && p3[i - 3] == h[i];
      } else {
        assert r[i] == l5[i - 5] && p5[i - 5] == h[i];
      }
    }
    assert ToLower(h) == r;
  }

  /** Darkening by 100 gives black whenever all three channels parse. */
  lemma DarkenByHundred(hex: string)
    requires Channel(hex, 1).Some? && Channel(hex, 3).Some? && Channel(hex, 5).Some?
    ensures DarkenColor(hex, 100) == "#000000"
  {
    BlackChannel(Channel(hex, 1));
    BlackChannel(Channel(hex, 3));
    BlackChannel(Channel(hex, 5));
    DarkenParts(hex, 100, Channel(hex, 1), Channel(hex, 3), Channel(hex, 5), "00", "00", "00");
    BlackString();
  }

  lemma BlackString()
    ensures "#" + "00" + "00" + "00" == "#000000"
  {
  }

  lemma BlackChannel(c: Option<int>)
    requires c.Some?
    ensures ToHex(Scale(c, 100)) == "00"
  {
    assert Scale(c, 100) == Some(0);
    ToHexOfByte(0);
  }

  /** A channel that does not parse prints as the last two letters of "NaN". */
  lemma UnparsableChannel(hex: string, percent: int)
    requires Channel(hex, 1).None?
    ensures DarkenColor(hex, percent)[1..3] == "aN"
  {
    var a := ToHex(Scale(Channel(hex, 1), percent));
    var b := ToHex(Scale(Channel(hex, 3), percent));
    var c := ToHex(Scale(Channel(hex, 5), percent));
    assert DarkenColor(hex, percent) == "#" + a + b + c;
    FirstPair(a, b, c);
    NaNHex(Scale(Channel(hex, 1), percent));
  }

  /** NaN is written as "NaN", of which the last two characters remain. */
  lemma NaNHex(c: Option<int>)
    requires c.None?
    ensures ToHex(c) == "aN"
  {
  }

  lemma FirstPair(a: string, b: string, c: string)
    requires |a| == 2
    ensures ("#" + a + b + c)[1..3] == a
  {
  }

  /** The hover shade of the default green. */
  lemma DefaultHoverColor(hex: string)
    requires hex == DefaultColor
    ensures DarkenColor(hex, HoverDarkenPercent) == "#3bb166"
  {
    DefaultChannels(hex);
    HoverPairs();
    DarkenParts(hex, HoverDarkenPercent, Some(74), Some(222), Some(128), "3b", "b1", "66");
    HoverString();
  }

  lemma HoverString()
    ensures "#" + "3b" + "b1" + "66" == "#3bb166"
  {
  }

  /** The three default channels, 74, 222 and 128, darkened by 20 percent and written. */
  lemma HoverPairs()
    ensures ToHex(Scale(Some(74), 20)) == "3b"
    ensures ToHex(Scale(Some(222), 20)) == "b1"
    ensures ToHex(Scale(Some(128), 20)) == "66"
  {
    ScaledHex(74, 59, "3b");
    ScaledHex(222, 177, "b1");
    ScaledHex(128, 102, "66");
  }

  /** The darkened colour assembled from its three written channels. */
  lemma DarkenParts(hex: string, percent: int, c1: Option<int>, c3: Option<int>, c5: Option<int>,
                    a: string, b: string, c: string)
    requires Channel(hex, 1) == c1 && Channel(hex, 3) == c3 && Channel(hex, 5) == c5
    requires ToHex(Scale(c1, percent)) == a && ToHex(Scale(c3, percent)) == b && ToHex(Scale(c5, percent)) == c
    ensures DarkenColor(hex, percent) == "#" + a + b + c
  {
  }

  lemma DefaultChannels(hex: string)
    requires hex == DefaultColor
    ensures Channel(hex, 1) == Some(74) && Channel(hex, 3) == Some(222) && Channel(hex, 5) == Some(128)
  {
    assert hex[1] == '4' && hex[2] == 'a' && hex[3] == 'd' && hex[4] == 'e' && hex[5] == '8' && hex[6] == '0';
    ChannelValue(hex, 1, 74);
    ChannelValue(hex, 3, 222);
    ChannelValue(hex, 5, 128);
  }

  lemma ChannelValue(hex: string, start: nat, v: int)
    requires start + 2 <= |hex| && IsHexDigit(hex[start]) && IsHexDigit(hex[start + 1])
    requires HexDigitValue(hex[start]) * 16 + HexDigitValue(hex[start + 1]) == v
    ensures Channel(hex, start) == Some(v)
  {
    var p := hex[start..start + 2];
    assert Substring(hex, start, start + 2) == p;
    assert p[0] == hex[start] && p[1] == hex[start + 1];
    PairValue(p, v);
  }

  lemma PairValue(p: string, v: int)
    requires |p| == 2 && AllHex(p) && HexDigitValue(p[0]) * 16 + HexDigitValue(p[1]) == v
    ensures ParseInt16(p) == Some(v)
  {
    ParseOfPair(p);
    HexValueOfPair(p);
  }

  lemma ScaledHex(v: int, darker: int, s: string)
    requires 0 <= v < 256 && (v * 80) / 100 == darker
    requires s == [HexChar(darker / 16), HexChar(darker % 16)]
    ensures ToHex(Scale(Some(v), 20)) == s
  {
    assert Scale(Some(v), 20) == Some(darker);
    assert 0 <= darker < 256;
    ToHexOfByte(darker);
  }
}
