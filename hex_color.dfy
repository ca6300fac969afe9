/** Colours and the `hexToRgb` decoder shared, in identical copies, by
    src/urineColorAnalysis.js and src/UrinePhotoTester.jsx.

    `hexToRgb` removes the first "#", trims white space, doubles every
    character of a 3-character code, reads the rest with `parseInt(_, 16)` and
    takes bits 16..23, 8..15 and 0..7 of the number with `>>` and `& 255`.
    For every integer x those bits are `(x / 65536) % 256`, `(x / 256) % 256`
    and `x % 256` with floor division and a non-negative remainder, which is
    what Dafny's `/` and `%` compute for a positive divisor; a `NaN` from
    `parseInt` becomes 0 under `>>`.
 */
module HexColor {
  import opened Basics

  type Byte = x: int | 0 <= x < 256

  datatype Rgb = Rgb(r: Byte, g: Byte, b: Byte)

  /** The code points JavaScript's `trim` and `parseInt` treat as white space
      (WhiteSpace and LineTerminator). */
  predicate IsJsWhiteSpace(c: char)
  {
    c == '\t' || c == '\n' || c == '\U{B}' || c == '\U{C}' || c == '\r' || c == ' ' ||
    c == '\U{A0}' || c == '\U{1680}' || ('\U{2000}' <= c <= '\U{200A}') ||
    c == '\U{2028}' || c == '\U{2029}' || c == '\U{202F}' || c == '\U{205F}' ||
    c == '\U{3000}' || c == '\U{FEFF}'
  }

  /** `s.replace("#", "")`: a string pattern replaces its first occurrence only. */
  function RemoveFirstHash(s: string): (r: string)
    ensures '#' !in s ==> r == s
    ensures '#' in s ==> |r| == |s| - 1
    ensures forall c :: c in r ==> c in s
  {
    if s == [] then []
    else if s[0] == '#' then s[1..]
    else [s[0]] + RemoveFirstHash(s[1..])
  }

  /** `replace("#", "")` splices out the first `#`: when `s[i]` is a `#`
      and no `#` comes before it, the result is `s` without position `i`,
      every other character kept in order. */
  lemma {:induction false} RemoveFirstHashSplice(s: string, i: nat)
    requires i < |s| && s[i] == '#' && '#' !in s[..i]
    ensures RemoveFirstHash(s) == s[..i] + s[i + 1..]
  {
    if i > 0 {
      assert s[0] in s[..i];
      assert s[1..][..i - 1] == s[1..i];
      assert forall c :: c in s[1..i] ==> c in s[..i];
      RemoveFirstHashSplice(s[1..], i - 1);
      assert s[..i] == [s[0]] + s[1..][..i - 1];
      assert s[i + 1..] == s[1..][i..];
    }
  }

  function TrimStart(s: string): (r: string)
    ensures |r| <= |s|
  {
    if s != [] && IsJsWhiteSpace(s[0]) then TrimStart(s[1..]) else s
  }

  function TrimEnd(s: string): (r: string)
    ensures |r| <= |s|
  {
    if s != [] && IsJsWhiteSpace(s[|s| - 1]) then TrimEnd(s[..|s| - 1]) else s
  }

  /** `String.prototype.trim`. */
  function Trim(s: string): string
  {
    TrimEnd(TrimStart(s))
  }

  /** `h.split("").map(c => c + c).join("")`. */
  function DoubleEach(s: string): (r: string)
    ensures |r| == 2 * |s|
    ensures forall i :: 0 <= i < |r| ==> r[i] == s[i / 2]
  {
    if s == [] then [] else [s[0], s[0]] + DoubleEach(s[1..])
  }

  predicate IsHexDigit(c: char)
  {
    ('0' <= c <= '9') || ('a' <= c <= 'f') || ('A' <= c <= 'F')
  }

  function HexDigitValue(c: char): (v: nat)
    requires IsHexDigit(c)
    ensures v < 16
  {
    if '0' <= c <= '9' then c as int - '0' as int
    else if 'a' <= c <= 'f' then c as int - 'a' as int + 10
    else c as int - 'A' as int + 10
  }

  predicate AllHexDigits(s: string)
  {
    forall i :: 0 <= i < |s| ==> IsHexDigit(s[i])
  }

  /** The longest prefix of `s` made of hexadecimal digits. */
  function HexDigitPrefix(s: string): (z: string)
    ensures AllHexDigits(z) && z <= s
    ensures |z| < |s| ==> !IsHexDigit(s[|z|])
  {
    if s != [] && IsHexDigit(s[0]) then [s[0]] + HexDigitPrefix(s[1..]) else []
  }

  /** The number the digits `ds` denote in base 16. */
  function HexValue(ds: string): (v: nat)
    requires AllHexDigits(ds)
  {
    if ds == [] then 0 else HexValue(ds[..|ds| - 1]) * 16 + HexDigitValue(ds[|ds| - 1])
  }

  /** `parseInt(s, 16)`: leading white space, an optional sign, an optional
      "0x"/"0X" prefix, then the longest run of hexadecimal digits; `None`
      stands for `NaN` (no digits). */
  function ParseIntHex(s: string): (n: Option<int>)
  {
    var t := TrimStart(s);
    var negative := t != [] && t[0] == '-';
    var u := if t != [] && (t[0] == '-' || t[0] == '+') then t[1..] else t;
    var w := if |u| >= 2 && u[0] == '0' && (u[1] == 'x' || u[1] == 'X') then u[2..] else u;
    var z := HexDigitPrefix(w);
    var v: int := if z == [] then 0 else HexValue(z);
    if z == [] then None else Some(if negative then -v else v)
  }

  /** Bits 16..23, 8..15 and 0..7 of the 32-bit integer `ToInt32(x)`. */
  function Channels(x: int): Rgb
  {
    Rgb((x / 65536) % 256, (x / 256) % 256, x % 256)
  }

  /** A 3-character code with every character doubled; any other as is. */
  function Expand(h: string): string
  {
    if |h| == 3 then DoubleEach(h) else h
  }

  /** The string handed to `parseInt`. */
  function Prepare(hex: string): string
  {
    Expand(Trim(RemoveFirstHash(hex)))
  }

  /** The channels of a parsed number; `NaN` becomes 0 under `>>` and `&`,
      and every channel of 0 is 0. */
  function ChannelsOf(n: Option<int>): Rgb
  {
    if n.Some? then Channels(n.value) else Rgb(0, 0, 0)
  }

  function HexToRgb(hex: string): Rgb
  {
    ChannelsOf(ParseIntHex(Prepare(hex)))
  }

  // ---------------------------------------------------------------------
  // The "#RRGGBB" form the palettes are written in, and the round trip.

  /** The upper-case hexadecimal digit for `d`. */
  function UpperHexDigit(d: nat): (c: char)
    requires d < 16
    ensures IsHexDigit(c) && HexDigitValue(c) == d
  {
    if d < 10 then ('0' as int + d) as char else ('A' as int + d - 10) as char
  }

  /** The two upper-case hexadecimal digits of a byte. */
  function ByteToHex(x: Byte): (s: string)
    ensures |s| == 2 && AllHexDigits(s)
  {
    [UpperHexDigit(x / 16), UpperHexDigit(x % 16)]
  }

  /** "#RRGGBB" with upper-case digits. */
  function RgbToHex(c: Rgb): (s: string)
    ensures |s| == 7 && s[0] == '#' && AllHexDigits(s[1..])
  {
    "#" + ByteToHex(c.r) + ByteToHex(c.g) + ByteToHex(c.b)
  }

  lemma {:induction false} ByteToHexValue(x: Byte)
    ensures HexValue(ByteToHex(x)) == x
  {
    var s := ByteToHex(x);
    assert s[..1][..0] == [];
    assert HexValue(s[..1]) == HexDigitValue(s[0]);
    assert HexValue(s) == HexDigitValue(s[0]) * 16 + HexDigitValue(s[1]);
  }

  /** `Channels` recovers the three bytes packed into one number. */
  lemma {:induction false} ChannelsOfPacked(r: Byte, g: Byte, b: Byte)
    ensures Channels(r * 65536 + g * 256 + b) == Rgb(r, g, b)
  {
    var x := r * 65536 + g * 256 + b;
    assert x / 65536 == r;
    assert x / 256 == r * 256 + g;
    assert (r * 256 + g) % 256 == g;
    assert x % 256 == b;
  }

  lemma {:induction false} HexValueAppendByte(a: string, x: Byte)
    requires AllHexDigits(a)
    ensures AllHexDigits(a + ByteToHex(x))
    ensures HexValue(a + ByteToHex(x)) == HexValue(a) * 256 + x
  {
    var s := a + ByteToHex(x);
    var hi, lo := UpperHexDigit(x / 16), UpperHexDigit(x % 16);
    assert s[..|s| - 1] == a + [hi] && s[|s| - 1] == lo;
    assert (a + [hi])[..|a|] == a && (a + [hi])[|a|] == hi;
  }

  lemma {:induction false} TrimKeepsNonWhite(s: string)
    requires forall i :: 0 <= i < |s| ==> !IsJsWhiteSpace(s[i])
    ensures TrimStart(s) == s && Trim(s) == s
  {
  }

  lemma {:induction false} HexDigitPrefixOfDigits(s: string)
    requires AllHexDigits(s)
    ensures HexDigitPrefix(s) == s
  {
    if s != [] {
      HexDigitPrefixOfDigits(s[1..]);
      assert s == [s[0]] + s[1..];
    }
  }

  /** A plain run of hexadecimal digits (it cannot start with "0x", since 'x'
      is not a digit) parses to its value. */
  lemma {:induction false} ParseIntHexOfDigits(ds: string)
    requires ds != [] && AllHexDigits(ds)
    ensures ParseIntHex(ds) == Some(HexValue(ds))
  {
    TrimKeepsNonWhite(ds);
    HexDigitPrefixOfDigits(ds);
  }

  lemma {:induction false} PrepareOfDigits(ds: string)
    requires AllHexDigits(ds)
    ensures Prepare("#" + ds) == Expand(ds)
  {
    assert ("#" + ds)[0] == '#' && ("#" + ds)[1..] == ds;
    assert RemoveFirstHash("#" + ds) == ds;
    TrimKeepsNonWhite(ds);
  }

  lemma {:induction false} ExpandDigits(ds: string)
    requires ds != [] && AllHexDigits(ds)
    ensures Expand(ds) != [] && AllHexDigits(Expand(ds))
  {
  }

  /** "#" followed by hexadecimal digits decodes through their value (after
      doubling a 3-digit code). */
  lemma {:induction false} HexToRgbOfDigits(ds: string)
    requires ds != [] && AllHexDigits(ds)
    ensures AllHexDigits(Expand(ds)) && HexToRgb("#" + ds) == Channels(HexValue(Expand(ds)))
  {
    PrepareOfDigits(ds);
    ExpandDigits(ds);
    ParseIntHexOfDigits(Expand(ds));
  }

  /** The six digits after the "#" of `RgbToHex(c)` denote the packed value. */
  lemma {:induction false} EncodedDigits(c: Rgb) returns (ds: string)
    ensures RgbToHex(c) == "#" + ds && |ds| == 6 && AllHexDigits(ds)
    ensures HexValue(ds) == c.r * 65536 + c.g * 256 + c.b
  {
    ds := ByteToHex(c.r) + ByteToHex(c.g) + ByteToHex(c.b);
    ByteToHexValue(c.r);
    HexValueAppendByte(ByteToHex(c.r), c.g);
    HexValueAppendByte(ByteToHex(c.r) + ByteToHex(c.g), c.b);
  }

  lemma {:induction false} ChannelsOfValue(ds: string, c: Rgb)
    requires AllHexDigits(ds) && HexValue(ds) == c.r * 65536 + c.g * 256 + c.b
    ensures Channels(HexValue(ds)) == c
  {
    ChannelsOfPacked(c.r, c.g, c.b);
  }

  /** Decoding inverts the "#RRGGBB" encoding. */
  lemma {:induction false} RoundTrip(c: Rgb)
    ensures HexToRgb(RgbToHex(c)) == c
  {
    var ds := EncodedDigits(c);
    HexToRgbOfDigits(ds);
    ChannelsOfValue(ds, c);
  }

  lemma {:induction false} HexValueSnoc(s: string, d: char)
    requires AllHexDigits(s) && IsHexDigit(d)
    ensures AllHexDigits(s + [d]) && HexValue(s + [d]) == HexValue(s) * 16 + HexDigitValue(d)
  {
    assert (s + [d])[..|s|] == s;
  }

  /** The doubled digits "aabbcc" denote 17 times each digit's value, packed. */
  lemma {:induction false} DoubledDigitsValue(a: char, b: char, c: char)
    requires IsHexDigit(a) && IsHexDigit(b) && IsHexDigit(c)
    ensures AllHexDigits([a, a, b, b, c, c])
    ensures HexValue([a, a, b, b, c, c])
         == (17 * HexDigitValue(a)) * 65536 + (17 * HexDigitValue(b)) * 256 + 17 * HexDigitValue(c)
  {
    var va, vb, vc := HexDigitValue(a), HexDigitValue(b), HexDigitValue(c);
    HexValueSnoc([], a);
    assert [] + [a] == [a];
    HexValueSnoc([a], a);
    assert [a] + [a] == [a, a];
    HexValueSnoc([a, a], b);
    assert [a, a] + [b] == [a, a, b];
    HexValueSnoc([a, a, b], b);
    assert [a, a, b] + [b] == [a, a, b, b];
    HexValueSnoc([a, a, b, b], c);
    assert [a, a, b, b] + [c] == [a, a, b, b, c];
    HexValueSnoc([a, a, b, b, c], c);
    assert [a, a, b, b, c] + [c] == [a, a, b, b, c, c];
  }

  lemma {:induction false} DoubleEachValue(ds: string)
    requires |ds| == 3 && AllHexDigits(ds)
    ensures AllHexDigits(DoubleEach(ds))
    ensures HexValue(DoubleEach(ds)) == (17 * HexDigitValue(ds[0])) * 65536
                                      + (17 * HexDigitValue(ds[1])) * 256 + 17 * HexDigitValue(ds[2])
  {
    assert DoubleEach(ds) == [ds[0], ds[0], ds[1], ds[1], ds[2], ds[2]];
    DoubledDigitsValue(ds[0], ds[1], ds[2]);
  }

  /** The 3-digit form "#abc" decodes like "#aabbcc". */
  lemma {:induction false} ShortFormExpands(ds: string)
    requires |ds| == 3 && AllHexDigits(ds)
    ensures HexToRgb("#" + ds) == HexToRgb("#" + DoubleEach(ds))
  {
    HexToRgbOfDigits(ds);
    HexToRgbOfDigits(DoubleEach(ds));
    assert Expand(ds) == DoubleEach(ds) == Expand(DoubleEach(ds));
  }

  /** "#abc" decodes through the number 17 * (a * 256 + b * 16 + c). */
  lemma {:induction false} ShortFormValue(ds: string) returns (x: int)
    requires |ds| == 3 && AllHexDigits(ds)
    ensures HexToRgb("#" + ds) == Channels(x)
    ensures x == (17 * HexDigitValue(ds[0])) * 65536 + (17 * HexDigitValue(ds[1])) * 256 + 17 * HexDigitValue(ds[2])
  {
    HexToRgbOfDigits(ds);
    DoubleEachValue(ds);
    x := HexValue(DoubleEach(ds));
  }

  lemma {:induction false} ChannelsOfShortForm(ds: string, x: int)
    requires |ds| == 3 && AllHexDigits(ds)
    requires x == (17 * HexDigitValue(ds[0])) * 65536 + (17 * HexDigitValue(ds[1])) * 256 + 17 * HexDigitValue(ds[2])
    ensures Channels(x) == Rgb(17 * HexDigitValue(ds[0]), 17 * HexDigitValue(ds[1]), 17 * HexDigitValue(ds[2]))
  {
    ChannelsOfPacked(17 * HexDigitValue(ds[0]), 17 * HexDigitValue(ds[1]), 17 * HexDigitValue(ds[2]));
  }

  /** Each channel of "#abc" is its digit's value times 17. */
  lemma {:induction false} ShortFormChannels(ds: string)
    requires |ds| == 3 && AllHexDigits(ds)
    ensures HexToRgb("#" + ds).r == 17 * HexDigitValue(ds[0])
    ensures HexToRgb("#" + ds).g == 17 * HexDigitValue(ds[1])
    ensures HexToRgb("#" + ds).b == 17 * HexDigitValue(ds[2])
  {
    var x := ShortFormValue(ds);
    ChannelsOfShortForm(ds, x);
  }

  lemma {:induction false} ParseIntHexNoDigits(s: string)
    requires forall c :: c in s ==> !IsHexDigit(c)
    ensures ParseIntHex(s) == None
  {
    var t := TrimStart(s);
    TrimStartSuffix(s);
    assert forall c :: c in t ==> c in s;
  }

  /** `TrimStart` removes leading white space only: it drops a prefix of
      white space, and what is left does not start with white space. */
  lemma {:induction false} TrimStartSuffix(s: string)
    ensures TrimStart(s) == s[|s| - |TrimStart(s)|..]
    ensures forall i :: 0 <= i < |s| - |TrimStart(s)| ==> IsJsWhiteSpace(s[i])
    ensures TrimStart(s) != [] ==> !IsJsWhiteSpace(TrimStart(s)[0])
  {
    if s != [] && IsJsWhiteSpace(s[0]) {
      TrimStartSuffix(s[1..]);
      assert s[1..][|s[1..]| - |TrimStart(s[1..])|..] == s[|s| - |TrimStart(s)|..];
      forall i | 1 <= i < |s| - |TrimStart(s)|
        ensures IsJsWhiteSpace(s[i])
      {
        assert s[i] == s[1..][i - 1];
      }
    }
  }

  /** `TrimEnd` removes trailing white space only: it drops a suffix of
      white space, and what is left does not end with white space. */
  lemma {:induction false} TrimEndPrefix(s: string)
    ensures TrimEnd(s) == s[..|TrimEnd(s)|]
    ensures forall i :: |TrimEnd(s)| <= i < |s| ==> IsJsWhiteSpace(s[i])
    ensures TrimEnd(s) != [] ==> !IsJsWhiteSpace(TrimEnd(s)[|TrimEnd(s)| - 1])
  {
    if s != [] && IsJsWhiteSpace(s[|s| - 1]) {
      TrimEndPrefix(s[..|s| - 1]);
      assert s[..|s| - 1][..|TrimEnd(s)|] == s[..|TrimEnd(s)|];
      forall i | |TrimEnd(s)| <= i < |s| - 1
        ensures IsJsWhiteSpace(s[i])
      {
        assert s[i] == s[..|s| - 1][i];
      }
    }
  }

  lemma {:induction false} TrimKeepsChars(s: string)
    ensures forall c :: c in Trim(s) ==> c in s
  {
    var t := TrimStart(s);
    TrimStartSuffix(s);
    TrimEndPrefix(t);
    assert forall c :: c in t ==> c in s;
    assert forall c :: c in TrimEnd(t) ==> c in t;
  }

  lemma {:induction false} PrepareKeepsChars(hex: string)
    ensures forall c :: c in Prepare(hex) ==> c in hex
  {
    var h := Trim(RemoveFirstHash(hex));
    TrimKeepsChars(RemoveFirstHash(hex));
    assert forall c :: c in Expand(h) ==> c in h;
  }

  lemma {:induction false} NoDigitsNaN(hex: string)
    requires forall c :: c in hex ==> !IsHexDigit(c)
    ensures ParseIntHex(Prepare(hex)) == None
  {
    PrepareKeepsChars(hex);
    ParseIntHexNoDigits(Prepare(hex));
  }

  /** Without any hexadecimal digit `parseInt` gives `NaN`, and every
      channel is 0. */
  lemma {:induction false} NoDigitsIsBlack(hex: string)
    requires forall c :: c in hex ==> !IsHexDigit(c)
    ensures HexToRgb(hex) == Rgb(0, 0, 0)
  {
    NoDigitsNaN(hex);
  }
}
