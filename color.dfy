/** The integer part of src/lib/forceLightBackground.ts: `clamp` and the
    hexadecimal colour codec `hexToRgb` / `rgbToHex`. */
module Color {
  import opened Text

  /** `Math.min(max, Math.max(min, n))`. */
  function Clamp(n: real, min: real, max: real): (r: real)
    ensures min <= max ==> min <= r <= max
    ensures min <= n <= max ==> r == n
    ensures min > max ==> r == max
  {
    var low := if n < min then min else n;
    if max < low then max else low
  }

  /** An RGB triple; the codec's components are the integers 0..255. */
  datatype Rgb = Rgb(r: int, g: int, b: int)

  predicate IsByte(x: int) {
    0 <= x <= 255
  }

  predicate IsHexDigit(c: char) {
    ('0' <= c <= '9') || ('a' <= c <= 'f') || ('A' <= c <= 'F')
  }

  predicate IsHexString(s: string) {
    forall k :: 0 <= k < |s| ==> IsHexDigit(s[k])
  }

  /** The value of one hexadecimal digit, either case. */
  function DigitValue(c: char): (v: nat)
    requires IsHexDigit(c)
    ensures v < 16
  {
    if '0' <= c <= '9' then c as int - '0' as int
    else if 'a' <= c <= 'f' then c as int - 'a' as int + 10
    else c as int - 'A' as int + 10
  }

  /** The lower-case digit `Number.prototype.toString(16)` writes for `v`. */
  function DigitChar(v: nat): (c: char)
    requires v < 16
    ensures IsHexDigit(c) && !('A' <= c <= 'Z') && DigitValue(c) == v
  {
    if v < 10 then
      var c := ('0' as int + v) as char;
      assert c as int - '0' as int == v;
      c
    else
      var c := ('a' as int + v - 10) as char;
      assert 'a' <= c <= 'f' && c as int - 'a' as int + 10 == v;
      c
  }

  /** Writing a digit's value gives back the digit in lower case. */
  lemma DigitCharOfValue(c: char)
    requires IsHexDigit(c)
    ensures DigitChar(DigitValue(c)) == LowerChar(c)
  {
  }

  /** `hex.replace('#', '')`: only the first `#`, wherever it stands, is removed. */
  function StripFirstHash(s: string): (h: string)
    ensures '#' !in s ==> h == s
    ensures '#' in s ==> |h| == |s| - 1
  {
    var k := IndexOf(s, '#');
    if k == |s| then s else s[..k] + s[k + 1..]
  }

  /** When there is a `#`, the first one is removed and every other
      character is kept, in order. */
  lemma StripFirstHashRemovesFirst(s: string)
    ensures '#' in s ==> exists k :: 0 <= k < |s| && s[k] == '#' && '#' !in s[..k]
                                     && StripFirstHash(s) == s[..k] + s[k + 1..]
  {
    if '#' in s {
      var k := IndexOf(s, '#');
      assert '#' !in s[..k] by {
        forall j | 0 <= j < k ensures s[..k][j] != '#' {
          assert s[..k][j] == s[j];
        }
      }
    }
  }

  /** The 3-digit short form doubled digit by digit; anything else is kept. */
  function Expand(h: string): (full: string)
    ensures |h| == 3 ==> full == [h[0], h[0], h[1], h[1], h[2], h[2]]
    ensures |h| != 3 ==> full == h
  {
    if |h| == 3 then [h[0], h[0], h[1], h[1], h[2], h[2]] else h
  }

  /** The colours `hexToRgb` is meant for: after the first `#` is removed,
      three or six hexadecimal digits. These are what the QR route passes
      (its colour parameter is checked against that pattern, and its palette
      entries have it). */
  predicate IsHexColor(hex: string) {
    var h := StripFirstHash(hex);
    (|h| == 3 || |h| == 6) && IsHexString(h)
  }

  /** `parseInt(s, 16)` on a string of hexadecimal digits. */
  function ParseHex(s: string): nat
    requires IsHexString(s)
    decreases |s|
  {
    if s == [] then 0 else ParseHex(s[..|s| - 1]) * 16 + DigitValue(s[|s| - 1])
  }

  /** Two digits read as one byte. */
  function ByteAt(s: string, i: nat): (v: nat)
    requires i + 1 < |s| && IsHexDigit(s[i]) && IsHexDigit(s[i + 1])
    ensures v < 256
  {
    DigitValue(s[i]) * 16 + DigitValue(s[i + 1])
  }

  /** Six digits are three bytes, most significant first. */
  lemma ParseSixDigits(s: string)
    requires |s| == 6 && IsHexString(s)
    ensures ParseHex(s) == ByteAt(s, 0) * 65536 + ByteAt(s, 2) * 256 + ByteAt(s, 4)
  {
    var v := seq(6, k requires 0 <= k < 6 => DigitValue(s[k]));
    assert s[..5][..4] == s[..4] && s[..5][4] == s[4];
    assert s[..4][..3] == s[..3] && s[..4][3] == s[3];
    assert s[..3][..2] == s[..2] && s[..3][2] == s[2];
    assert s[..2][..1] == s[..1] && s[..2][1] == s[1];
    assert s[..1][..0] == [] && s[..1][0] == s[0];
    assert ParseHex(s[..1]) == v[0];
    assert ParseHex(s[..2]) == v[0] * 16 + v[1];
    assert ParseHex(s[..3]) == (v[0] * 16 + v[1]) * 16 + v[2];
    assert ParseHex(s[..4]) == ((v[0] * 16 + v[1]) * 16 + v[2]) * 16 + v[3];
    assert ParseHex(s[..5]) == (((v[0] * 16 + v[1]) * 16 + v[2]) * 16 + v[3]) * 16 + v[4];
    assert ParseHex(s) == ParseHex(s[..5]) * 16 + v[5];
  }

  /** `(num >> 16) & 255`, `(num >> 8) & 255` and `num & 255`. For six digits
      `num` is below 2^24, so the 32-bit shifts are exact integer divisions. */
  function Unpack(num: nat): (c: Rgb)
    ensures IsByte(c.r) && IsByte(c.g) && IsByte(c.b)
  {
    Rgb((num / 65536) % 256, (num / 256) % 256, num % 256)
  }

  /** Unpacking three packed bytes gives them back. */
  lemma UnpackBytes(num: nat, r: int, g: int, b: int)
    requires IsByte(r) && IsByte(g) && IsByte(b)
    requires num == r * 65536 + g * 256 + b
    ensures Unpack(num) == Rgb(r, g, b)
  {
    assert num / 65536 == r;
    assert num / 256 == r * 256 + g;
    assert (r * 256 + g) % 256 == g;
  }

  /** `hexToRgb(hex)`. */
  function HexToRgb(hex: string): (c: Rgb)
    requires IsHexColor(hex)
    ensures IsByte(c.r) && IsByte(c.g) && IsByte(c.b)
  {
    var full := Expand(StripFirstHash(hex));
    Unpack(ParseHex(full))
  }

  /** `n.toString(16)` for an integer `n`: lower-case digits, no leading zeros,
      a minus sign for negative numbers. */
  function ToHex(n: int): (s: string)
    ensures |s| >= 1
    ensures 0 <= n < 16 ==> s == [DigitChar(n)]
    ensures 16 <= n < 256 ==> s == [DigitChar(n / 16), DigitChar(n % 16)]
    decreases if n < 0 then -n + 1 else n
  {
    if n < 0 then "-" + ToHex(-n)
    else if n < 16 then [DigitChar(n)]
    else ToHex(n / 16) + [DigitChar(n % 16)]
  }

  /** `x.toString(16).padStart(2, '0')`. */
  function To2(x: int): (s: string)
    ensures IsByte(x) ==> s == [DigitChar(x / 16), DigitChar(x % 16)]
  {
    var h := ToHex(x);
    if |h| >= 2 then h else "0" + h
  }

  /** The two digits written for a byte read back as that byte. */
  lemma To2Reads(x: int)
    requires IsByte(x)
    ensures |To2(x)| == 2 && IsHexDigit(To2(x)[0]) && IsHexDigit(To2(x)[1])
    ensures ByteAt(To2(x), 0) == x
  {
  }

  /** `rgbToHex(r, g, b)`. */
  function RgbToHex(r: int, g: int, b: int): (s: string)
    ensures IsByte(r) && IsByte(g) && IsByte(b) ==>
              && |s| == 7 && s[0] == '#'
              && forall k :: 1 <= k < 7 ==> IsHexDigit(s[k]) && !('A' <= s[k] <= 'Z')
  {
    if IsByte(r) && IsByte(g) && IsByte(b) then
      LowerDigits(r, g, b);
      "#" + To2(r) + To2(g) + To2(b)
    else
      "#" + To2(r) + To2(g) + To2(b)
  }

  /** The six digits written for three bytes are lower-case hexadecimal digits. */
  lemma LowerDigits(r: int, g: int, b: int)
    requires IsByte(r) && IsByte(g) && IsByte(b)
    ensures |"#" + To2(r) + To2(g) + To2(b)| == 7
    ensures forall k :: 1 <= k < 7 ==>
              IsHexDigit(("#" + To2(r) + To2(g) + To2(b))[k]) && !('A' <= ("#" + To2(r) + To2(g) + To2(b))[k] <= 'Z')
  {
    var s := "#" + To2(r) + To2(g) + To2(b);
    assert s == ['#', DigitChar(r / 16), DigitChar(r % 16), DigitChar(g / 16), DigitChar(g % 16),
                 DigitChar(b / 16), DigitChar(b % 16)];
  }

  /** The six digits written for three bytes read back as the packed bytes. */
  lemma ParseEncoded(r: int, g: int, b: int)
    requires IsByte(r) && IsByte(g) && IsByte(b)
    ensures |To2(r) + To2(g) + To2(b)| == 6 && IsHexString(To2(r) + To2(g) + To2(b))
    ensures ParseHex(To2(r) + To2(g) + To2(b)) == r * 65536 + g * 256 + b
  {
    var d := To2(r) + To2(g) + To2(b);
    To2Reads(r);
    To2Reads(g);
    To2Reads(b);
    assert d[0] == To2(r)[0] && d[1] == To2(r)[1];
    assert d[2] == To2(g)[0] && d[3] == To2(g)[1];
    assert d[4] == To2(b)[0] && d[5] == To2(b)[1];
    ParseSixDigits(d);
  }

  /** Removing the first `#` of `#` followed by hash-free text leaves that text. */
  lemma StripLeadingHash(d: string)
    requires '#' !in d
    ensures StripFirstHash("#" + d) == d
  {
    assert IndexOf("#" + d, '#') == 0;
    assert ("#" + d)[1..] == d;
  }

  /** Decoding an encoded colour gives the colour back. */
  lemma DecodeEncode(r: int, g: int, b: int)
    requires IsByte(r) && IsByte(g) && IsByte(b)
    ensures IsHexColor(RgbToHex(r, g, b))
    ensures HexToRgb(RgbToHex(r, g, b)) == Rgb(r, g, b)
  {
    var d := To2(r) + To2(g) + To2(b);
    ParseEncoded(r, g, b);
    assert '#' !in d by {
      forall k | 0 <= k < |d| ensures d[k] != '#' {
        assert IsHexDigit(d[k]);
      }
    }
    assert RgbToHex(r, g, b) == "#" + d;
    DecodeDigits(d, r, g, b);
  }

  /** `#` and six digits that read as three packed bytes decode to those bytes. */
  lemma DecodeDigits(d: string, r: int, g: int, b: int)
    requires IsByte(r) && IsByte(g) && IsByte(b)
    requires |d| == 6 && IsHexString(d) && '#' !in d
    requires ParseHex(d) == r * 65536 + g * 256 + b
    ensures IsHexColor("#" + d)
    ensures HexToRgb("#" + d) == Rgb(r, g, b)
  {
    HexToRgbOfDigits(d);
    UnpackBytes(ParseHex(d), r, g, b);
  }

  /** A `#` and six digits decode to the unpacked value of the digits. */
  lemma HexToRgbOfDigits(d: string)
    requires |d| == 6 && IsHexString(d) && '#' !in d
    ensures IsHexColor("#" + d)
    ensures HexToRgb("#" + d) == Unpack(ParseHex(d))
  {
    StripLeadingHash(d);
    assert Expand(d) == d;
  }

  /** The two lower-case digits written for the byte that two digits read as. */
  lemma To2OfByteAt(s: string, i: nat)
    requires i + 1 < |s| && IsHexDigit(s[i]) && IsHexDigit(s[i + 1])
    ensures To2(ByteAt(s, i)) == [LowerChar(s[i]), LowerChar(s[i + 1])]
  {
    var v := ByteAt(s, i);
    assert v / 16 == DigitValue(s[i]) && v % 16 == DigitValue(s[i + 1]);
    DigitCharOfValue(s[i]);
    DigitCharOfValue(s[i + 1]);
  }

  /** A colour decodes to the three bytes its six-digit form spells. */
  lemma HexToRgbBytes(hex: string)
    requires IsHexColor(hex)
    ensures var full := Expand(StripFirstHash(hex));
            |full| == 6 && IsHexString(full) &&
            HexToRgb(hex) == Rgb(ByteAt(full, 0), ByteAt(full, 2), ByteAt(full, 4))
  {
    var full := Expand(StripFirstHash(hex));
    ParseSixDigits(full);
    UnpackBytes(ParseHex(full), ByteAt(full, 0), ByteAt(full, 2), ByteAt(full, 4));
  }

  /** Six characters lower-cased one by one. */
  lemma LowerSix(s: string)
    requires |s| == 6
    ensures Lower(s) == [LowerChar(s[0]), LowerChar(s[1])] + [LowerChar(s[2]), LowerChar(s[3])]
                        + [LowerChar(s[4]), LowerChar(s[5])]
  {
  }

  /** Encoding a decoded colour gives `#` and the six-digit form of the
      input, in lower case. */
  lemma EncodeDecode(hex: string)
    requires IsHexColor(hex)
    ensures var c := HexToRgb(hex);
            RgbToHex(c.r, c.g, c.b) == "#" + Lower(Expand(StripFirstHash(hex)))
  {
    var full := Expand(StripFirstHash(hex));
    HexToRgbBytes(hex);
    var r, g, b := ByteAt(full, 0), ByteAt(full, 2), ByteAt(full, 4);
    To2OfByteAt(full, 0);
    To2OfByteAt(full, 2);
    To2OfByteAt(full, 4);
    LowerSix(full);
  }

  /** The short form decodes like its doubled long form. */
  lemma ShortFormExpands(h: string)
    requires |h| == 3 && IsHexString(h)
    ensures IsHexColor(h) && IsHexColor(Expand(h))
    ensures HexToRgb(h) == HexToRgb(Expand(h))
  {
    assert '#' !in h;
    var full := Expand(h);
    assert '#' !in full;
  }

  /** A leading `#` makes no difference. */
  lemma HashIsOptional(h: string)
    requires (|h| == 3 || |h| == 6) && IsHexString(h)
    ensures IsHexColor(h) && IsHexColor("#" + h)
    ensures HexToRgb("#" + h) == HexToRgb(h)
  {
    assert '#' !in h;
    StripLeadingHash(h);
  }
}
