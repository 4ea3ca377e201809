/** List colours: the `#RRGGBB` pattern the strict server enforces and the
    client's `adjustColor`, which shifts all three channels of a colour by the
    same amount (used to draw the darker end of a gradient). */
module Color {

  predicate IsHexDigit(c: char) {
    '0' <= c <= '9' || 'a' <= c <= 'f' || 'A' <= c <= 'F'
  }

  predicate IsLowerHexDigit(c: char) {
    '0' <= c <= '9' || 'a' <= c <= 'f'
  }

  predicate AllHexDigits(s: string) {
    forall k :: 0 <= k < |s| ==> IsHexDigit(s[k])
  }

  /** The pattern `^#[0-9A-Fa-f]{6}$`: a `#` and exactly six hex digits of
      either case, nothing before or after. */
  predicate ValidColor(s: string) {
    |s| == 7 && s[0] == '#' && AllHexDigits(s[1..])
  }

  /** The colour newly created lists get in the numeric-id client. */
  const DefaultColor: string := "#6B46C1"

  /** Value of one hex digit, either case. */
  function DigitValue(c: char): (v: nat)
    requires IsHexDigit(c)
    ensures v < 16
  {
    if '0' <= c <= '9' then (c as int - '0' as int)
    else if 'a' <= c <= 'f' then (c as int - 'a' as int) + 10
    else (c as int - 'A' as int) + 10
  }

  /** The lower-case digit for a value below 16, as `toString(16)` writes it. */
  function HexDigit(v: nat): (c: char)
    requires v < 16
    ensures IsLowerHexDigit(c)
    ensures DigitValue(c) == v
  {
    if v < 10 then (v + '0' as int) as char else (v - 10 + 'a' as int) as char
  }

  /** The value of a string of hex digits, as `parseInt(s, 16)` computes it
      (adjustColor applies it only to two-digit strings). */
  function ParseHex(s: string): nat
    requires AllHexDigits(s)
  {
    if s == [] then 0 else 16 * ParseHex(s[..|s| - 1]) + DigitValue(s[|s| - 1])
  }

  /** The value of a two-digit hex string. */
  lemma ParsePair(d: string)
    requires |d| == 2 && AllHexDigits(d)
    ensures ParseHex(d) == 16 * DigitValue(d[0]) + DigitValue(d[1])
    ensures ParseHex(d) < 256
  {
    var p := d[..1];
    assert d[..|d| - 1] == p && p == [d[0]];
    assert ParseHex(d) == 16 * ParseHex(p) + DigitValue(d[1]);
    assert p[..|p| - 1] == [];
    assert ParseHex(p) == DigitValue(d[0]);
  }

  /** `n.toString(16)`: the canonical lower-case hex numeral of `n`. */
  function ToHexString(n: nat): (r: string)
    ensures |r| >= 1
    ensures forall k :: 0 <= k < |r| ==> IsLowerHexDigit(r[k])
    ensures AllHexDigits(r) && ParseHex(r) == n
    ensures |r| > 1 ==> r[0] != '0'
    ensures |r| == 1 <==> n < 16
    ensures 16 <= n < 256 ==> |r| == 2
  {
    if n < 16 then [HexDigit(n)]
    else
      var r := ToHexString(n / 16) + [HexDigit(n % 16)];
      assert r[..|r| - 1] == ToHexString(n / 16);
      r
  }

  /** `s.padStart(len, fill)` with a one-character fill. */
  function PadStart(s: string, len: nat, fill: char): (r: string)
    ensures |r| == if |s| >= len then |s| else len
    ensures r[|r| - |s|..] == s
    ensures forall k :: 0 <= k < |r| - |s| ==> r[k] == fill
  {
    if |s| >= len then s else seq(len - |s|, _ => fill) + s
  }

  /** A channel value as two lower-case hex digits. */
  function ToHex2(n: nat): (r: string)
    requires n < 256
    ensures |r| == 2
    ensures IsLowerHexDigit(r[0]) && IsLowerHexDigit(r[1])
    ensures AllHexDigits(r) && ParseHex(r) == n
  {
    var r := [HexDigit(n / 16), HexDigit(n % 16)];
    ParsePair(r);
    r
  }

  /** `ToHex2` is what `n.toString(16).padStart(2, '0')` produces for every
      channel value. */
  lemma ToHex2IsPaddedHexString(n: nat)
    requires n < 256
    ensures ToHex2(n) == PadStart(ToHexString(n), 2, '0')
  {
    var h := ToHexString(n);
    if n < 16 {
      assert h == [HexDigit(n)];
    } else {
      assert h == ToHexString(n / 16) + [HexDigit(n % 16)];
      assert ToHexString(n / 16) == [HexDigit(n / 16)];
    }
  }

  /** `Math.min(255, Math.max(0, x))`. */
  function Clamp(x: int): (r: int)
    ensures 0 <= r <= 255
    ensures 0 <= x <= 255 ==> r == x
    ensures x < 0 ==> r == 0
    ensures x > 255 ==> r == 255
  {
    if x < 0 then 0 else if x > 255 then 255 else x
  }

  /** `s.replace(c, '')` with a one-character string pattern: only the first
      occurrence of `c` is removed. */
  function RemoveFirst(s: string, c: char): (r: string)
    ensures c in s ==> |r| == |s| - 1
    ensures c !in s ==> r == s
    ensures s != [] && s[0] == c ==> r == s[1..]
  {
    if s == [] then []
    else if s[0] == c then s[1..]
    else [s[0]] + RemoveFirst(s[1..], c)
  }

  /** The character removed is the first occurrence of `c`: everything before
      it and everything after it is kept, in order. */
  lemma {:induction false} RemoveFirstAt(s: string, c: char, i: nat)
    requires i < |s| && s[i] == c && c !in s[..i]
    ensures RemoveFirst(s, c) == s[..i] + s[i + 1..]
  {
    if i > 0 {
      assert s[0] in s[..i];
      assert s[1..][..i - 1] == s[1..i];
      assert c !in s[1..][..i - 1];
      RemoveFirstAt(s[1..], c, i - 1);
      assert s[..i] == [s[0]] + s[1..][..i - 1];
      assert s[1..][i..] == s[i + 1..];
    }
  }

  /** Channel `ch` (0 red, 1 green, 2 blue) of a well-formed colour. */
  function Channel(color: string, ch: nat): (v: nat)
    requires ValidColor(color) && ch < 3
    ensures v < 256
  {
    var d := color[1 + 2 * ch..3 + 2 * ch];
    assert d == color[1..][2 * ch..2 * ch + 2];
    ParsePair(d);
    ParseHex(d)
  }

  /** `#` followed by the three channels, each as two lower-case digits. */
  function Compose(red: nat, green: nat, blue: nat): (r: string)
    requires red < 256 && green < 256 && blue < 256
    ensures ValidColor(r)
    ensures forall k :: 1 <= k < 7 ==> IsLowerHexDigit(r[k])
    ensures Channel(r, 0) == red && Channel(r, 1) == green && Channel(r, 2) == blue
  {
    var x, y, z := ToHex2(red), ToHex2(green), ToHex2(blue);
    var r := ['#', x[0], x[1], y[0], y[1], z[0], z[1]];
    assert r[1..3] == x && r[3..5] == y && r[5..7] == z;
    assert r[1..] == x + y + z;
    r
  }

  /** After `color.replace('#', '')` the three two-character substrings of a
      well-formed colour are its red, green and blue digits. */
  lemma HexPartChannels(color: string)
    requires ValidColor(color)
    ensures |RemoveFirst(color, '#')| == 6
    ensures AllHexDigits(RemoveFirst(color, '#'))
    ensures forall ch :: 0 <= ch < 3 ==> AllHexDigits(RemoveFirst(color, '#')[2 * ch..2 * ch + 2])
    ensures forall ch :: 0 <= ch < 3 ==> ParseHex(RemoveFirst(color, '#')[2 * ch..2 * ch + 2]) == Channel(color, ch)
  {
    var hex := RemoveFirst(color, '#');
    assert hex == color[1..];
    forall ch | 0 <= ch < 3
      ensures hex[2 * ch..2 * ch + 2] == color[1 + 2 * ch..3 + 2 * ch]
    {
    }
  }

  /** `adjustColor(color, amount)` of App.tsx and of TodoList.tsx (the two
      copies are identical): each channel is shifted by `amount`, clamped to
      0..255 and written back as two lower-case hex digits. */
  function AdjustColor(color: string, amount: int): (r: string)
    requires ValidColor(color)
    ensures ValidColor(r)
    ensures forall k :: 1 <= k < 7 ==> IsLowerHexDigit(r[k])
    ensures Channel(r, 0) == Clamp(Channel(color, 0) + amount)
    ensures Channel(r, 1) == Clamp(Channel(color, 1) + amount)
    ensures Channel(r, 2) == Clamp(Channel(color, 2) + amount)
  {
    var hex := RemoveFirst(color, '#');
    HexPartChannels(color);
    var red := ParseHex(hex[0..2]);
    var green := ParseHex(hex[2..4]);
    var blue := ParseHex(hex[4..6]);
    var r := Compose(Clamp(red + amount), Clamp(green + amount), Clamp(blue + amount));
    r
  }

  /** Lower-case form of a hex digit. */
  function LowerDigit(c: char): (d: char)
    requires IsHexDigit(c)
    ensures IsLowerHexDigit(d) && DigitValue(d) == DigitValue(c)
  {
    if 'A' <= c <= 'F' then (c as int - 'A' as int + 'a' as int) as char else c
  }

  /** A well-formed colour with its six digits lower-cased. */
  function LowerColor(color: string): (r: string)
    requires ValidColor(color)
    ensures ValidColor(r)
    ensures forall k :: 1 <= k < 7 ==> IsLowerHexDigit(r[k]) && DigitValue(r[k]) == DigitValue(color[k])
  {
    ['#'] + seq(6, k requires 0 <= k < 6 => LowerDigit(color[k + 1]))
  }

  /** Each channel is two digits, so it pins both of them down. */
  lemma ChannelDigits(color: string, ch: nat)
    requires ValidColor(color) && ch < 3
    ensures Channel(color, ch) == 16 * DigitValue(color[1 + 2 * ch]) + DigitValue(color[2 + 2 * ch])
  {
    var d := color[1 + 2 * ch..3 + 2 * ch];
    assert d == color[1..][2 * ch..2 * ch + 2];
    ParsePair(d);
  }

  /** Lower-case digits with the same value are the same character. */
  lemma LowerDigitUnique(a: char, b: char)
    requires IsLowerHexDigit(a) && IsLowerHexDigit(b) && DigitValue(a) == DigitValue(b)
    ensures a == b
  {
  }

  /** Two well-formed lower-case colours with the same three channels are the
      same string: a channel value has exactly one lower-case spelling. */
  lemma LowerColorsByChannels(x: string, y: string)
    requires ValidColor(x) && ValidColor(y)
    requires forall k :: 1 <= k < 7 ==> IsLowerHexDigit(x[k]) && IsLowerHexDigit(y[k])
    requires Channel(x, 0) == Channel(y, 0) && Channel(x, 1) == Channel(y, 1) && Channel(x, 2) == Channel(y, 2)
    ensures x == y
  {
    forall ch | 0 <= ch < 3
      ensures x[1 + 2 * ch] == y[1 + 2 * ch] && x[2 + 2 * ch] == y[2 + 2 * ch]
    {
      ChannelDigits(x, ch);
      ChannelDigits(y, ch);
      LowerDigitUnique(x[1 + 2 * ch], y[1 + 2 * ch]);
      LowerDigitUnique(x[2 + 2 * ch], y[2 + 2 * ch]);
    }
    assert forall k :: 1 <= k < 7 ==> x[k] == y[k] by {
      forall k | 1 <= k < 7 ensures x[k] == y[k] {
        var ch := (k - 1) / 2;
        assert k == 1 + 2 * ch || k == 2 + 2 * ch;
      }
    }
  }

  /** Adjusting by zero changes no channel, so it only lower-cases the digits. */
  lemma AdjustByZeroLowerCases(color: string)
    requires ValidColor(color)
    ensures AdjustColor(color, 0) == LowerColor(color)
  {
    var l := LowerColor(color);
    forall ch | 0 <= ch < 3
      ensures Channel(l, ch) == Channel(color, ch)
    {
      ChannelDigits(l, ch);
      ChannelDigits(color, ch);
    }
    LowerColorsByChannels(AdjustColor(color, 0), l);
  }

  /** Adjusting an already adjusted colour by zero gives it back unchanged. */
  lemma AdjustByZeroFixesOutput(color: string, amount: int)
    requires ValidColor(color)
    ensures AdjustColor(AdjustColor(color, amount), 0) == AdjustColor(color, amount)
  {
    var r := AdjustColor(color, amount);
    LowerColorsByChannels(AdjustColor(r, 0), r);
  }

  /** Shifting by `a` and then by `b` equals shifting by `a + b` as long as
      the first shift clamps no channel. */
  lemma AdjustColorAdditive(color: string, a: int, b: int)
    requires ValidColor(color)
    requires forall ch :: 0 <= ch < 3 ==> 0 <= Channel(color, ch) + a <= 255
    ensures AdjustColor(AdjustColor(color, a), b) == AdjustColor(color, a + b)
  {
    LowerColorsByChannels(AdjustColor(AdjustColor(color, a), b), AdjustColor(color, a + b));
  }

  /** Colours the strict server's pattern accepts, and three it refuses:
      too short, no `#`, and non-hex digits. */
  lemma ColorPatternExamples()
    ensures ValidColor(DefaultColor) && ValidColor("#8B5CF6") && ValidColor("#00ff00")
    ensures !ValidColor("#abc") && !ValidColor("abcdef") && !ValidColor("#GGGGGG")
  {
    assert !IsHexDigit("#GGGGGG"[1..][0]);
  }
}
