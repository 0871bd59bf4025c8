/**
 * The integer part of the theme's colour helpers
 * (packages/gitbook/tailwind.config.ts, hexToRgb, clamp and toHex):
 * `#rrggbb` to the space-separated decimal triple CSS variables hold, and
 * integer components back to `#rrggbb`.
 */
module ColorCodec {
  import opened Wrappers
  import opened Numerals

  /** clamp(n, min = 0, max = 255): `Math.min(max, Math.max(min, n))`. */
  function Clamp(n: int, lo: int := 0, hi: int := 255): (r: int)
    ensures lo <= hi ==> lo <= r <= hi
    ensures lo <= n <= hi ==> r == n
    ensures n < lo ==> r == (if lo <= hi then lo else hi)
    ensures hi < n ==> r == hi
  {
    var m := if lo < n then n else lo;
    if m < hi then m else hi
  }

  /** Clamping twice to the same range clamps once. */
  lemma ClampIdempotent(n: int, lo: int, hi: int)
    requires lo <= hi
    ensures Clamp(Clamp(n, lo, hi), lo, hi) == Clamp(n, lo, hi)
  {
  }

  /** The characters `parseInt` skips before a number: ECMAScript white
      space and line terminators. */
  predicate IsJsSpace(c: char) {
    || c == '\t' || c == '\n' || c == '\U{000B}' || c == '\U{000C}' || c == '\r' || c == ' '
    || c == '\U{00A0}' || c == '\U{1680}' || ('\U{2000}' <= c <= '\U{200A}')
    || c == '\U{2028}' || c == '\U{2029}' || c == '\U{202F}' || c == '\U{205F}'
    || c == '\U{3000}' || c == '\U{FEFF}'
  }

  /** The string without its leading white space. */
  function TrimStart(s: string): (r: string)
    ensures r == [] || !IsJsSpace(r[0])
    ensures s != [] && !IsJsSpace(s[0]) ==> r == s
    ensures |r| <= |s| && r == s[|s| - |r|..]
    ensures forall i :: 0 <= i < |s| - |r| ==> IsJsSpace(s[i])
  {
    if s != [] && IsJsSpace(s[0]) then TrimStart(s[1..]) else s
  }

  /** The longest prefix of `s` made of hexadecimal digits. */
  function HexRun(s: string): (r: string)
    ensures r <= s && AllHex(r)
    ensures AllHex(s) ==> r == s
    ensures |r| < |s| ==> !IsHexDigit(s[|r|])
  {
    if s != [] && IsHexDigit(s[0]) then [s[0]] + HexRun(s[1..]) else []
  }

  /** parseInt(t, 16): white space skipped, an optional sign, an optional
      `0x`/`0X`, then the longest run of hexadecimal digits; None (NaN) when
      that run is empty. */
  function ParseIntHex(t: string): (r: Option<int>)
    ensures |t| > 0 && AllHex(t) ==> r == Some(HexValue(t))
  {
    var s := TrimStart(t);
    var negative := s != [] && s[0] == '-';
    var unsigned := if s != [] && (s[0] == '+' || s[0] == '-') then s[1..] else s;
    var digits :=
      if |unsigned| >= 2 && unsigned[0] == '0' && (unsigned[1] == 'x' || unsigned[1] == 'X')
      then unsigned[2..] else unsigned;
    var z := HexRun(digits);
    var magnitude: int := if z == [] then 0 else HexValue(z);
    if z == [] then None
    else Some(if negative then -magnitude else magnitude)
  }

  /** A number in a template literal: `NaN`, or its decimal digits with a
      `-` in front when negative. */
  function NumberString(x: Option<int>): (r: string)
    ensures x.Some? && x.value >= 0 ==> r == DecimalString(x.value)
  {
    match x
    case None => "NaN"
    case Some(n) => if n < 0 then "-" + DecimalString(-n) else DecimalString(n)
  }

  /** `s.replace(c, '')` with a one-character pattern: the first `c` goes. */
  function RemoveFirst(s: string, c: char): (r: string)
    ensures s != [] && s[0] == c ==> r == s[1..]
  {
    if s == [] then []
    else if s[0] == c then s[1..]
    else [s[0]] + RemoveFirst(s[1..], c)
  }

  /** `s.slice(from, to)` for 0 <= from <= to. */
  function Slice(s: string, from: nat, to: nat): (r: string)
    requires from <= to
    ensures to <= |s| ==> r == s[from..to]
  {
    if |s| <= from then [] else if |s| <= to then s[from..] else s[from..to]
  }

  /** hexToRgb: the three two-digit components of a colour as a
      space-separated string of numbers. On `#` followed by six hexadecimal
      digits these are the values of the digit pairs, each at most 255,
      in decimal. */
  function HexToRgb(hex: string): (r: string)
    ensures IsHexColor(hex) ==>
      && HexValue(hex[1..3]) <= 255 && HexValue(hex[3..5]) <= 255 && HexValue(hex[5..7]) <= 255
      && r == DecimalString(HexValue(hex[1..3])) + " "
            + DecimalString(HexValue(hex[3..5])) + " "
            + DecimalString(HexValue(hex[5..7]))
  {
    var s := RemoveFirst(hex, '#');
    assert IsHexColor(hex) ==>
      && HexValue(hex[1..3]) <= 255 && HexValue(hex[3..5]) <= 255 && HexValue(hex[5..7]) <= 255
      && Slice(s, 0, 2) == hex[1..3] && Slice(s, 2, 4) == hex[3..5] && Slice(s, 4, 6) == hex[5..7]
    by {
      if IsHexColor(hex) {
        ColorPairs(hex);
      }
    }
    NumberString(ParseIntHex(Slice(s, 0, 2))) + " "
      + NumberString(ParseIntHex(Slice(s, 2, 4))) + " "
      + NumberString(ParseIntHex(Slice(s, 4, 6)))
  }

  /** The three digit pairs hexToRgb cuts out of `#` and six hexadecimal
      digits, each denoting at most 255. */
  lemma ColorPairs(hex: string)
    requires IsHexColor(hex)
    ensures var s := RemoveFirst(hex, '#');
      Slice(s, 0, 2) == hex[1..3] && Slice(s, 2, 4) == hex[3..5] && Slice(s, 4, 6) == hex[5..7]
    ensures AllHex(hex[1..3]) && AllHex(hex[3..5]) && AllHex(hex[5..7])
    ensures HexValue(hex[1..3]) <= 255 && HexValue(hex[3..5]) <= 255 && HexValue(hex[5..7]) <= 255
  {
    var s := hex[1..];
    assert RemoveFirst(hex, '#') == s;
    assert s[0..2] == hex[1..3] && s[2..4] == hex[3..5] && s[4..6] == hex[5..7];
    HexPairBound(hex[1..3]);
    HexPairBound(hex[3..5]);
    HexPairBound(hex[5..7]);
  }

  /** `s.padStart(2, '0')`. */
  function PadStart2(s: string): (r: string)
    ensures |s| >= 2 ==> r == s
    ensures |s| < 2 ==> |r| == 2 && r[2 - |s|..] == s
    ensures forall i :: 0 <= i < 2 - |s| ==> r[i] == '0'
  {
    if |s| >= 2 then s else seq(2 - |s|, _ => '0') + s
  }

  /** One component of toHex on an integer (where `Math.round` is the
      identity): `n.toString(16).padStart(2, '0')`. A component in 0..255
      is written as exactly two lower-case digits that read back as the
      component. */
  function HexComponent(n: int): (c: string)
    ensures 0 <= n <= 255 ==> |c| == 2 && AllLowerHex(c) && AllHex(c) && HexValue(c) == n
  {
    var c := PadStart2(if n < 0 then "-" + HexString(-n) else HexString(n));
    assert 0 <= n <= 255 ==> |c| == 2 && AllLowerHex(c) && AllHex(c) && HexValue(c) == n by {
      if 0 <= n <= 255 {
        if n < 16 {
          assert c == ['0', LowerHexDigit(n)];
        } else {
          assert HexString(n) == [LowerHexDigit(n / 16), LowerHexDigit(n % 16)];
        }
        HexPairBound(c);
      }
    }
    c
  }

  /** toHex([r, g, b]). On components in 0..255 it writes `#` and six
      lower-case digits whose pairs read back as the components. */
  function ToHex(r: int, g: int, b: int): (h: string)
    ensures 0 <= r <= 255 && 0 <= g <= 255 && 0 <= b <= 255 ==>
      && IsLowerHexColor(h) && IsHexColor(h)
      && HexValue(h[1..3]) == r && HexValue(h[3..5]) == g && HexValue(h[5..7]) == b
  {
    var h := "#" + HexComponent(r) + HexComponent(g) + HexComponent(b);
    assert 0 <= r <= 255 && 0 <= g <= 255 && 0 <= b <= 255 ==>
      && IsLowerHexColor(h) && IsHexColor(h)
      && HexValue(h[1..3]) == r && HexValue(h[3..5]) == g && HexValue(h[5..7]) == b
    by {
      if 0 <= r <= 255 && 0 <= g <= 255 && 0 <= b <= 255 {
        assert h[1..3] == HexComponent(r);
        assert h[3..5] == HexComponent(g);
        assert h[5..7] == HexComponent(b);
        assert h[1..] == HexComponent(r) + HexComponent(g) + HexComponent(b);
      }
    }
    h
  }

  /** `#` followed by six hexadecimal digits. */
  predicate IsHexColor(h: string) {
    |h| == 7 && h[0] == '#' && AllHex(h[1..])
  }

  /** `#` followed by six lower-case hexadecimal digits. */
  predicate IsLowerHexColor(h: string) {
    |h| == 7 && h[0] == '#' && AllLowerHex(h[1..])
  }

  /** Two lower-case digits are written back unchanged by HexComponent. */
  lemma {:induction false} HexComponentOfDigits(p: string)
    requires |p| == 2 && AllLowerHex(p)
    ensures AllHex(p) && HexComponent(HexValue(p)) == p
  {
    HexPairBound(p);
    var v := HexValue(p);
    var d0, d1 := HexDigitValue(p[0]), HexDigitValue(p[1]);
    LowerHexDigitOf(p[0]);
    LowerHexDigitOf(p[1]);
    if d0 == 0 {
      assert HexString(v) == [p[1]];
      assert HexComponent(v) == ['0', p[1]];
    } else {
      assert v / 16 == d0 && v % 16 == d1;
      assert HexString(v) == [p[0], p[1]];
    }
    assert p == [p[0], p[1]];
  }

  /** A lower-case digit is the digit `toString(16)` writes for its value. */
  lemma LowerHexDigitOf(c: char)
    requires IsLowerHexDigit(c)
    ensures LowerHexDigit(HexDigitValue(c)) == c
  {
  }

  /** Encoding components in 0..255 with toHex and decoding with hexToRgb
      gives the components back as decimal numbers. */
  lemma {:induction false} RgbRoundTrip(r: int, g: int, b: int)
    requires 0 <= r <= 255 && 0 <= g <= 255 && 0 <= b <= 255
    ensures HexToRgb(ToHex(r, g, b))
         == DecimalString(r) + " " + DecimalString(g) + " " + DecimalString(b)
  {
  }

  /** Each part of a string of lower-case hexadecimal digits is one. */
  lemma LowerHexParts(a: string, b: string, c: string)
    requires AllLowerHex(a + b + c)
    ensures AllLowerHex(a) && AllLowerHex(b) && AllLowerHex(c)
  {
    var s := a + b + c;
    assert forall i :: 0 <= i < |a| ==> a[i] == s[i];
    assert forall i :: 0 <= i < |b| ==> b[i] == s[|a| + i];
    assert forall i :: 0 <= i < |c| ==> c[i] == s[|a| + |b| + i];
  }

  /** Decoding a lower-case colour's digit pairs and encoding them with
      toHex gives the colour back. */
  lemma {:induction false} HexColorRoundTrip(h: string)
    requires IsLowerHexColor(h)
    ensures IsHexColor(h)
    ensures ToHex(HexValue(h[1..3]), HexValue(h[3..5]), HexValue(h[5..7])) == h
  {
    var p1, p2, p3 := h[1..3], h[3..5], h[5..7];
    assert h == "#" + p1 + p2 + p3 && h[1..] == p1 + p2 + p3;
    LowerHexParts(p1, p2, p3);
    HexComponentOfDigits(p1);
    HexComponentOfDigits(p2);
    HexComponentOfDigits(p3);
    var v1, v2, v3 := HexValue(p1), HexValue(p2), HexValue(p3);
    calc {
      ToHex(v1, v2, v3);
      "#" + HexComponent(v1) + HexComponent(v2) + HexComponent(v3);
      "#" + p1 + p2 + p3;
    }
  }
}
