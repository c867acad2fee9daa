/** The 32-bit register helpers behind the bit editors of the register view:
    reading a register value typed as hexadecimal text, flipping one bit of it and
    rendering the result as "0x" and eight upper-case hex digits, splitting it into
    bytes for the byte display, and the mapping from a button's position on screen
    to the bit number it edits.

    A 32-bit value is a `nat` below 2^32 (a `Word`). JavaScript's `^` works on the
    32-bit two's-complement pattern of its operands and `>>> 0` reads the pattern
    back as unsigned, so on words the editors' arithmetic is exactly the unsigned
    arithmetic written out here. */
module RegisterBits {
  import opened Wrappers

  // ---------------------------------------------------------------------------
  // Powers, words and bits

  function Pow2(e: nat): (p: nat)
    ensures p >= 1
  {
    if e == 0 then 1 else 2 * Pow2(e - 1)
  }

  function Pow16(w: nat): (p: nat)
    ensures p >= 1
  {
    if w == 0 then 1 else 16 * Pow16(w - 1)
  }

  /** 2^32: one more than the largest value a register holds. */
  const WordLimit: nat := 0x1_0000_0000

  predicate IsWord(n: nat) {
    n < WordLimit
  }

  /** Bit k of n, bit 0 being the least significant one. */
  function Bit(n: nat, k: nat): bool {
    if k == 0 then n % 2 == 1 else Bit(n / 2, k - 1)
  }

  /** Bitwise exclusive or of two non-negative integers. */
  function Xor(a: nat, b: nat): nat
    decreases a + b
  {
    if a == 0 && b == 0 then 0 else 2 * Xor(a / 2, b / 2) + (a % 2 + b % 2) % 2
  }

  lemma {:induction false} XorBit(a: nat, b: nat, k: nat)
    ensures Bit(Xor(a, b), k) == (Bit(a, k) != Bit(b, k))
    decreases k
  {
    var x := Xor(a, b);
    XorStep(a, b);
    if k == 0 {
      assert Bit(x, 0) == (x % 2 == 1);
    } else {
      assert Bit(x, k) == Bit(x / 2, k - 1);
      assert Bit(a, k) == Bit(a / 2, k - 1) && Bit(b, k) == Bit(b / 2, k - 1);
      XorBit(a / 2, b / 2, k - 1);
    }
  }

  lemma {:induction false} ZeroHasNoBits(k: nat)
    ensures !Bit(0, k)
  {
    if k > 0 { ZeroHasNoBits(k - 1); }
  }

  lemma {:induction false} Pow2Bit(i: nat, k: nat)
    ensures Bit(Pow2(i), k) == (i == k)
    decreases k
  {
    if k == 0 {
      if i > 0 { assert Pow2(i) == 2 * Pow2(i - 1); }
    } else if i == 0 {
      ZeroHasNoBits(k - 1);
    } else {
      Pow2Bit(i - 1, k - 1);
    }
  }

  lemma {:induction false} XorBelow(a: nat, b: nat, w: nat)
    requires a < Pow2(w) && b < Pow2(w)
    ensures Xor(a, b) < Pow2(w)
    decreases a + b
  {
    if !(a == 0 && b == 0) {
      assert w > 0;
      XorBelow(a / 2, b / 2, w - 1);
    }
  }

  lemma XorStep(a: nat, b: nat)
    ensures Xor(a, b) / 2 == Xor(a / 2, b / 2) && Xor(a, b) % 2 == (a % 2 + b % 2) % 2
  {
  }

  lemma {:induction false} XorTwice(a: nat, b: nat)
    ensures Xor(Xor(a, b), b) == a
    decreases a + b
  {
    if !(a == 0 && b == 0) {
      var x := Xor(a, b);
      var y := Xor(x, b);
      XorStep(a, b);
      XorStep(x, b);
      XorTwice(a / 2, b / 2);
      assert y / 2 == a / 2;
      ParityTwice(a % 2, b % 2);
      HalvesDetermine(y, a);
    }
  }

  lemma ParityTwice(p: nat, q: nat)
    requires p < 2 && q < 2
    ensures ((p + q) % 2 + q) % 2 == p
  {
  }

  lemma HalvesDetermine(y: nat, a: nat)
    requires y / 2 == a / 2 && y % 2 == a % 2
    ensures y == a
  {
  }

  lemma Pow2Plus8(e: nat)
    ensures Pow2(e + 8) == 256 * Pow2(e)
  {
    assert Pow2(e + 8) == 2 * Pow2(e + 7) == 4 * Pow2(e + 6) == 8 * Pow2(e + 5) == 16 * Pow2(e + 4);
    assert Pow2(e + 4) == 2 * Pow2(e + 3) == 4 * Pow2(e + 2) == 8 * Pow2(e + 1) == 16 * Pow2(e);
  }

  lemma WordLimitIsPow2()
    ensures Pow2(8) == 0x100 && Pow2(16) == 0x1_0000 && Pow2(24) == 0x100_0000
    ensures Pow2(32) == WordLimit && Pow16(8) == WordLimit
  {
    Pow2Plus8(8);
    Pow2Plus8(16);
    Pow2Plus8(24);
  }

  // ---------------------------------------------------------------------------
  // Flipping one bit: `numValue ^ (1 << bitIndex)` followed by `>>> 0`

  /** True when the editor shows bit k of n as set: `(numValue & (1 << k)) !== 0`,
      that is, when n / 2^k is odd. */
  predicate IsBitSet(n: nat, k: nat)
    requires k < 32
    ensures IsBitSet(n, k) <==> (n / Pow2(k)) % 2 == 1
  {
    BitDivMod(n, k);
    Bit(n, k)
  }

  lemma {:induction false} MulAtLeast(d: nat, k: nat)
    requires k >= 1
    ensures d * k >= d
  {
    if k > 1 {
      MulAtLeast(d, k - 1);
      assert d * k == d * (k - 1) + d;
    }
  }

  lemma QuotientAtMost(d: nat, q0: nat, r0: nat, q: nat, r: nat)
    requires d > 0 && d * q0 + r0 == d * q + r && r < d
    ensures q0 <= q
  {
    if q0 > q {
      MulAtLeast(d, q0 - q);
      assert false;
    }
  }

  /** Division has one quotient. */
  lemma DivUnique(n: nat, d: nat, q: nat, r: nat)
    requires d > 0 && n == d * q + r && r < d
    ensures n / d == q
  {
    QuotientAtMost(d, n / d, n % d, q, r);
    QuotientAtMost(d, q, r, n / d, n % d);
  }

  lemma HalfDiv(n: nat, p: nat)
    requires p > 0
    ensures n / 2 / p == n / (2 * p)
  {
    var q := n / 2 / p;
    var r := n / 2 % p;
    assert n == (2 * p) * q + (2 * r + n % 2);
    DivUnique(n, 2 * p, q, 2 * r + n % 2);
  }

  /** Bit k of n is the parity of n / 2^k. */
  lemma {:induction false} BitDivMod(n: nat, k: nat)
    ensures Bit(n, k) == ((n / Pow2(k)) % 2 == 1)
    decreases k
  {
    if k > 0 {
      BitDivMod(n / 2, k - 1);
      HalfDiv(n, Pow2(k - 1));
    }
  }

  /** The value a bit editor produces when its button for bit i is pressed. */
  function ToggleBit(n: nat, i: nat): (r: nat)
    requires IsWord(n) && i < 32
    ensures IsWord(r)
    ensures forall j :: 0 <= j < 32 ==> (IsBitSet(r, j) <==> IsBitSet(n, j) != (j == i))
  {
    WordLimitIsPow2();
    Pow2Below(i, 32);
    XorBelow(n, Pow2(i), 32);
    XorPow2Bits(n, i);
    Xor(n, Pow2(i))
  }

  lemma {:induction false} Pow2Below(i: nat, w: nat)
    requires i < w
    ensures Pow2(i) < Pow2(w)
    decreases w
  {
    if i < w - 1 { Pow2Below(i, w - 1); }
  }

  lemma XorPow2Bits(n: nat, i: nat)
    ensures forall j :: Bit(Xor(n, Pow2(i)), j) == (Bit(n, j) != (j == i))
  {
    forall j | true
      ensures Bit(Xor(n, Pow2(i)), j) == (Bit(n, j) != (j == i))
    {
      XorBit(n, Pow2(i), j);
      Pow2Bit(i, j);
    }
  }

  /** Pressing the same bit button twice restores the value. */
  lemma ToggleBitTwice(n: nat, i: nat)
    requires IsWord(n) && i < 32
    ensures ToggleBit(ToggleBit(n, i), i) == n
  {
    XorTwice(n, Pow2(i));
  }

  // ---------------------------------------------------------------------------
  // Hexadecimal text

  const HexLower: string := "0123456789abcdef"
  const HexUpper: string := "0123456789ABCDEF"

  /** `Number.prototype.toString(16)` on a non-negative integer: the shortest
      lower-case hex rendering, "0" for zero. */
  function ToHexLower(n: nat): (s: string)
    ensures 1 <= |s|
    ensures forall k :: 0 <= k < |s| ==> s[k] in HexLower
  {
    if n < 16 then [HexLower[n]] else ToHexLower(n / 16) + [HexLower[n % 16]]
  }

  /** `String.prototype.toUpperCase` on one character, for the ASCII letters. */
  function UpperChar(c: char): (u: char)
    ensures 'a' <= c <= 'z' ==> 'A' <= u <= 'Z' && u as int == c as int - 32
    ensures !('a' <= c <= 'z') ==> u == c
  {
    if 'a' <= c <= 'z' then (c as int - 32) as char else c
  }

  /** `String.prototype.toUpperCase`: every ASCII lower-case letter becomes its
      upper-case counterpart, every other character stays. */
  function UpperCase(s: string): (r: string)
    ensures |r| == |s|
    ensures forall k :: 0 <= k < |s| ==> r[k] == UpperChar(s[k])
  {
    seq(|s|, k requires 0 <= k < |s| => UpperChar(s[k]))
  }

  lemma UpperCaseIdempotent(s: string)
    ensures UpperCase(UpperCase(s)) == UpperCase(s)
    ensures forall k :: 0 <= k < |s| ==> !('a' <= UpperCase(s)[k] <= 'z')
  {
  }

  /** `String.prototype.padStart(width, fill)` with a one-character fill. */
  function PadStart(s: string, width: nat, fill: char): (r: string)
    ensures |r| == if |s| >= width then |s| else width
    ensures r[|r| - |s|..] == s
    ensures forall k :: 0 <= k < |r| - |s| ==> r[k] == fill
  {
    if |s| >= width then s else seq(width - |s|, _ => fill) + s
  }

  /** The low w hex digits of n, most significant first, in upper case: the
      reference rendering the editors' text is compared against. */
  function FixedHex(n: nat, w: nat): (s: string)
    ensures |s| == w
  {
    if w == 0 then [] else FixedHex(n / 16, w - 1) + [HexUpper[n % 16]]
  }

  /** `n.toString(16).toUpperCase().padStart(w, '0')`. */
  function RenderHex(n: nat, w: nat): (r: string)
    ensures |r| == if |ToHexLower(n)| >= w then |ToHexLower(n)| else w
  {
    PadStart(UpperCase(ToHexLower(n)), w, '0')
  }

  lemma {:induction false} UpperCaseAppend(a: string, b: string)
    ensures UpperCase(a + b) == UpperCase(a) + UpperCase(b)
  {
  }

  lemma HexLowerUpper(d: nat)
    requires d < 16
    ensures UpperChar(HexLower[d]) == HexUpper[d]
  {
  }

  lemma {:induction false} ZerosAreFixedHex(w: nat)
    ensures FixedHex(0, w) == seq(w, _ => '0')
  {
    if w > 0 { ZerosAreFixedHex(w - 1); }
  }

  lemma PadStartAppend(s: string, c: char, w: nat)
    requires 1 <= w && |s| < w
    ensures PadStart(s + [c], w, '0') == PadStart(s, w - 1, '0') + [c]
  {
  }

  lemma {:induction false} UpperHexLower(n: nat)
    requires n >= 16
    ensures UpperCase(ToHexLower(n)) == UpperCase(ToHexLower(n / 16)) + [HexUpper[n % 16]]
  {
    UpperCaseAppend(ToHexLower(n / 16), [HexLower[n % 16]]);
    HexLowerUpper(n % 16);
  }

  /** The JavaScript rendering equals the fixed-width rendering whenever the
      value fits in w digits. */
  lemma {:induction false} RenderHexIsFixedHex(n: nat, w: nat)
    requires 1 <= w && n < Pow16(w)
    ensures RenderHex(n, w) == FixedHex(n, w)
    decreases w
  {
    if n < 16 {
      RenderHexDigit(n, w);
    } else {
      assert Pow16(1) == 16;
      assert w >= 2;
      Div16Below(n, w - 1);
      RenderHexIsFixedHex(n / 16, w - 1);
      assert |ToHexLower(n / 16)| < w by {
        assert |UpperCase(ToHexLower(n / 16))| <= |RenderHex(n / 16, w - 1)|;
      }
      RenderHexStep(n, w);
    }
  }

  lemma Div16Below(n: nat, w: nat)
    requires n < Pow16(w + 1)
    ensures n / 16 < Pow16(w)
  {
    assert Pow16(w + 1) == 16 * Pow16(w);
  }

  lemma RenderHexDigit(n: nat, w: nat)
    requires 1 <= w && n < 16
    ensures RenderHex(n, w) == FixedHex(n, w)
  {
    HexLowerUpper(n);
    ZerosAreFixedHex(w - 1);
    assert n / 16 == 0 && n % 16 == n;
    assert UpperCase(ToHexLower(n)) == [HexUpper[n]];
    PadStartAppend([], HexUpper[n], w);
  }

  /** Rendering to w places is rendering the upper digits to w - 1 places and
      appending the last digit, once there is room. */
  lemma RenderHexStep(n: nat, w: nat)
    requires 16 <= n && |ToHexLower(n / 16)| < w
    ensures RenderHex(n, w) == RenderHex(n / 16, w - 1) + [HexUpper[n % 16]]
  {
    var hi := UpperCase(ToHexLower(n / 16));
    UpperHexLower(n);
    PadStartAppend(hi, HexUpper[n % 16], w);
  }

  predicate IsHexChar(c: char) {
    '0' <= c <= '9' || 'a' <= c <= 'f' || 'A' <= c <= 'F'
  }

  predicate IsUpperHexChar(c: char) {
    '0' <= c <= '9' || 'A' <= c <= 'F'
  }

  predicate AllHex(s: string) {
    forall k :: 0 <= k < |s| ==> IsHexChar(s[k])
  }

  predicate AllUpperHex(s: string) {
    forall k :: 0 <= k < |s| ==> IsUpperHexChar(s[k])
  }

  function HexCharValue(c: char): (d: nat)
    requires IsHexChar(c)
    ensures d < 16
  {
    if '0' <= c <= '9' then c as int - '0' as int
    else if 'a' <= c <= 'f' then c as int - 'a' as int + 10
    else c as int - 'A' as int + 10
  }

  /** The value of a string of hexadecimal digits, most significant first; no
      digits at all have value 0. */
  function HexValue(digits: string): (n: nat)
    requires AllHex(digits)
    ensures n < Pow16(|digits|)
  {
    if digits == [] then 0
    else 16 * HexValue(digits[..|digits| - 1]) + HexCharValue(digits[|digits| - 1])
  }

  lemma {:induction false} FixedHexAllUpper(n: nat, w: nat)
    ensures AllUpperHex(FixedHex(n, w))
  {
    if w > 0 { FixedHexAllUpper(n / 16, w - 1); }
  }

  /** Reading back a fixed-width rendering gives the value. */
  lemma {:induction false} HexValueOfFixedHex(n: nat, w: nat)
    requires n < Pow16(w)
    ensures AllHex(FixedHex(n, w)) && HexValue(FixedHex(n, w)) == n
    decreases w
  {
    FixedHexAllUpper(n, w);
    if w > 0 {
      var s := FixedHex(n, w);
      assert s[..w - 1] == FixedHex(n / 16, w - 1);
      HexValueOfFixedHex(n / 16, w - 1);
    }
  }

  /** Rendering the value of w upper-case hex digits gives those digits back. */
  lemma {:induction false} FixedHexOfHexValue(s: string)
    requires AllUpperHex(s)
    ensures AllHex(s) && FixedHex(HexValue(s), |s|) == s
    decreases |s|
  {
    if s != [] {
      var init, last := s[..|s| - 1], s[|s| - 1];
      assert AllUpperHex(init);
      FixedHexOfHexValue(init);
      UpperDigitRoundTrip(last);
      var h, v := HexValue(init), HexCharValue(last);
      assert HexValue(s) == 16 * h + v;
      DigitDivMod(h, v);
      assert FixedHex(HexValue(s), |s|) == FixedHex(h, |init|) + [HexUpper[v]];
      assert s == init + [last];
    }
  }

  lemma UpperDigitRoundTrip(c: char)
    requires IsUpperHexChar(c)
    ensures IsHexChar(c) && HexUpper[HexCharValue(c)] == c
  {
  }

  lemma DigitDivMod(h: nat, d: nat)
    requires d < 16
    ensures (16 * h + d) / 16 == h && (16 * h + d) % 16 == d
  {
  }

  lemma {:induction false} ZeroDigits(d: string)
    requires forall k :: 0 <= k < |d| ==> d[k] == '0'
    ensures AllHex(d) && AllUpperHex(d) && HexValue(d) == 0
    decreases |d|
  {
    if d != [] { ZeroDigits(d[..|d| - 1]); }
  }

  // ---------------------------------------------------------------------------
  // Register values as text: what `parseInt(value.replace('0x', ''), 16) || 0`
  // reads, and what the editors write back

  /** `s.replace('0x', '')`: the first "0x", wherever it occurs, is removed. */
  function ReplaceFirst0x(s: string): (r: string)
    ensures StartsWith0x(s) ==> r == s[2..]
    ensures (forall k :: 0 <= k < |s| ==> s[k] != 'x') ==> r == s
    ensures |r| == |s| || |r| + 2 == |s|
  {
    if |s| < 2 then s
    else if StartsWith0x(s) then s[2..]
    else
      assert s == [s[0]] + s[1..];
      assert forall k :: 0 <= k < |s| - 1 ==> s[1..][k] == s[k + 1];
      [s[0]] + ReplaceFirst0x(s[1..])
  }

  predicate StartsWith0x(s: string) {
    |s| >= 2 && s[0] == '0' && s[1] == 'x'
  }

  /** The characters `parseInt` skips before the number: JavaScript's white
      space and line terminators. */
  predicate IsJsSpace(c: char) {
    c == '\t' || c == '\n' || c == '\U{000B}' || c == '\U{000C}' || c == '\r' || c == ' '
    || c == '\U{00A0}' || c == '\U{1680}' || ('\U{2000}' <= c <= '\U{200A}')
    || c == '\U{2028}' || c == '\U{2029}' || c == '\U{202F}' || c == '\U{205F}'
    || c == '\U{3000}' || c == '\U{FEFF}'
  }

  function TrimStart(s: string): (r: string)
    ensures |r| <= |s| && r == s[|s| - |r|..]
    ensures r == [] || !IsJsSpace(r[0])
  {
    if s != [] && IsJsSpace(s[0]) then TrimStart(s[1..]) else s
  }

  /** The longest prefix of hexadecimal digits. */
  function HexPrefix(s: string): (d: string)
    ensures |d| <= |s| && d == s[..|d|] && AllHex(d)
    ensures |d| < |s| ==> !IsHexChar(s[|d|])
  {
    if s != [] && IsHexChar(s[0]) then [s[0]] + HexPrefix(s[1..]) else []
  }

  predicate HasHexPrefix(s: string) {
    |s| >= 2 && s[0] == '0' && (s[1] == 'x' || s[1] == 'X')
  }

  /** `parseInt(s, 16)`, with None for NaN: leading white space, then an
      optional sign, then an optional "0x" or "0X", then as many hexadecimal
      digits as there are; no digit at all is NaN. */
  function ParseIntHex(s: string): (r: Option<int>)
    ensures r.None? <==> HexPrefix(SignlessBody(TrimStart(s))) == []
    ensures r.Some? ==> r.value == (if Negative(TrimStart(s)) then -1 else 1)
                                   * HexValue(HexPrefix(SignlessBody(TrimStart(s))))
  {
    var t := TrimStart(s);
    var d := HexPrefix(SignlessBody(t));
    var magnitude: int := if d == [] then 0 else HexValue(d);
    if d == [] then None
    else if Negative(t) then Some(-magnitude)
    else Some(magnitude)
  }

  predicate Negative(t: string) {
    t != [] && t[0] == '-'
  }

  /** What follows the sign and the radix prefix. */
  function SignlessBody(t: string): string {
    var u := if t != [] && (t[0] == '-' || t[0] == '+') then t[1..] else t;
    if HasHexPrefix(u) then u[2..] else u
  }

  /** `numValue`: `parseInt(value.replace('0x', ''), 16) || 0`; NaN reads as 0. */
  function NumValue(value: string): (v: int)
    ensures HexPrefix(SignlessBody(TrimStart(ReplaceFirst0x(value)))) == [] ==> v == 0
    ensures !Negative(TrimStart(ReplaceFirst0x(value))) ==> v >= 0
  {
    ParseIntHex(ReplaceFirst0x(value)).GetOr(0)
  }

  /** The 32-bit pattern that `&`, `^` and `>>>` see in `numValue`: its value
      modulo 2^32. */
  function WordOf(value: string): (n: nat)
    ensures IsWord(n)
    ensures 0 <= NumValue(value) < WordLimit ==> n == NumValue(value)
    ensures -(WordLimit as int) <= NumValue(value) < 0 ==> n == NumValue(value) + WordLimit
  {
    ModWord(NumValue(value));
    NumValue(value) % WordLimit
  }

  /** The digits of a register text that carries a "0x" or "0X" prefix or none. */
  function DigitsOf(s: string): string {
    if HasHexPrefix(s) then s[2..] else s
  }

  /** A register text as the operator is expected to type it: at most eight hex
      digits of either case, with or without a "0x" or "0X" prefix. */
  predicate WellFormedValue(s: string) {
    AllHex(DigitsOf(s)) && |DigitsOf(s)| <= 8
  }

  lemma {:induction false} HexPrefixOfDigits(d: string)
    requires AllHex(d)
    ensures HexPrefix(d) == d
    decreases |d|
  {
    if d != [] { HexPrefixOfDigits(d[1..]); }
  }

  lemma {:induction false} Pow16Monotone(v: nat, w: nat)
    requires v <= w
    ensures Pow16(v) <= Pow16(w)
    decreases w
  {
    if v < w { Pow16Monotone(v, w - 1); }
  }

  /** A well-formed text has no "x" after its prefix. */
  lemma NoXAfterPrefix(s: string)
    requires WellFormedValue(s) && !StartsWith0x(s)
    ensures forall k :: 0 <= k < |s| ==> s[k] != 'x'
  {
    var d := DigitsOf(s);
    forall k | 0 <= k < |s| ensures s[k] != 'x' {
      if HasHexPrefix(s) {
        if k >= 2 { assert s[k] == d[k - 2]; }
      } else {
        assert IsHexChar(d[k]);
      }
    }
  }

  lemma ReplacedWellFormed(s: string)
    requires WellFormedValue(s)
    ensures ReplaceFirst0x(s) == if StartsWith0x(s) then DigitsOf(s) else s
  {
    if !StartsWith0x(s) { NoXAfterPrefix(s); }
  }

  lemma PlainStart(r: string)
    requires r == [] || IsHexChar(r[0])
    ensures TrimStart(r) == r && !Negative(r)
  {
  }

  /** What `parseInt` reads the digits from, for a well-formed text, is its
      digits, without a sign. */
  lemma BodyOfWellFormed(s: string)
    requires WellFormedValue(s)
    ensures !Negative(TrimStart(ReplaceFirst0x(s)))
    ensures SignlessBody(TrimStart(ReplaceFirst0x(s))) == DigitsOf(s)
  {
    var d := DigitsOf(s);
    ReplacedWellFormed(s);
    var r := ReplaceFirst0x(s);
    if StartsWith0x(s) {
      assert r == d;
      assert r == [] || IsHexChar(r[0]);
      assert !HasHexPrefix(d) by {
        if |d| >= 2 { assert IsHexChar(d[1]); }
      }
    } else if HasHexPrefix(s) {
      assert r == s && IsHexChar(r[0]);
    } else {
      assert r == s == d;
      assert r == [] || IsHexChar(r[0]);
    }
    PlainStart(r);
  }

  lemma DigitsBelowWordLimit(d: string)
    requires AllHex(d) && |d| <= 8
    ensures HexValue(d) < WordLimit
  {
    WordLimitIsPow2();
    Pow16Monotone(|d|, 8);
  }

  lemma NumValueWellFormed(s: string)
    requires WellFormedValue(s)
    ensures NumValue(s) == HexValue(DigitsOf(s))
  {
    var d := DigitsOf(s);
    var r := ReplaceFirst0x(s);
    BodyOfWellFormed(s);
    HexPrefixOfDigits(d);
    assert HexPrefix(SignlessBody(TrimStart(r))) == d;
  }

  /** Reducing modulo 2^32 leaves a word alone and adds 2^32 to a small
      negative number. */
  lemma ModWord(x: int)
    ensures 0 <= x < WordLimit ==> x % WordLimit == x
    ensures -(WordLimit as int) <= x < 0 ==> x % WordLimit == x + WordLimit
  {
  }

  /** A well-formed text reads as the value of its digits, which is a word. */
  lemma ReadWellFormed(s: string)
    requires WellFormedValue(s)
    ensures NumValue(s) == HexValue(DigitsOf(s)) == WordOf(s)
  {
    NumValueWellFormed(s);
    DigitsBelowWordLimit(DigitsOf(s));
    assert 0 <= NumValue(s) < WordLimit;
  }

  /** `0x${(newValue >>> 0).toString(16).toUpperCase().padStart(8, '0')}`. */
  function FormatValue(n: nat): (s: string)
    requires IsWord(n)
    ensures |s| == 10 && s[..2] == "0x" && AllUpperHex(s[2..])
  {
    FormattedDigits(n);
    "0x" + RenderHex(n, 8)
  }

  lemma FormattedDigits(n: nat)
    requires IsWord(n)
    ensures RenderHex(n, 8) == FixedHex(n, 8)
    ensures var s := "0x" + RenderHex(n, 8);
      |s| == 10 && s[..2] == "0x" && s[2..] == FixedHex(n, 8) && AllUpperHex(s[2..])
  {
    WordLimitIsPow2();
    RenderHexIsFixedHex(n, 8);
    FixedHexAllUpper(n, 8);
    var s := "0x" + RenderHex(n, 8);
    assert s[2..] == FixedHex(n, 8);
  }

  /** The text written back reads as the word that was written. */
  lemma FormatReadsBack(n: nat)
    requires IsWord(n)
    ensures WellFormedValue(FormatValue(n)) && WordOf(FormatValue(n)) == n
  {
    FormatWellFormed(n);
    ReadWellFormed(FormatValue(n));
  }

  lemma FormatWellFormed(n: nat)
    requires IsWord(n)
    ensures WellFormedValue(FormatValue(n)) && HexValue(DigitsOf(FormatValue(n))) == n
  {
    var s := FormatValue(n);
    FormattedDigits(n);
    WordLimitIsPow2();
    HexValueOfFixedHex(n, 8);
    assert HasHexPrefix(s) && DigitsOf(s) == FixedHex(n, 8);
  }

  /** A register value in the editors' canonical form. */
  predicate IsCanonicalValue(s: string) {
    |s| == 10 && s[..2] == "0x" && AllUpperHex(s[2..])
  }

  /** A canonical text reads as the value of its eight digits. */
  lemma CanonicalDigits(s: string)
    requires IsCanonicalValue(s)
    ensures AllHex(s[2..]) && FixedHex(HexValue(s[2..]), 8) == s[2..]
    ensures WordOf(s) == HexValue(s[2..])
  {
    var d := s[2..];
    assert HasHexPrefix(s) && DigitsOf(s) == d;
    FixedHexOfHexValue(d);
    ReadWellFormed(s);
  }

  lemma FormatOfDigits(n: nat, d: string)
    requires IsWord(n) && FixedHex(n, 8) == d
    ensures FormatValue(n) == "0x" + d
  {
    FormattedDigits(n);
  }

  lemma FormatParseValue(s: string)
    requires IsCanonicalValue(s)
    ensures FormatValue(WordOf(s)) == s
  {
    CanonicalDigits(s);
    FormatOfDigits(WordOf(s), s[2..]);
    assert s == s[..2] + s[2..];
  }

  /** `toggleBit(bitIndex)` of the three editors: the text passed to `onChange`.
      Exactly bit i of the register's pattern differs, and the text is canonical. */
  function ToggleBitText(value: string, i: nat): (r: string)
    requires i < 32
    ensures IsCanonicalValue(r)
    ensures forall j :: 0 <= j < 32 ==>
              (IsBitSet(WordOf(r), j) <==> IsBitSet(WordOf(value), j) != (j == i))
  {
    FormatReadsBack(ToggleBit(WordOf(value), i));
    FormatValue(ToggleBit(WordOf(value), i))
  }

  /** Pressing a bit button twice gives back the register's pattern, in
      canonical form; a value already in canonical form comes back unchanged. */
  lemma ToggleBitTextTwice(value: string, i: nat)
    requires i < 32
    ensures ToggleBitText(ToggleBitText(value, i), i) == FormatValue(WordOf(value))
    ensures IsCanonicalValue(value) ==> ToggleBitText(ToggleBitText(value, i), i) == value
  {
    var w := WordOf(value);
    var t := ToggleBit(w, i);
    FormatReadsBack(t);
    ToggleBitTwice(w, i);
    assert ToggleBitText(ToggleBitText(value, i), i) == FormatValue(ToggleBit(t, i));
    if IsCanonicalValue(value) { FormatParseValue(value); }
  }

  /** `value.toUpperCase()` in `syncData`, applied to the text a bit press
      writes: the prefix becomes "0X", the eight digits stay, so the stored text
      is no longer canonical but reads as the same word. */
  lemma UpperCaseFormat(n: nat)
    requires IsWord(n)
    ensures UpperCase(FormatValue(n)) == "0X" + FixedHex(n, 8)
    ensures !IsCanonicalValue(UpperCase(FormatValue(n)))
    ensures WellFormedValue(UpperCase(FormatValue(n))) && WordOf(UpperCase(FormatValue(n))) == n
  {
    var s := FormatValue(n);
    var u := UpperCase(s);
    FormattedDigits(n);
    assert s[2..] == FixedHex(n, 8);
    forall k | 2 <= k < 10
      ensures u[k] == s[k]
    {
      assert s[k] == s[2..][k - 2] && IsUpperHexChar(s[2..][k - 2]);
    }
    assert u == "0X" + FixedHex(n, 8);
    WordLimitIsPow2();
    HexValueOfFixedHex(n, 8);
    assert HasHexPrefix(u) && DigitsOf(u) == FixedHex(n, 8);
    ReadWellFormed(u);
  }

  // ---------------------------------------------------------------------------
  // Bytes: `getByteValue(byteIndex)` of the horizontal editor

  /** `(numValue >>> (byteIndex * 8)) & 0xFF`. */
  function ByteValue(n: nat, k: nat): (b: nat)
    requires IsWord(n) && k < 4
    ensures b < 256
  {
    (n / Pow2(8 * k)) % 256
  }

  /** `byteValue.toString(16).toUpperCase().padStart(2, '0')`. */
  function ByteText(n: nat, k: nat): (s: string)
    requires IsWord(n) && k < 4
    ensures |s| == 2 && AllUpperHex(s) && HexValue(s) == ByteValue(n, k)
  {
    RenderHexIsFixedHex(ByteValue(n, k), 2);
    FixedHexAllUpper(ByteValue(n, k), 2);
    HexValueOfFixedHex(ByteValue(n, k), 2);
    RenderHex(ByteValue(n, k), 2)
  }

  lemma SplitLowByte(n: nat, w: nat)
    ensures FixedHex(n, w + 2) == FixedHex(n / 256, w) + FixedHex(n % 256, 2)
  {
    assert n / 16 / 16 == n / 256;
    assert (n % 256) / 16 % 16 == n / 16 % 16;
    assert n % 256 % 16 == n % 16;
    assert FixedHex(n, w + 2) == FixedHex(n / 16 / 16, w) + [HexUpper[n / 16 % 16]] + [HexUpper[n % 16]];
    assert FixedHex(n % 256, 2) == FixedHex((n % 256) / 16 / 16, 0)
                                   + [HexUpper[(n % 256) / 16 % 16]] + [HexUpper[n % 256 % 16]];
  }

  /** The bytes of a word, as successive divisions by 256. */
  lemma WordBytes(n: nat)
    requires IsWord(n)
    ensures ByteValue(n, 0) == n % 256 && ByteValue(n, 1) == n / 256 % 256
    ensures ByteValue(n, 2) == n / 256 / 256 % 256 && ByteValue(n, 3) == n / 256 / 256 / 256 % 256
    ensures n / 256 / 256 / 256 < 256
  {
    WordLimitIsPow2();
    var q1 := n / 256;
    var q2 := q1 / 256;
    var q3 := q2 / 256;
    assert q2 == n / 0x1_0000;
    assert q3 == n / 0x100_0000 && q3 < 256;
  }

  lemma ByteTextIsFixedHex(n: nat, k: nat)
    requires IsWord(n) && k < 4
    ensures ByteText(n, k) == FixedHex(ByteValue(n, k), 2)
  {
    RenderHexIsFixedHex(ByteValue(n, k), 2);
  }

  /** The four byte cells, shown for bytes 3, 2, 1, 0 in that order, spell the
      same eight digits as the value's "0x" rendering. */
  lemma BytesSpellValue(n: nat)
    requires IsWord(n)
    ensures ByteText(n, 3) + ByteText(n, 2) + ByteText(n, 1) + ByteText(n, 0) == FormatValue(n)[2..]
  {
    WordBytes(n);
    FixedHexBytes(n);
    ByteTextIsFixedHex(n, 0);
    ByteTextIsFixedHex(n, 1);
    ByteTextIsFixedHex(n, 2);
    ByteTextIsFixedHex(n, 3);
    FormattedDigits(n);
  }

  lemma FixedHexBytes(n: nat)
    ensures FixedHex(n, 8) == FixedHex(n / 256 / 256 / 256 % 256, 2) + FixedHex(n / 256 / 256 % 256, 2)
                              + FixedHex(n / 256 % 256, 2) + FixedHex(n % 256, 2)
  {
    var q1 := n / 256;
    var q2 := q1 / 256;
    SplitLowByte(n, 6);
    SplitLowByte(q1, 4);
    SplitLowByte(q2, 2);
    SplitLowByte(q2 / 256, 0);
  }

  /** The four bytes, weighted by their place, add up to the value. */
  lemma BytesWeighToValue(n: nat)
    requires IsWord(n)
    ensures n == ByteValue(n, 0) + 0x100 * ByteValue(n, 1)
                 + 0x1_0000 * ByteValue(n, 2) + 0x100_0000 * ByteValue(n, 3)
  {
    WordBytes(n);
  }

  // ---------------------------------------------------------------------------
  // Button positions: `actualBitIndex = (3 - byteIndex) * 8 + (7 - bitIndex)`

  /** The bit edited by the button in byte group `byteIndex` (0..3, left to right)
      at place `bitIndex` (0..7, left to right). */
  function ActualBitIndex(byteIndex: nat, bitIndex: nat): (k: nat)
    requires byteIndex < 4 && bitIndex < 8
    ensures k < 32 && k == 31 - (8 * byteIndex + bitIndex)
  {
    (3 - byteIndex) * 8 + (7 - bitIndex)
  }

  /** The group and place at which bit k is shown. */
  function DisplaySlot(k: nat): (slot: (nat, nat))
    requires k < 32
    ensures slot.0 < 4 && slot.1 < 8
  {
    (3 - k / 8, 7 - k % 8)
  }

  /** Every bit 0..31 is shown by exactly one button: the two mappings are
      inverse to each other. */
  lemma ActualBitIndexBijective()
    ensures forall g, p :: 0 <= g < 4 && 0 <= p < 8 ==> DisplaySlot(ActualBitIndex(g, p)) == (g, p)
    ensures forall k :: 0 <= k < 32 ==> ActualBitIndex(DisplaySlot(k).0, DisplaySlot(k).1) == k
  {
    forall g, p | 0 <= g < 4 && 0 <= p < 8
      ensures DisplaySlot(ActualBitIndex(g, p)) == (g, p)
    {
      assert ActualBitIndex(g, p) == 8 * (3 - g) + (7 - p);
    }
  }

  /** `isSet` of the button at place p of group g. */
  predicate BitShown(value: string, g: nat, p: nat)
    requires g < 4 && p < 8
    ensures BitShown(value, g, p) <==> IsBitSet(WordOf(value), 31 - (8 * g + p))
  {
    IsBitSet(WordOf(value), ActualBitIndex(g, p))
  }

  /** Pressing the button at place p of group g flips what that button shows
      and nothing any other button shows. */
  lemma PressFlipsOnlyItsButton(value: string, g: nat, p: nat)
    requires g < 4 && p < 8
    ensures forall g', p' :: 0 <= g' < 4 && 0 <= p' < 8 ==>
              (BitShown(ToggleBitText(value, ActualBitIndex(g, p)), g', p')
               <==> BitShown(value, g', p') != (g' == g && p' == p))
  {
    ActualBitIndexBijective();
    forall g', p' | 0 <= g' < 4 && 0 <= p' < 8
      ensures ActualBitIndex(g', p') == ActualBitIndex(g, p) <==> g' == g && p' == p
    {
      if ActualBitIndex(g', p') == ActualBitIndex(g, p) {
        assert DisplaySlot(ActualBitIndex(g', p')) == (g', p');
      }
    }
  }

  /** The bit numbers in the order the buttons appear, left to right. */
  function DisplayOrder(): (order: seq<nat>)
    ensures |order| == 32
  {
    seq(32, p requires 0 <= p < 32 => ActualBitIndex(p / 8, p % 8))
  }

  /** The buttons run from the most significant bit down to bit 0. */
  lemma DisplayOrderDescending()
    ensures forall p :: 0 <= p < 32 ==> DisplayOrder()[p] == 31 - p
    ensures forall k :: 0 <= k < 32 ==> k in DisplayOrder()
  {
    forall k | 0 <= k < 32 ensures k in DisplayOrder() {
      assert DisplayOrder()[31 - k] == k;
    }
  }
}
