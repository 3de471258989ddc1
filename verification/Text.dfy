/** Strings as the panel uses them: trimming, bytewise order, decimal numerals.

    Go compares strings by their UTF-8 bytes; that order is the order of the
    code points, so strings are sequences of characters here.
  */
module Text {

  datatype Option<+T> = None | Some(value: T)

  /** The characters strings.TrimSpace removes (Unicode White_Space). */
  predicate IsSpace(c: char) {
    || '\t' <= c <= '\r' || c == ' ' || c == '\U{0085}' || c == '\U{00A0}'
    || c == '\U{1680}' || '\U{2000}' <= c <= '\U{200A}' || c == '\U{2028}'
    || c == '\U{2029}' || c == '\U{202F}' || c == '\U{205F}' || c == '\U{3000}'
  }

  function TrimLeft(s: string): (t: string) {
    if s != "" && IsSpace(s[0]) then TrimLeft(s[1..]) else s
  }

  function TrimRight(s: string): (t: string) {
    if s != "" && IsSpace(s[|s| - 1]) then TrimRight(s[..|s| - 1]) else s
  }

  function TrimSpace(s: string): (t: string) {
    TrimRight(TrimLeft(s))
  }

  predicate Trimmed(s: string) {
    s == "" || (!IsSpace(s[0]) && !IsSpace(s[|s| - 1]))
  }

  lemma {:induction false} TrimRightSound(s: string)
    ensures TrimRight(s) <= s
    ensures TrimRight(s) != "" ==> !IsSpace(TrimRight(s)[|TrimRight(s)| - 1])
  {
    if s != "" && IsSpace(s[|s| - 1]) {
      TrimRightSound(s[..|s| - 1]);
    }
  }

  lemma {:induction false} TrimLeftSound(s: string)
    ensures TrimLeft(s) != "" ==> !IsSpace(TrimLeft(s)[0])
    ensures |TrimLeft(s)| <= |s| && TrimLeft(s) == s[|s| - |TrimLeft(s)|..]
  {
    if s != "" && IsSpace(s[0]) {
      TrimLeftSound(s[1..]);
    }
  }

  /** Trimming yields a trimmed contiguous part of the input, so it is idempotent. */
  lemma TrimSpaceSound(s: string)
    ensures Trimmed(TrimSpace(s))
    ensures exists i, j :: 0 <= i <= j <= |s| && TrimSpace(s) == s[i..j]
    ensures Trimmed(s) ==> TrimSpace(s) == s
  {
    var t := TrimLeft(s);
    TrimLeftSound(s);
    TrimRightSound(t);
    var i := |s| - |t|;
    var j := i + |TrimRight(t)|;
    assert s[i..j] == t[..|TrimRight(t)|];
  }

  lemma TrimmedIsFixed(s: string)
    requires Trimmed(s)
    ensures TrimSpace(s) == s
  {
    TrimSpaceSound(s);
  }

  /** Strict bytewise order. */
  predicate Less(a: string, b: string) {
    b != "" && (a == "" || a[0] < b[0] || (a[0] == b[0] && Less(a[1..], b[1..])))
  }

  lemma {:induction false} LessTrichotomy(a: string, b: string)
    ensures Less(a, b) || a == b || Less(b, a)
    ensures !(Less(a, b) && Less(b, a)) && !Less(a, a)
  {
    if a != "" {
      LessTrichotomy(a[1..], a[1..]);
      if b != "" {
        LessTrichotomy(a[1..], b[1..]);
        assert a == [a[0]] + a[1..] && b == [b[0]] + b[1..];
      }
    }
  }

  lemma {:induction false} LessTransitive(a: string, b: string, c: string)
    requires Less(a, b) && Less(b, c)
    ensures Less(a, c)
  {
    if a != "" && a[0] == b[0] == c[0] {
      LessTransitive(a[1..], b[1..], c[1..]);
    }
  }

  lemma {:induction false} LessPrefix(p: string, a: string, b: string)
    ensures Less(p + a, p + b) <==> Less(a, b)
  {
    if p == "" {
      assert p + a == a && p + b == b;
    } else {
      assert (p + a)[1..] == p[1..] + a && (p + b)[1..] == p[1..] + b;
      LessPrefix(p[1..], a, b);
    }
  }

  /** Strings of equal length are ordered by themselves before what follows them. */
  lemma {:induction false} LessSameLength(a: string, b: string, x: string, y: string)
    requires |a| == |b|
    ensures Less(a + x, b + y) <==> Less(a, b) || (a == b && Less(x, y))
  {
    if a == "" {
      assert a + x == x && b + y == y;
    } else {
      LessSameLength(a[1..], b[1..], x, y);
      assert (a + x)[1..] == a[1..] + x && (b + y)[1..] == b[1..] + y;
      assert a == [a[0]] + a[1..] && b == [b[0]] + b[1..];
    }
  }

  function Digit(d: nat): char
    requires d < 10
  {
    '0' + d as char
  }

  /** Decimal numeral of n, as strconv prints it. */
  function Decimal(n: nat): (s: string) {
    if n < 10 then [Digit(n)] else Decimal(n / 10) + [Digit(n % 10)]
  }

  /** The w lowest decimal digits of n. */
  function Digits(n: nat, w: nat): (s: string)
    ensures |s| == w
  {
    if w == 0 then "" else Digits(n / 10, w - 1) + [Digit(n % 10)]
  }

  function Pow10(w: nat): nat { if w == 0 then 1 else 10 * Pow10(w - 1) }

  /** Fixed-width numerals are ordered as the numbers they print. */
  lemma {:induction false} DigitsOrder(m: nat, n: nat, w: nat)
    requires m < Pow10(w) && n < Pow10(w)
    ensures Less(Digits(m, w), Digits(n, w)) <==> m < n
    ensures Digits(m, w) == Digits(n, w) ==> m == n
  {
    if w > 0 {
      DigitsOrder(m / 10, n / 10, w - 1);
      var a, b := Digits(m / 10, w - 1), Digits(n / 10, w - 1);
      LessSameLength(a, b, [Digit(m % 10)], [Digit(n % 10)]);
      if Digits(m, w) == Digits(n, w) {
        assert a == Digits(m, w)[..w - 1] && b == Digits(n, w)[..w - 1];
        assert Digits(m, w)[w - 1] == Digit(m % 10);
      }
    }
  }

  function Zeros(k: nat): (s: string)
    ensures |s| == k
  {
    if k == 0 then "" else "0" + Zeros(k - 1)
  }

  /** fmt.Sprintf("%04d", n): padded with zeros below 1000, never cut. */
  function Padded4(n: nat): (s: string) {
    var d := Decimal(n);
    if |d| < 4 then Zeros(4 - |d|) + d else d
  }

  lemma {:induction false} ZerosPush(k: nat, s: string)
    ensures Zeros(k) + "0" + s == Zeros(k + 1) + s
  {
    if k > 0 {
      ZerosPush(k - 1, s);
      assert Zeros(k) + "0" + s == "0" + (Zeros(k - 1) + "0" + s);
      assert Zeros(k + 1) + s == "0" + (Zeros(k) + s);
    }
  }

  /** A numeral padded to w places is the list of its w lowest digits. */
  lemma {:induction false} PaddedIsDigits(n: nat, w: nat)
    requires n < Pow10(w) && w > 0
    ensures |Decimal(n)| <= w
    ensures Zeros(w - |Decimal(n)|) + Decimal(n) == Digits(n, w)
  {
    if n >= 10 {
      PaddedIsDigits(n / 10, w - 1);
    } else if w > 1 {
      PaddedIsDigits(0, w - 1);
      ZerosPush(w - 2, Decimal(n));
    }
  }
}
