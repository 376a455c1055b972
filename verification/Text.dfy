/** The parts of Go's strings package that the bridge uses, on ASCII text. */
module Text {
  function LowerChar(c: char): char {
    if 'A' <= c <= 'Z' then ((c as int) + 32) as char else c
  }

  function ToLower(s: string): string {
    seq(|s|, i requires 0 <= i < |s| => LowerChar(s[i]))
  }

  /** Capitals become the small letters 32 higher, everything else stays, and no capital is left. */
  lemma LowersEveryCapital(s: string)
    ensures |ToLower(s)| == |s|
    ensures forall i | 0 <= i < |s| :: 'A' <= s[i] <= 'Z' ==> ToLower(s)[i] as int == s[i] as int + 32
    ensures forall i | 0 <= i < |s| :: !('A' <= s[i] <= 'Z') ==> ToLower(s)[i] == s[i]
    ensures forall i | 0 <= i < |s| :: !('A' <= ToLower(s)[i] <= 'Z')
  {
  }

  /** The same text but for the case of letters. */
  predicate SameButCase(a: string, b: string) {
    |a| == |b| && forall i | 0 <= i < |a| :: SameLetter(a[i], b[i])
  }

  predicate SameLetter(c: char, d: char) {
    || c == d
    || ('A' <= c <= 'Z' && d as int == c as int + 32)
    || ('A' <= d <= 'Z' && c as int == d as int + 32)
  }

  lemma LowerForgetsCase(a: string, b: string)
    ensures ToLower(a) == ToLower(b) <==> SameButCase(a, b)
  {
    if ToLower(a) == ToLower(b) {
      forall i | 0 <= i < |a| ensures |a| == |b| && SameLetter(a[i], b[i]) {
        assert |ToLower(a)| == |ToLower(b)| && ToLower(a)[i] == ToLower(b)[i];
      }
    }
  }

  predicate IsDigit(c: char) {
    '0' <= c <= '9'
  }

  predicate AllDigits(s: string) {
    forall i | 0 <= i < |s| :: IsDigit(s[i])
  }

  function Decimal(n: nat): (s: string)
    ensures |s| >= 1
  {
    if n < 10 then [('0' as int + n) as char] else Decimal(n / 10) + [('0' as int + n % 10) as char]
  }

  /** %d */
  function DecimalInt(n: int): (s: string)
    ensures |s| >= 1
  {
    if n < 0 then "-" + Decimal(-n) else Decimal(n)
  }

  function DecimalValue(s: string): nat
    requires AllDigits(s)
  {
    if s == "" then 0 else 10 * DecimalValue(s[..|s| - 1]) + (s[|s| - 1] as int - '0' as int)
  }

  lemma {:induction false} DecimalRoundTrip(n: nat)
    ensures AllDigits(Decimal(n)) && DecimalValue(Decimal(n)) == n
  {
    if n < 10 {
      assert Decimal(n)[..0] == "";
    } else {
      DecimalRoundTrip(n / 10);
      assert Decimal(n)[..|Decimal(n)| - 1] == Decimal(n / 10);
    }
  }

  /** The most significant digit comes first, and a number but zero does not begin with a zero. */
  lemma DigitsInOrder(n: nat, d: nat)
    requires d < 10
    ensures Decimal(10 * n + d) == (if n == 0 then "" else Decimal(n)) + ["0123456789"[d]]
    ensures n > 0 ==> Decimal(n)[0] != '0'
  {
    NoLeadingZero(n);
  }

  lemma {:induction false} NoLeadingZero(n: nat)
    ensures n > 0 ==> Decimal(n)[0] != '0'
  {
    if n >= 10 {
      NoLeadingZero(n / 10);
    }
  }

  /** strings.Trim(s, cutset) for a single character */
  function Trim(s: string, c: char): string
    decreases |s|
  {
    if s != "" && s[0] == c then Trim(s[1..], c)
    else if s != "" && s[|s| - 1] == c then Trim(s[..|s| - 1], c)
    else s
  }

  predicate AllAre(s: string, c: char) {
    forall i | 0 <= i < |s| :: s[i] == c
  }

  /** What is cut off at either end is all c, and what is left neither begins nor ends with it. */
  lemma {:induction false} TrimIsExact(s: string, c: char) returns (front: string, back: string)
    ensures s == front + Trim(s, c) + back && AllAre(front, c) && AllAre(back, c)
    ensures var t := Trim(s, c); t == "" || (t[0] != c && t[|t| - 1] != c)
    decreases |s|
  {
    front, back := "", "";
    if s != "" && s[0] == c {
      front, back := TrimIsExact(s[1..], c);
      front := [c] + front;
    } else if s != "" && s[|s| - 1] == c {
      front, back := TrimIsExact(s[..|s| - 1], c);
      back := back + [c];
    }
  }

  /** The length of the digits at the front of s. */
  function DigitRun(s: string): (n: nat)
    ensures n <= |s| && AllDigits(s[..n])
    ensures n < |s| ==> !IsDigit(s[n])
  {
    if s != "" && IsDigit(s[0]) then
      var n := 1 + DigitRun(s[1..]);
      assert s[1..n] == s[1..][..n - 1];
      n
    else 0
  }

  lemma {:induction false} DigitRunStops(digits: string, rest: string)
    requires AllDigits(digits) && (rest == "" || !IsDigit(rest[0]))
    ensures DigitRun(digits + rest) == |digits|
  {
    if digits == "" {
      assert digits + rest == rest;
    } else {
      assert (digits + rest)[1..] == digits[1..] + rest;
      DigitRunStops(digits[1..], rest);
    }
  }
}
