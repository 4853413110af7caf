/** String operations the query layer uses: `toLowerCase` (over ASCII),
    `includes`, the decimal string of a number and the `<` order of strings
    that a comparator-less `Array.prototype.sort` uses. */
module Text {

  function LowerChar(c: char): char
  {
    if 'A' <= c <= 'Z' then (c as int + 32) as char else c
  }

  /** `s.toLowerCase()` for ASCII letters; other characters are kept. */
  function Lower(s: string): string
  {
    seq(|s|, i requires 0 <= i < |s| => LowerChar(s[i]))
  }

  /** Lower-casing twice changes nothing more than lower-casing once, and
      never empties a string. */
  lemma LowerIdempotent(s: string)
    ensures Lower(Lower(s)) == Lower(s)
    ensures |Lower(s)| == |s|
  {
  }

  /** `s.includes(t)`: `t` occurs in `s` starting at some position. */
  function Contains(s: string, t: string): bool
  {
    t <= s || (s != [] && Contains(s[1..], t))
  }

  /** `Contains` agrees with the positional reading of "occurs in". */
  lemma {:induction false} ContainsAt(s: string, t: string)
    ensures Contains(s, t) <==> exists i :: 0 <= i <= |s| && t <= s[i..]
  {
    assert s[0..] == s;
    if s != [] {
      ContainsAt(s[1..], t);
      if exists i :: 0 <= i <= |s| && t <= s[i..] {
        var i :| 0 <= i <= |s| && t <= s[i..];
        if i > 0 {
          assert s[1..][i - 1..] == s[i..];
          assert Contains(s[1..], t);
          assert Contains(s, t);
        }
      }
      if Contains(s, t) && !(t <= s) {
        var i :| 0 <= i <= |s[1..]| && t <= s[1..][i..];
        assert s[1..][i..] == s[i + 1..];
        assert 0 <= i + 1 <= |s| && t <= s[i + 1..];
      }
    }
  }

  function DigitChar(d: nat): char
    requires d < 10
  {
    ('0' as int + d) as char
  }

  /** The decimal digits of `n`, most significant first. */
  function Digits(n: nat): (r: string)
    ensures |r| >= 1
  {
    if n < 10 then [DigitChar(n)] else Digits(n / 10) + [DigitChar(n % 10)]
  }

  /** `String(n)` for an integer `n`. */
  function Decimal(n: int): string
  {
    if n < 0 then "-" + Digits(-n) else Digits(n)
  }

  /** `a < b` on strings: the first differing character decides, and a proper
      prefix comes first. */
  function LexLess(a: string, b: string): bool
  {
    if b == [] then false
    else if a == [] then true
    else a[0] < b[0] || (a[0] == b[0] && LexLess(a[1..], b[1..]))
  }

  lemma {:induction false} LexLessIrreflexive(a: string)
    ensures !LexLess(a, a)
  {
    if a != [] {
      LexLessIrreflexive(a[1..]);
    }
  }

  lemma {:induction false} LexLessTransitive(a: string, b: string, c: string)
    requires LexLess(a, b) && LexLess(b, c)
    ensures LexLess(a, c)
  {
    if a != [] && a[0] == b[0] && b[0] == c[0] {
      LexLessTransitive(a[1..], b[1..], c[1..]);
    }
  }

  /** Comparing two strings of equal length extended by one character each
      compares the prefixes first and the last characters on a tie. */
  lemma {:induction false} LexLessAppend(p: string, q: string, c: char, d: char)
    requires |p| == |q|
    ensures LexLess(p + [c], q + [d]) <==> LexLess(p, q) || (p == q && c < d)
  {
    if p != [] {
      assert (p + [c])[1..] == p[1..] + [c];
      assert (q + [d])[1..] == q[1..] + [d];
      LexLessAppend(p[1..], q[1..], c, d);
      if p[0] == q[0] && p[1..] == q[1..] {
        assert p == q;
      }
    }
  }

  lemma SingleDigit(n: nat)
    ensures |Digits(n)| == 1 <==> n < 10
  {
    if n >= 10 {
      assert |Digits(n)| == |Digits(n / 10)| + 1;
    }
  }

  /** For numbers written with the same number of digits, the string order
      is the numeric order. */
  lemma {:induction false} DigitsOrder(a: nat, b: nat)
    requires |Digits(a)| == |Digits(b)|
    ensures LexLess(Digits(a), Digits(b)) <==> a < b
    decreases a + b
  {
    SingleDigit(a);
    SingleDigit(b);
    if a >= 10 {
      DigitsOrder(a / 10, b / 10);
      DigitsOrder(b / 10, a / 10);
      LexLessAppend(Digits(a / 10), Digits(b / 10), DigitChar(a % 10), DigitChar(b % 10));
      if Digits(a / 10) == Digits(b / 10) {
        LexLessIrreflexive(Digits(a / 10));
      }
    }
  }

  /** A decimal string starts with a digit. */
  lemma {:induction false} DigitsLead(n: nat)
    ensures '0' <= Digits(n)[0] <= '9'
  {
    if n >= 10 {
      DigitsLead(n / 10);
    }
  }

  /** Four-digit numbers are written with four digits. */
  lemma FourDigits(n: nat)
    requires 1000 <= n <= 9999
    ensures |Digits(n)| == 4
  {
    assert 1 <= n / 1000 < 10;
    assert Digits(n / 100) == Digits(n / 1000) + [DigitChar(n / 100 % 10)];
  }
}
