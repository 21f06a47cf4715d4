/** Decimal text of fixed width, and the lexicographic order of text by code point. */
module Text {
  predicate IsDigit(c: char) {
    '0' <= c <= '9'
  }

  predicate AllDigits(s: string) {
    forall i | 0 <= i < |s| :: IsDigit(s[i])
  }

  function Digit(d: nat): (c: char)
    requires d < 10
    ensures IsDigit(c)
  {
    (('0' as int) + d) as char
  }

  function Pow10(w: nat): (p: nat)
    ensures p > 0
  {
    if w == 0 then 1 else 10 * Pow10(w - 1)
  }

  /** `n` in exactly `w` decimal digits. */
  function Pad(n: nat, w: nat): (s: string)
    ensures |s| == w && AllDigits(s)
  {
    if w == 0 then "" else Pad(n / 10, w - 1) + [Digit(n % 10)]
  }

  /** The number that a digit string denotes. */
  function Value(s: string): nat
    requires AllDigits(s)
  {
    if s == "" then 0 else Value(s[..|s| - 1]) * 10 + (s[|s| - 1] as int - '0' as int)
  }

  lemma {:induction false} ValueOfPad(n: nat, w: nat)
    requires n < Pow10(w)
    ensures Value(Pad(n, w)) == n
  {
    if w == 0 {
    } else {
      ValueOfPad(n / 10, w - 1);
      assert Pad(n, w)[..w - 1] == Pad(n / 10, w - 1);
    }
  }

  lemma {:induction false} PadOfValue(s: string)
    requires AllDigits(s)
    ensures Pad(Value(s), |s|) == s
  {
    if s == "" {
    } else {
      PadOfValue(s[..|s| - 1]);
    }
  }

  lemma {:induction false} ValueFits(s: string)
    requires AllDigits(s)
    ensures Value(s) < Pow10(|s|)
  {
    if s == "" {
    } else {
      ValueFits(s[..|s| - 1]);
    }
  }

  /** Lexicographic order by code point. */
  predicate Before(a: string, b: string) {
    b != "" && (a == "" || a[0] < b[0] || (a[0] == b[0] && Before(a[1..], b[1..])))
  }

  lemma {:induction false} BeforeIsStrict(a: string)
    ensures !Before(a, a)
  {
    if a == "" {
    } else {
      BeforeIsStrict(a[1..]);
    }
  }

  lemma {:induction false} BeforeIsTotal(a: string, b: string)
    ensures Before(a, b) || a == b || Before(b, a)
  {
    if a != "" && b != "" && a[0] == b[0] {
      BeforeIsTotal(a[1..], b[1..]);
    }
  }

  lemma {:induction false} BeforeIsTransitive(a: string, b: string, c: string)
    requires Before(a, b) && Before(b, c)
    ensures Before(a, c)
  {
    if a != "" && a[0] == b[0] == c[0] {
      BeforeIsTransitive(a[1..], b[1..], c[1..]);
    }
  }

  /** Texts with prefixes of one length compare by their prefixes first. */
  lemma {:induction false} BeforeConcat(a: string, b: string, c: string, d: string)
    requires |a| == |b|
    ensures Before(a + c, b + d) <==> Before(a, b) || (a == b && Before(c, d))
  {
    if a == "" {
      assert a + c == c && b + d == d;
    } else {
      BeforeConcat(a[1..], b[1..], c, d);
      assert (a + c)[1..] == a[1..] + c && (b + d)[1..] == b[1..] + d;
    }
  }

  /** Equal width makes text order number order. */
  lemma {:induction false} PadOrder(m: nat, n: nat, w: nat)
    requires m < Pow10(w) && n < Pow10(w)
    ensures Before(Pad(m, w), Pad(n, w)) <==> m < n
    ensures Pad(m, w) == Pad(n, w) <==> m == n
  {
    ValueOfPad(m, w);
    ValueOfPad(n, w);
    if w == 0 {
    } else {
      PadOrder(m / 10, n / 10, w - 1);
      BeforeConcat(Pad(m / 10, w - 1), Pad(n / 10, w - 1), [Digit(m % 10)], [Digit(n % 10)]);
    }
  }

  lemma PadThenOrder(m: nat, n: nat, w: nat, s: string, t: string)
    requires m < Pow10(w) && n < Pow10(w)
    ensures Before(Pad(m, w) + s, Pad(n, w) + t) <==> m < n || (m == n && Before(s, t))
  {
    PadOrder(m, n, w);
    BeforeConcat(Pad(m, w), Pad(n, w), s, t);
  }

  lemma SameHeadOrder(c: char, s: string, t: string)
    ensures Before([c] + s, [c] + t) <==> Before(s, t)
  {
    BeforeIsStrict([c]);
    BeforeConcat([c], [c], s, t);
  }

  /** Three numbers with separators between them, such as 2026-06-20 or 09:30:00. */
  function Triple(a: nat, b: nat, c: nat, w: nat, sep: char): (s: string)
    ensures |s| == w + 6
  {
    Pad(a, w) + ([sep] + (Pad(b, 2) + ([sep] + Pad(c, 2))))
  }

  predicate TripleShaped(s: string, w: nat, sep: char) {
    && |s| == w + 6 && AllDigits(s[..w]) && s[w] == sep
    && AllDigits(s[w + 1..w + 3]) && s[w + 3] == sep && AllDigits(s[w + 4..])
  }

  lemma PartsOfJoin(p: string, q: string, r: string, sep: char)
    ensures var s := p + ([sep] + (q + ([sep] + r)));
            && s[..|p|] == p && s[|p|] == sep && s[|p| + 1..|p| + 1 + |q|] == q
            && s[|p| + 1 + |q|] == sep && s[|p| + 2 + |q|..] == r
  {
  }

  lemma TripleParts(a: nat, b: nat, c: nat, w: nat, sep: char)
    requires a < Pow10(w) && b < 100 && c < 100
    ensures var s := Triple(a, b, c, w, sep);
            && TripleShaped(s, w, sep)
            && Value(s[..w]) == a && Value(s[w + 1..w + 3]) == b && Value(s[w + 4..]) == c
  {
    PartsOfJoin(Pad(a, w), Pad(b, 2), Pad(c, 2), sep);
    assert Pow10(2) == 100;
    ValueOfPad(a, w);
    ValueOfPad(b, 2);
    ValueOfPad(c, 2);
  }

  lemma TripleOfParts(s: string, w: nat, sep: char)
    requires TripleShaped(s, w, sep)
    ensures Triple(Value(s[..w]), Value(s[w + 1..w + 3]), Value(s[w + 4..]), w, sep) == s
  {
    PadOfValue(s[..w]);
    PadOfValue(s[w + 1..w + 3]);
    PadOfValue(s[w + 4..]);
    assert s == s[..w] + ([sep] + (s[w + 1..w + 3] + ([sep] + s[w + 4..])));
  }

  /** Such texts sort number by number. */
  lemma TripleOrder(a: nat, b: nat, c: nat, a': nat, b': nat, c': nat, w: nat, sep: char)
    requires a < Pow10(w) && a' < Pow10(w) && b < 100 && b' < 100 && c < 100 && c' < 100
    ensures Before(Triple(a, b, c, w, sep), Triple(a', b', c', w, sep))
            <==> a < a' || (a == a' && (b < b' || (b == b' && c < c')))
  {
    assert Pow10(2) == 100;
    var low, low' := [sep] + Pad(c, 2), [sep] + Pad(c', 2);
    PadOrder(c, c', 2);
    SameHeadOrder(sep, Pad(c, 2), Pad(c', 2));
    PadThenOrder(b, b', 2, low, low');
    SameHeadOrder(sep, Pad(b, 2) + low, Pad(b', 2) + low');
    PadThenOrder(a, a', w, [sep] + (Pad(b, 2) + low), [sep] + (Pad(b', 2) + low'));
  }
}
