/** The string operations the activity applies to addresses: `%d` in
    String.format, String.split on "\\." and Integer.parseInt. */
module JavaText {

  /** A run of decimal digits: what `%d` prints for a non-negative int. */
  predicate IsNumeral(s: string)
  {
    |s| > 0 && forall i :: 0 <= i < |s| ==> '0' <= s[i] <= '9'
  }

  function Digit(d: nat): (c: char)
    requires d < 10
    ensures '0' <= c <= '9' && c as int - '0' as int == d
  {
    (d + '0' as int) as char
  }

  /** `%d` of a non-negative int. */
  function Decimal(n: nat): (r: string)
    ensures IsNumeral(r) && '.' !in r
    decreases n
  {
    if n < 10 then [Digit(n)] else Decimal(n / 10) + [Digit(n % 10)]
  }

  /** Integer.parseInt on a numeral: the value of its digits. */
  function ParseDecimal(s: string): nat
    requires forall i :: 0 <= i < |s| ==> '0' <= s[i] <= '9'
    decreases |s|
  {
    if |s| == 0 then 0
    else 10 * ParseDecimal(s[..|s| - 1]) + (s[|s| - 1] as int - '0' as int)
  }

  /** Parsing what `%d` printed gives the number back. */
  lemma {:induction false} ParseDecimalOfDecimal(n: nat)
    ensures ParseDecimal(Decimal(n)) == n
    decreases n
  {
    if n >= 10 {
      var s := Decimal(n);
      assert s[..|s| - 1] == Decimal(n / 10);
      ParseDecimalOfDecimal(n / 10);
    }
  }

  /** Different numbers print differently. */
  lemma DecimalInjective(m: nat, n: nat)
    requires Decimal(m) == Decimal(n)
    ensures m == n
  {
    ParseDecimalOfDecimal(m);
    ParseDecimalOfDecimal(n);
  }

  /** String.split on '.': the pieces between the dots, in order. Java's
      split also drops trailing empty pieces; the addresses split here have
      none. */
  function SplitOnDot(s: string): (r: seq<string>)
    ensures |r| >= 1
  {
    if s == [] then [[]]
    else
      var rest := SplitOnDot(s[1..]);
      if s[0] == '.' then [[]] + rest else [[s[0]] + rest[0]] + rest[1..]
  }

  /** A string without a dot is one piece. */
  lemma {:induction false} SplitNoDot(a: string)
    requires '.' !in a
    ensures SplitOnDot(a) == [a]
  {
    if a != [] {
      assert a[0] in a && [a[0]] + a[1..] == a;
      SplitNoDot(a[1..]);
    }
  }

  /** A dot splits off the piece before it. */
  lemma {:induction false} SplitJoin(a: string, b: string)
    requires '.' !in a
    ensures SplitOnDot(a + "." + b) == [a] + SplitOnDot(b)
  {
    if a == [] {
      assert (a + "." + b)[1..] == b;
    } else {
      var s := a + "." + b;
      assert s[0] == a[0] && a[0] in a && s[1..] == a[1..] + "." + b;
      assert [a[0]] + a[1..] == a;
      SplitJoin(a[1..], b);
    }
  }

  /** `%d.%d.%d.%d`, and `%s.%d.%d.%d` with a numeral for `%s`. */
  function DottedQuad(first: string, b: nat, c: nat, d: nat): string
  {
    first + "." + Decimal(b) + "." + Decimal(c) + "." + Decimal(d)
  }

  /** Splitting a dotted quad on '.' gives back its four numerals. */
  lemma SplitDottedQuad(first: string, b: nat, c: nat, d: nat)
    requires '.' !in first
    ensures SplitOnDot(DottedQuad(first, b, c, d)) == [first, Decimal(b), Decimal(c), Decimal(d)]
  {
    var s3 := Decimal(d);
    var s2 := Decimal(c) + "." + s3;
    var s1 := Decimal(b) + "." + s2;
    assert DottedQuad(first, b, c, d) == first + "." + s1;
    SplitNoDot(s3);
    SplitJoin(Decimal(c), s3);
    SplitJoin(Decimal(b), s2);
    SplitJoin(first, s1);
  }

  /** Dotted quads with the same first piece are equal only when their
      numbers are. */
  lemma DottedQuadInjective(first: string, b: nat, c: nat, d: nat, b': nat, c': nat, d': nat)
    requires '.' !in first
    requires DottedQuad(first, b, c, d) == DottedQuad(first, b', c', d')
    ensures b == b' && c == c' && d == d'
  {
    SplitDottedQuad(first, b, c, d);
    SplitDottedQuad(first, b', c', d');
    DecimalInjective(b, b');
    DecimalInjective(c, c');
    DecimalInjective(d, d');
  }
}
