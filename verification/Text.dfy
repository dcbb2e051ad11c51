/** Strings as sequences of characters: the default sort order and decimal numerals. */
module Text {
  import opened Sorting

  /** Lexicographic order, as used by a sort without a comparator. */
  predicate Less(a: string, b: string) {
    b != "" && (a == "" || a[0] < b[0] || (a[0] == b[0] && Less(a[1..], b[1..])))
  }

  lemma {:induction false} LessTransitive(a: string, b: string, c: string)
    requires Less(a, b) && Less(b, c)
    ensures Less(a, c)
  {
    if a != "" && a[0] == b[0] && b[0] == c[0] { LessTransitive(a[1..], b[1..], c[1..]); }
  }

  lemma {:induction false} LessIrreflexive(a: string)
    ensures !Less(a, a)
  {
    if a != "" { LessIrreflexive(a[1..]); }
  }

  lemma {:induction false} LessTotal(a: string, b: string)
    requires a != b
    ensures Less(a, b) || Less(b, a)
  {
    if a != "" && b != "" && a[0] == b[0] {
      assert a == [a[0]] + a[1..] && b == [b[0]] + b[1..];
      LessTotal(a[1..], b[1..]);
    }
  }

  lemma LessStrict()
    ensures StrictOrder(Less)
  {
    forall x ensures !Less(x, x) { LessIrreflexive(x); }
    forall x, y, z | Less(x, y) && Less(y, z) ensures Less(x, z) { LessTransitive(x, y, z); }
    forall x, y, z | Less(x, z) ensures Less(x, y) || Less(y, z) {
      if x != y && !Less(x, y) {
        LessTotal(x, y);
        LessTransitive(y, x, z);
      }
    }
  }

  const DIGITS := "0123456789"

  function Decimal(n: nat): (s: string)
    ensures s != "" && forall c | c in s :: '0' <= c <= '9'
  {
    if n < 10 then [DIGITS[n]] else Decimal(n / 10) + [DIGITS[n % 10]]
  }

  function Value(s: string): int {
    if s == "" then 0 else 10 * Value(s[..|s| - 1]) + (s[|s| - 1] as int - '0' as int)
  }

  lemma {:induction false} DecimalValue(n: nat)
    ensures Value(Decimal(n)) == n
  {
    if n >= 10 {
      DecimalValue(n / 10);
      assert Decimal(n)[..|Decimal(n)| - 1] == Decimal(n / 10);
    }
  }

  /** Different numbers have different numerals. */
  lemma DecimalInjective(m: nat, n: nat)
    requires Decimal(m) == Decimal(n)
    ensures m == n
  {
    DecimalValue(m);
    DecimalValue(n);
  }

  /** What comes before the first `c`. */
  function Until(c: char, s: string): string {
    if s == "" || s[0] == c then "" else [s[0]] + Until(c, s[1..])
  }

  lemma {:induction false} UntilShort(c: char, s: string)
    ensures |Until(c, s)| <= |s| && c !in Until(c, s)
    ensures |Until(c, s)| == |s| ==> Until(c, s) == s
    ensures |Until(c, s)| < |s| ==> s[|Until(c, s)|] == c && s == Until(c, s) + s[|Until(c, s)|..]
  {
    if s != "" && s[0] != c { UntilShort(c, s[1..]); }
  }

  lemma {:induction false} UntilWhole(c: char, s: string)
    requires c !in s
    ensures Until(c, s) == s
  {
    if s != "" { UntilWhole(c, s[1..]); }
  }

  lemma {:induction false} UntilFound(c: char, f: string, x: string)
    requires c !in f && x != "" && x[0] == c
    ensures Until(c, f + x) == f
  {
    if f == "" {
      assert f + x == x;
    } else {
      UntilFound(c, f[1..], x);
      assert (f + x)[1..] == f[1..] + x;
    }
  }

  /** Two strings that agree up to their first `c` agree on both sides of it. */
  lemma SplitAt(c: char, f: string, x: string, f': string, x': string)
    requires c !in f && c !in f' && f + [c] + x == f' + [c] + x'
    ensures f == f' && x == x'
  {
    var s := f + [c] + x;
    assert s == f + ([c] + x) && s == f' + ([c] + x');
    UntilFound(c, f, [c] + x);
    UntilFound(c, f', [c] + x');
    assert x == s[|f| + 1..] && x' == s[|f'| + 1..];
  }

  /** The white space and line terminators of ECMAScript. */
  predicate IsSpace(c: char) {
    || c == ' ' || '\U{0009}' <= c <= '\U{000D}' || c == '\U{00A0}' || c == '\U{1680}'
    || '\U{2000}' <= c <= '\U{200A}' || c == '\U{2028}' || c == '\U{2029}' || c == '\U{202F}'
    || c == '\U{205F}' || c == '\U{3000}' || c == '\U{FEFF}'
  }

  function TrimStart(s: string): string { if s != "" && IsSpace(s[0]) then TrimStart(s[1..]) else s }

  function TrimEnd(s: string): string { if s != "" && IsSpace(s[|s| - 1]) then TrimEnd(s[..|s| - 1]) else s }

  function Trim(s: string): string { TrimEnd(TrimStart(s)) }

  lemma TrimTrailing(s: string, c: char)
    requires IsSpace(c)
    ensures Trim(s + [c]) == Trim(s)
  {
    TrimStartSnoc(s, c);
    if TrimStart(s) != "" { assert (TrimStart(s) + [c])[..|TrimStart(s)|] == TrimStart(s); }
  }

  lemma {:induction false} TrimStartSnoc(s: string, c: char)
    requires IsSpace(c)
    ensures TrimStart(s + [c]) == if TrimStart(s) == "" then "" else TrimStart(s) + [c]
  {
    if s == "" {
      assert (s + [c])[1..] == "";
    } else if IsSpace(s[0]) {
      assert (s + [c])[1..] == s[1..] + [c];
      TrimStartSnoc(s[1..], c);
    }
  }

  lemma {:induction false} TrimKeepsFirst(s: string)
    requires s != "" && !IsSpace(s[0])
    ensures TrimEnd(s) != "" && TrimEnd(s)[0] == s[0]
  {
    if IsSpace(s[|s| - 1]) { TrimKeepsFirst(s[..|s| - 1]); }
  }

  /** Text that neither begins nor ends with white space is trimmed already. */
  lemma TrimFixed(s: string)
    requires s != "" && !IsSpace(s[0]) && !IsSpace(s[|s| - 1])
    ensures Trim(s) == s
  {
  }
}
