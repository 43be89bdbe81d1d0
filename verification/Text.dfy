/** Identifiers as text: their order, and the decimal ordinals inside generated names. */
module Text {
  import opened Ordering

  /** Lexicographic order, the order of the program's string-keyed maps and sets. */
  predicate TextLe(a: string, b: string) {
    a == "" || (b != "" && (a[0] < b[0] || (a[0] == b[0] && TextLe(a[1..], b[1..]))))
  }

  /** The first difference of two texts. */
  ghost predicate DifferAt(a: string, b: string, i: nat) {
    i < |a| && i < |b| && a[..i] == b[..i] && a[i] != b[i]
  }

  /** A text comes before those it begins, and otherwise the first difference decides. */
  lemma {:induction false} TextLeIff(a: string, b: string)
    ensures TextLe(a, b) <==> a <= b || exists i: nat :: DifferAt(a, b, i) && a[i] < b[i]
  {
    if a != "" && b != "" && a[0] == b[0] {
      var c, d := a[1..], b[1..];
      TextLeIff(c, d);
      assert a == [a[0]] + c && b == [a[0]] + d;
      if i: nat :| DifferAt(c, d, i) && c[i] < d[i] {
        var j: nat := i + 1;
        assert a[..j] == [a[0]] + c[..i] && b[..j] == [a[0]] + d[..i];
        assert DifferAt(a, b, j) && a[j] < b[j];
      }
      if j: nat :| DifferAt(a, b, j) && a[j] < b[j] {
        var i: nat := j - 1;
        assert c[..i] == a[..j][1..] && d[..i] == b[..j][1..];
        assert DifferAt(c, d, i) && c[i] < d[i];
      }
      assert a <= b <==> c <= d;
    } else if a != "" && b != "" {
      var zero: nat := 0;
      assert DifferAt(a, b, zero);
    }
  }

  lemma {:induction false} TextLeTotal(a: string, b: string)
    ensures TextLe(a, b) || TextLe(b, a)
  {
    if a != "" && b != "" && a[0] == b[0] {
      TextLeTotal(a[1..], b[1..]);
    }
  }

  lemma {:induction false} TextLeAntisymmetric(a: string, b: string)
    requires TextLe(a, b) && TextLe(b, a)
    ensures a == b
  {
    if a != "" {
      TextLeAntisymmetric(a[1..], b[1..]);
      assert a == [a[0]] + a[1..] && b == [b[0]] + b[1..];
    }
  }

  lemma {:induction false} TextLeTransitive(a: string, b: string, c: string)
    requires TextLe(a, b) && TextLe(b, c)
    ensures TextLe(a, c)
  {
    if a != "" && a[0] == b[0] == c[0] {
      TextLeTransitive(a[1..], b[1..], c[1..]);
    }
  }

  lemma {:induction false} TextOrder()
    ensures TotalOrder(TextLe)
  {
    forall a, b ensures TextLe(a, b) || TextLe(b, a) { TextLeTotal(a, b); }
    forall a, b | TextLe(a, b) && TextLe(b, a) ensures a == b { TextLeAntisymmetric(a, b); }
    forall a, b, c | TextLe(a, b) && TextLe(b, c) ensures TextLe(a, c) { TextLeTransitive(a, b, c); }
  }

  /** The identifiers of `s` in the order an ordered set visits them. */
  function Sorted(s: set<string>): (r: seq<string>)
    ensures |r| == |s|
    ensures forall x :: x in r <==> x in s
    ensures forall i, j :: 0 <= i < j < |r| ==> r[i] != r[j] && TextLe(r[i], r[j])
  {
    TextOrder();
    Ascending(s, TextLe)
  }

  function Decimal(n: nat): (r: string)
    ensures r != "" && forall c :: c in r ==> '0' <= c <= '9'
  {
    var digit := ('0' as int + n % 10) as char;
    if n < 10 then [digit] else Decimal(n / 10) + [digit]
  }

  /** The number that decimal digits stand for. */
  ghost function ValueOf(digits: string): int {
    if digits == "" then 0 else
    var n := |digits| - 1;
    10 * ValueOf(digits[..n]) + (digits[n] as int - 48)
  }

  /** A rendering stands for its number, and has no leading zero unless it is the single digit 0. */
  lemma {:induction false} DecimalMeaning(n: nat)
    ensures ValueOf(Decimal(n)) == n
    ensures n > 0 ==> Decimal(n)[0] != '0'
    ensures n == 0 ==> Decimal(n) == "0"
  {
    var d := Decimal(n);
    if n >= 10 {
      DecimalMeaning(n / 10);
      assert d[..|d| - 1] == Decimal(n / 10);
    } else {
      assert d[..0] == "";
    }
  }

  lemma {:induction false} DecimalInjective(m: nat, n: nat)
    requires Decimal(m) == Decimal(n)
    ensures m == n
  {
    var a, b := Decimal(m), Decimal(n);
    assert a[|a| - 1] as int == '0' as int + m % 10;
    assert b[|b| - 1] as int == '0' as int + n % 10;
    if m >= 10 && n >= 10 {
      assert a[..|a| - 1] == Decimal(m / 10);
      assert b[..|b| - 1] == Decimal(n / 10);
      DecimalInjective(m / 10, n / 10);
    }
  }

  lemma {:induction false} LastDash(p: string, n: nat)
    ensures var x := p + "-" + Decimal(n);
      x[|p|] == '-' && forall i :: |p| < i < |x| ==> x[i] != '-'
  {
    var d := Decimal(n);
    var x := p + "-" + d;
    forall i | |p| < i < |x| ensures x[i] != '-' {
      assert x[i] == d[i - |p| - 1] && x[i] in d;
    }
  }

  /** Two names of the form `prefix-<ordinal>` are equal only when both parts are. */
  lemma {:induction false} NumberedNameInjective(p: string, m: nat, q: string, n: nat)
    requires p + "-" + Decimal(m) == q + "-" + Decimal(n)
    ensures p == q && m == n
  {
    LastDash(p, m);
    LastDash(q, n);
    var x := p + "-" + Decimal(m);
    assert |p| == |q|;
    assert x[..|p|] == p && (q + "-" + Decimal(n))[..|p|] == q;
    assert x[|p| + 1..] == Decimal(m) && (q + "-" + Decimal(n))[|p| + 1..] == Decimal(n);
    DecimalInjective(m, n);
  }
}
