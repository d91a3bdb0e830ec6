/** Identifiers are numbered texts such as `N0000`, `N0001`, ... and lists of
    nodes are sorted by that text. Up to 10000 of them the text order is the
    creation order; from then on it is not. */
module NodeNames {
  import opened Basics

  function Digit(d: nat): char
    requires d < 10
  {
    '0' + d as char
  }

  function Decimal(n: nat): string {
    if n < 10 then [Digit(n)] else Decimal(n / 10) + [Digit(n % 10)]
  }

  function Zeros(k: nat): string {
    if k == 0 then "" else "0" + Zeros(k - 1)
  }

  /** Python's `f"N{n:04d}"`. */
  function NodeName(n: nat): string {
    var text := Decimal(n);
    "N" + (if |text| < 4 then Zeros(4 - |text|) else "") + text
  }

  /** Python's `<` on strings. */
  predicate TextBefore(a: string, b: string) {
    if b == "" then false
    else if a == "" then true
    else a[0] < b[0] || (a[0] == b[0] && TextBefore(a[1..], b[1..]))
  }

  lemma {:induction false} TextAsymmetric(a: string, b: string)
    requires TextBefore(a, b)
    ensures !TextBefore(b, a)
  {
    if a != "" && a[0] == b[0] {
      TextAsymmetric(a[1..], b[1..]);
    }
  }

  lemma {:induction false} TextNegativelyTransitive(a: string, b: string, c: string)
    requires !TextBefore(a, b) && !TextBefore(b, c)
    ensures !TextBefore(a, c)
  {
    if a != "" && b != "" && c != "" && a[0] == b[0] == c[0] {
      TextNegativelyTransitive(a[1..], b[1..], c[1..]);
    }
  }

  lemma TextAfterSameStart(c: char, a: string, b: string)
    ensures TextBefore([c] + a, [c] + b) <==> TextBefore(a, b)
  {
    assert ([c] + a)[1..] == a && ([c] + b)[1..] == b;
  }

  /** Exactly four digits below ten thousand. */
  lemma ShortName(n: nat)
    requires n < 10000
    ensures NodeName(n) == "N" + [Digit(n / 1000)] + [Digit(n / 100 % 10)] + [Digit(n / 10 % 10)] + [Digit(n % 10)]
  {
    if n < 10 {
      assert Decimal(n) == [Digit(n)];
      assert Zeros(3) == "0" + Zeros(2) && Zeros(2) == "0" + Zeros(1) && Zeros(1) == "0" + Zeros(0);
      assert Zeros(3) == "000";
    } else if n < 100 {
      assert Decimal(n) == [Digit(n / 10)] + [Digit(n % 10)];
      assert Zeros(2) == "0" + Zeros(1) && Zeros(1) == "0" + Zeros(0);
      assert Zeros(2) == "00";
    } else if n < 1000 {
      assert n / 10 / 10 == n / 100;
      assert Decimal(n / 10) == [Digit(n / 100)] + [Digit(n / 10 % 10)];
      assert Zeros(1) == "0" + Zeros(0) == "0";
    } else {
      assert n / 10 / 10 == n / 100 && n / 100 / 10 == n / 1000;
      assert Decimal(n / 100) == [Digit(n / 1000)] + [Digit(n / 100 % 10)];
      assert Decimal(n / 10) == Decimal(n / 100) + [Digit(n / 10 % 10)];
    }
  }

  lemma FourDigits(a: string, b: string)
    requires |a| == |b| == 4
    ensures TextBefore(a, b) <==>
            a[0] < b[0] || (a[0] == b[0] && (a[1] < b[1] || (a[1] == b[1] &&
            (a[2] < b[2] || (a[2] == b[2] && a[3] < b[3])))))
  {
    var a1, b1 := a[1..], b[1..];
    var a2, b2 := a1[1..], b1[1..];
    var a3, b3 := a2[1..], b2[1..];
    assert TextBefore(a3, b3) <==> a[3] < b[3];
    assert TextBefore(a2, b2) <==> a[2] < b[2] || (a[2] == b[2] && TextBefore(a3, b3));
    assert TextBefore(a1, b1) <==> a[1] < b[1] || (a[1] == b[1] && TextBefore(a2, b2));
  }

  lemma DigitOrder(a: nat, b: nat, c: nat, d: nat, a': nat, b': nat, c': nat, d': nat)
    requires a < 10 && b < 10 && c < 10 && d < 10 && a' < 10 && b' < 10 && c' < 10 && d' < 10
    ensures (a < a' || (a == a' && (b < b' || (b == b' && (c < c' || (c == c' && d < d'))))))
            <==> 1000 * a + 100 * b + 10 * c + d < 1000 * a' + 100 * b' + 10 * c' + d'
  {
  }

  lemma Quotients(n: nat)
    requires n < 10000
    ensures n / 1000 < 10
    ensures n == 1000 * (n / 1000) + 100 * (n / 100 % 10) + 10 * (n / 10 % 10) + n % 10
  {
    assert n / 10 / 10 == n / 100 && n / 100 / 10 == n / 1000;
    assert n == 10 * (n / 10) + n % 10;
    assert n / 10 == 10 * (n / 100) + n / 10 % 10;
    assert n / 100 == 10 * (n / 1000) + n / 100 % 10;
  }

  lemma ShortNamesFollowNumbers(m: nat, n: nat)
    requires m < 10000 && n < 10000
    ensures TextBefore(NodeName(m), NodeName(n)) <==> m < n
  {
    ShortName(m);
    ShortName(n);
    Quotients(m);
    Quotients(n);
    var m3, m2, m1, m0 := m / 1000, m / 100 % 10, m / 10 % 10, m % 10;
    var n3, n2, n1, n0 := n / 1000, n / 100 % 10, n / 10 % 10, n % 10;
    DigitOrder(m3, m2, m1, m0, n3, n2, n1, n0);
    ShortTextOrder(m3, m2, m1, m0, n3, n2, n1, n0);
  }

  lemma ShortTextOrder(a: nat, b: nat, c: nat, d: nat, a': nat, b': nat, c': nat, d': nat)
    requires a < 10 && b < 10 && c < 10 && d < 10 && a' < 10 && b' < 10 && c' < 10 && d' < 10
    ensures TextBefore("N" + [Digit(a)] + [Digit(b)] + [Digit(c)] + [Digit(d)],
                       "N" + [Digit(a')] + [Digit(b')] + [Digit(c')] + [Digit(d')])
            <==> (a < a' || (a == a' && (b < b' || (b == b' && (c < c' || (c == c' && d < d'))))))
  {
    var x, y := [Digit(a), Digit(b), Digit(c), Digit(d)], [Digit(a'), Digit(b'), Digit(c'), Digit(d')];
    assert "N" + [Digit(a)] + [Digit(b)] + [Digit(c)] + [Digit(d)] == ['N'] + x;
    assert "N" + [Digit(a')] + [Digit(b')] + [Digit(c')] + [Digit(d')] == ['N'] + y;
    TextAfterSameStart('N', x, y);
    FourDigits(x, y);
  }

  /** The text order of the first `count` names is their creation order. */
  ghost predicate NamesFollowCreation(count: nat) {
    forall m, n :: 0 <= m < n < count ==> TextBefore(NodeName(m), NodeName(n))
  }

  lemma LongName()
    ensures NodeName(10000) == ['N'] + ['1', '0', '0', '0', '0']
  {
    assert Decimal(10000) == Decimal(1000) + ['0'];
    assert Decimal(1000) == Decimal(100) + ['0'];
    assert Decimal(100) == Decimal(10) + ['0'];
    assert Decimal(10) == Decimal(1) + ['0'];
  }

  /** Names from 1001 to 9999 come after the name of 10000. */
  lemma TenThousandBefore(c: nat)
    requires 1000 < c < 10000
    ensures TextBefore(NodeName(10000), NodeName(c))
  {
    ShortName(c);
    Quotients(c);
    var d3, d2, d1, d0 := c / 1000, c / 100 % 10, c / 10 % 10, c % 10;
    var rest := [Digit(d2), Digit(d1), Digit(d0)];
    assert NodeName(c) == ['N'] + ([Digit(d3)] + rest);
    LongName();
    assert ['1', '0', '0', '0', '0'] == ['1'] + ['0', '0', '0', '0'];
    TextAfterSameStart('N', ['1', '0', '0', '0', '0'], [Digit(d3)] + rest);
    if d3 == 1 {
      TextAfterSameStart('1', ['0', '0', '0', '0'], rest);
      ZerosBefore(d2, d1, d0);
    }
  }

  lemma ZerosBefore(a: nat, b: nat, c: nat)
    requires a < 10 && b < 10 && c < 10 && (a > 0 || b > 0 || c > 0)
    ensures TextBefore(['0', '0', '0', '0'], [Digit(a), Digit(b), Digit(c)])
  {
    TextAfterSameStart('0', ['0', '0', '0'], [Digit(b), Digit(c)]);
    TextAfterSameStart('0', ['0', '0'], [Digit(c)]);
    assert ['0', '0', '0', '0'] == ['0'] + ['0', '0', '0'] && ['0', '0', '0'] == ['0'] + ['0', '0'];
    assert [Digit(a), Digit(b), Digit(c)] == [Digit(a)] + [Digit(b), Digit(c)];
    assert [Digit(b), Digit(c)] == [Digit(b)] + [Digit(c)];
  }

  lemma NamesFollowCreationExactly(count: nat)
    ensures NamesFollowCreation(count) <==> count <= 10000
  {
    if count <= 10000 {
      forall m, n | 0 <= m < n < count ensures TextBefore(NodeName(m), NodeName(n)) {
        ShortNamesFollowNumbers(m, n);
      }
    } else {
      TenThousandBefore(9999);
      TextAsymmetric(NodeName(10000), NodeName(9999));
    }
  }

  /** The number a digit text stands for. */
  function Value(text: string): nat {
    if text == "" then 0
    else Value(text[..|text| - 1]) * 10 + DigitValue(text[|text| - 1])
  }

  function DigitValue(c: char): nat {
    if '0' <= c <= '9' then (c - '0') as nat else 0
  }

  lemma {:induction false} DecimalValue(n: nat)
    ensures Value(Decimal(n)) == n
  {
    if n < 10 {
      assert Value([Digit(n)][..0]) == 0;
    } else {
      DecimalValue(n / 10);
      var text := Decimal(n);
      assert text[..|text| - 1] == Decimal(n / 10);
    }
  }

  lemma {:induction false} LeadingZeros(k: nat, text: string)
    ensures Value(Zeros(k) + text) == Value(text)
  {
    if text == "" {
      assert Zeros(k) + text == Zeros(k);
      OnlyZeros(k);
    } else {
      LeadingZeros(k, text[..|text| - 1]);
      var all := Zeros(k) + text;
      assert all[..|all| - 1] == Zeros(k) + text[..|text| - 1];
    }
  }

  lemma {:induction false} OnlyZeros(k: nat)
    ensures |Zeros(k)| == k && (forall i :: 0 <= i < k ==> Zeros(k)[i] == '0') && Value(Zeros(k)) == 0
  {
    if k > 0 {
      OnlyZeros(k - 1);
      assert forall i :: 0 <= i < k ==> Zeros(k)[i] == '0';
      assert Zeros(k)[..k - 1] == Zeros(k - 1);
    }
  }

  /** No two numbers share a name. */
  lemma NamesAreUnique(m: nat, n: nat)
    requires NodeName(m) == NodeName(n)
    ensures m == n
  {
    NameValue(m);
    NameValue(n);
  }

  lemma NameValue(n: nat)
    ensures Value(NodeName(n)[1..]) == n
  {
    DecimalValue(n);
    var text := Decimal(n);
    var k := if |text| < 4 then 4 - |text| else 0;
    LeadingZeros(k, text);
    assert NodeName(n)[1..] == Zeros(k) + text;
  }
}
