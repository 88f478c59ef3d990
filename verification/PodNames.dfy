/**
  Names of the pods (and so of the pilots) of a StatefulSet: the set name, a dash
  and the ordinal in decimal. Everything that looks a pilot up does it by this name,
  so the controller can only tell two replicas apart because the name is injective.
 */
module PodNames {

  /** The decimal digit characters. */
  predicate IsDigit(c: char) {
    '0' <= c <= '9'
  }

  function DigitChar(d: nat): char
    requires d < 10
  {
    ('0' as int + d) as char
  }

  function DigitValue(c: char): int {
    c as int - '0' as int
  }

  function Digits(n: nat): string {
    if n < 10 then [DigitChar(n)] else Digits(n / 10) + [DigitChar(n % 10)]
  }

  /** The number that a digit string denotes; the inverse of `Digits`. */
  function Number(s: string): int {
    if s == "" then 0 else 10 * Number(s[..|s| - 1]) + DigitValue(s[|s| - 1])
  }

  /** "%d" of a signed integer. */
  function Decimal(i: int): string {
    if i < 0 then "-" + Digits(-i) else Digits(i)
  }

  /** pilotNameForStatefulSetReplica: "%s-%d". */
  function PilotName(setName: string, replica: int): string {
    setName + "-" + Decimal(replica)
  }

  lemma {:induction false} DigitsRoundTrip(n: nat)
    ensures Digits(n) != ""
    ensures forall i :: 0 <= i < |Digits(n)| ==> IsDigit(Digits(n)[i])
    ensures Number(Digits(n)) == n
  {
    if n < 10 {
      assert Digits(n)[..0] == "";
    } else {
      DigitsRoundTrip(n / 10);
      var s := Digits(n);
      assert s[..|s| - 1] == Digits(n / 10);
    }
  }

  lemma {:induction false} NoLeadingZero(n: nat)
    requires n > 0
    ensures Digits(n) != "" && Digits(n)[0] != '0'
  {
    if n >= 10 {
      NoLeadingZero(n / 10);
    }
  }

  /** A numeral as people write it: digits, without a leading zero unless it is zero. */
  predicate Canonical(d: string) {
    d != "" && (forall i :: 0 <= i < |d| ==> IsDigit(d[i])) && (|d| > 1 ==> d[0] != '0')
  }

  /** The other round trip: a canonical numeral is the rendering of the number it denotes. */
  lemma {:induction false} CanonicalRoundTrip(d: string)
    requires Canonical(d)
    ensures Number(d) >= 0 && Digits(Number(d)) == d
    ensures d != "0" ==> Number(d) > 0
    decreases |d|
  {
    var rest, last := d[..|d| - 1], d[|d| - 1];
    assert IsDigit(last) && IsDigit(d[0]);
    assert d == rest + [last];
    if |d| == 1 {
      assert rest == "";
    } else {
      CanonicalRoundTrip(rest);
      var n := Number(rest);
      assert rest != "0" ==> n > 0;
      assert rest[0] == d[0] != '0';
      assert (10 * n + DigitValue(last)) / 10 == n && (10 * n + DigitValue(last)) % 10 == DigitValue(last);
    }
  }

  /**
    The name of replica i is the set name, a dash, and the one canonical numeral that denotes i:
    the names Kubernetes gives to the pods 0, 1, 2, ... of the set.
   */
  lemma PilotNameIs(setName: string, i: nat, d: string)
    ensures PilotName(setName, i) == setName + "-" + d <==> Canonical(d) && Number(d) == i
  {
    DigitsRoundTrip(i);
    if i > 0 {
      NoLeadingZero(i);
    }
    assert Canonical(Digits(i));
    if Canonical(d) {
      CanonicalRoundTrip(d);
    }
    if PilotName(setName, i) == setName + "-" + d {
      assert (setName + "-" + d)[|setName| + 1..] == d;
      assert PilotName(setName, i)[|setName| + 1..] == Digits(i);
    }
  }

  lemma PilotNameExample()
    ensures PilotName("es-c-data", 0) == "es-c-data-0" && PilotName("es-c-data", 10) == "es-c-data-10"
  {
    assert Digits(10) == Digits(1) + [DigitChar(0)] == "10";
  }

  lemma DecimalInjective(i: int, j: int)
    requires Decimal(i) == Decimal(j)
    ensures i == j
  {
    DigitsRoundTrip(if i < 0 then -i else i);
    DigitsRoundTrip(if j < 0 then -j else j);
    assert i < 0 <==> Decimal(i)[0] == '-';
    assert j < 0 <==> Decimal(j)[0] == '-';
    if i < 0 {
      assert Decimal(i)[1..] == Digits(-i);
      assert Decimal(j)[1..] == Digits(-j);
    }
  }

  /** Two replicas of one set never share a name, negative ordinals included. */
  lemma ReplicaInjective(setName: string, i: int, j: int)
    requires PilotName(setName, i) == PilotName(setName, j)
    ensures i == j
  {
    assert PilotName(setName, i)[|setName| + 1..] == Decimal(i);
    assert PilotName(setName, j)[|setName| + 1..] == Decimal(j);
    DecimalInjective(i, j);
  }

  /** A text with a dash-free tail splits at its last dash in one way only. */
  lemma SplitAtLastDash(s: string, a: string, t: string, b: string)
    requires s + "-" + a == t + "-" + b
    requires '-' !in a && '-' !in b
    ensures s == t && a == b
  {
    var name := (s + "-") + a;
    assert name == (t + "-") + b;
    assert forall q :: |s| < q < |name| ==> name[q] == a[q - |s| - 1];
    assert forall q :: |t| < q < |name| ==> name[q] == b[q - |t| - 1];
    assert name[|s|] == '-' && name[|t|] == '-';
    assert s == name[..|s|] && t == name[..|t|];
    assert a == name[|s| + 1..] && b == name[|t| + 1..];
  }

  /** A pilot name determines both the set and the ordinal, although set names may contain dashes and digits. */
  lemma PilotNameInjective(s: string, i: nat, t: string, j: nat)
    requires PilotName(s, i) == PilotName(t, j)
    ensures s == t && i == j
  {
    DigitsRoundTrip(i);
    DigitsRoundTrip(j);
    SplitAtLastDash(s, Digits(i), t, Digits(j));
  }
}
