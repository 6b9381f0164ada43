/** Searching strings, and decimal numbers. */
module Text {

  /** The blank line that ends the head of a message. */
  const END_OF_HEAD: string := "\r\n\r\n"

  predicate OccursAt(s: string, pat: string, i: nat) {
    i + |pat| <= |s| && s[i..i + |pat|] == pat
  }

  /** The first index at which `pat` occurs in `s`, or `|s|`: `std::string::find`. */
  function Find(s: string, pat: string): (r: nat)
    requires pat != ""
    ensures r <= |s|
    ensures r < |s| ==> OccursAt(s, pat, r)
  {
    if |s| < |pat| then |s|
    else if s[..|pat|] == pat then 0
    else
      var r := Find(s[1..], pat);
      assert r < |s[1..]| ==> s[1..][r..r + |pat|] == s[r + 1..r + 1 + |pat|];
      r + 1
  }

  lemma OccursInTail(s: string, pat: string, i: nat)
    requires s != "" && i > 0
    ensures OccursAt(s, pat, i) <==> OccursAt(s[1..], pat, i - 1)
  {
    if i + |pat| <= |s| {
      assert s[1..][i - 1..i - 1 + |pat|] == s[i..i + |pat|];
    }
  }

  /** No occurrence starts before the one found. */
  lemma {:induction false} FindIsFirst(s: string, pat: string, i: nat)
    requires pat != "" && i < Find(s, pat)
    ensures !OccursAt(s, pat, i)
    decreases |s|
  {
    if |s| < |pat| {
    } else if s[..|pat|] == pat {
    } else if i == 0 {
      assert s[0..|pat|] == s[..|pat|];
    } else {
      FindIsFirst(s[1..], pat, i - 1);
      OccursInTail(s, pat, i);
    }
  }

  /** An occurrence with none before it is the one found. */
  lemma {:induction false} FindUnique(s: string, pat: string, r: nat)
    requires pat != "" && OccursAt(s, pat, r)
    requires forall i :: 0 <= i < r ==> !OccursAt(s, pat, i)
    ensures Find(s, pat) == r
  {
    if r < Find(s, pat) {
      FindIsFirst(s, pat, r);
    }
  }

  /** A single character: what precedes the one found does not contain it. */
  lemma {:induction false} FindChar(s: string, c: char)
    ensures c !in s[..Find(s, [c])]
    ensures Find(s, [c]) == |s| <==> c !in s
    decreases |s|
  {
    if s == "" || s[0] == c {
    } else {
      FindChar(s[1..], c);
      var r := Find(s[1..], [c]);
      assert s[..1] == [s[0]];
      assert s[..r + 1] == [s[0]] + s[1..][..r];
      assert s == [s[0]] + s[1..];
    }
  }

  lemma {:induction false} FindCharAfter(a: string, c: char, b: string)
    requires c !in a
    ensures Find(a + [c] + b, [c]) == |a|
  {
    var s := a + [c] + b;
    forall i | 0 <= i < |a|
      ensures !OccursAt(s, [c], i)
    {
      assert s[i..i + 1][0] == a[i];
    }
    FindUnique(s, [c], |a|);
  }

  // ---- Decimal numbers -----------------------------------------------------

  predicate IsDigit(c: char) { '0' <= c <= '9' }

  function DigitOf(n: nat): (c: char)
    requires n < 10
    ensures IsDigit(c) && c as nat - '0' as nat == n
  {
    ('0' as nat + n) as char
  }

  function Decimal(n: nat): (s: string)
    ensures s != "" && forall i :: 0 <= i < |s| ==> IsDigit(s[i])
  {
    if n < 10 then [DigitOf(n)] else Decimal(n / 10) + [DigitOf(n % 10)]
  }

  function Signed(n: int): (s: string)
    ensures s != "" && forall i :: 0 <= i < |s| ==> IsDigit(s[i]) || s[i] == '-'
  {
    if n < 0 then "-" + Decimal(-n) else Decimal(n)
  }

  /** The number of leading digits. */
  function DigitRun(s: string): (n: nat)
    ensures n <= |s| && forall i :: 0 <= i < n ==> IsDigit(s[i])
  {
    if s != "" && IsDigit(s[0]) then 1 + DigitRun(s[1..]) else 0
  }

  function DigitsValue(s: string): nat
    requires forall i :: 0 <= i < |s| ==> IsDigit(s[i])
  {
    if s == "" then 0
    else
      assert IsDigit(s[|s| - 1]);
      10 * DigitsValue(s[..|s| - 1]) + (s[|s| - 1] as nat - '0' as nat)
  }

  lemma {:induction false} DecimalValue(n: nat)
    ensures DigitsValue(Decimal(n)) == n
  {
    if n >= 10 {
      DecimalValue(n / 10);
      assert Decimal(n)[..|Decimal(n)| - 1] == Decimal(n / 10);
    } else {
      assert DigitsValue(Decimal(n)[..0]) == 0;
    }
  }

  lemma {:induction false} DigitRunAll(s: string)
    requires forall i :: 0 <= i < |s| ==> IsDigit(s[i])
    ensures DigitRun(s) == |s|
  {
    if s == "" {
    } else {
      DigitRunAll(s[1..]);
    }
  }

  // ---- What a decimal number says ------------------------------------------

  function Pow10(k: nat): (r: nat)
    ensures r > 0
  {
    if k == 0 then 1 else 10 * Pow10(k - 1)
  }

  /** Each digit times the power of ten of its place. */
  ghost function PlaceValue(s: string): int
  {
    if s == "" then 0 else (s[0] as int - '0' as int) * Pow10(|s| - 1) + PlaceValue(s[1..])
  }

  /** The decimal notation of `n`: digits, without needless zeros, and a sign if it is negative. */
  ghost predicate Denotes(s: string, n: int) {
    if n < 0 then s != "" && s[0] == '-' && Digits(s[1..], -n) else Digits(s, n)
  }

  ghost predicate Digits(s: string, n: nat) {
    && s != "" && (forall i :: 0 <= i < |s| ==> '0' <= s[i] <= '9')
    && (s[0] == '0' ==> s == "0") && PlaceValue(s) == n
  }

  lemma {:induction false} PlaceValueSnoc(s: string, c: char)
    ensures PlaceValue(s + [c]) == 10 * PlaceValue(s) + (c as int - '0' as int)
    decreases |s|
  {
    if s == "" {
      assert s + [c] == [c] && [c][1..] == "";
    } else {
      assert (s + [c])[1..] == s[1..] + [c];
      PlaceValueSnoc(s[1..], c);
      TimesTen(s[0] as int - '0' as int, Pow10(|s| - 1));
    }
  }

  lemma TimesTen(d: int, p: nat)
    ensures d * (10 * p) == 10 * (d * p)
  {
  }

  lemma {:induction false} DecimalDenotes(n: nat)
    ensures Digits(Decimal(n), n)
    ensures Decimal(n)[0] == '0' ==> n == 0
    decreases n
  {
    if n < 10 {
      assert Decimal(n) == [DigitOf(n)] && Decimal(n)[1..] == "";
    } else {
      DecimalDenotes(n / 10);
      PlaceValueSnoc(Decimal(n / 10), DigitOf(n % 10));
    }
  }

  lemma {:induction false} DigitsAreWorth(s: string)
    requires forall i :: 0 <= i < |s| ==> IsDigit(s[i])
    ensures DigitsValue(s) == PlaceValue(s)
    decreases |s|
  {
    if s == "" {
    } else {
      var init, c := s[..|s| - 1], s[|s| - 1];
      DigitsAreWorth(init);
      PlaceValueSnoc(init, c);
      assert init + [c] == s;
    }
  }

  lemma {:induction false} DigitRunIs(ds: string, tail: string)
    requires (forall i :: 0 <= i < |ds| ==> IsDigit(ds[i])) && (tail == "" || !IsDigit(tail[0]))
    ensures DigitRun(ds + tail) == |ds|
    decreases |ds|
  {
    if ds == "" {
      assert ds + tail == tail;
    } else {
      assert (ds + tail)[1..] == ds[1..] + tail;
      DigitRunIs(ds[1..], tail);
    }
  }

  /** A printed number is the decimal notation of that number. */
  lemma SignedDenotes(n: int)
    ensures Denotes(Signed(n), n)
  {
    DecimalDenotes(if n < 0 then -n else n);
    if n < 0 {
      assert Signed(n)[1..] == Decimal(-n);
    }
  }

  /** A number of three digits is written as its hundreds, tens and ones. */
  lemma ThreeDigits(n: nat)
    requires 100 <= n <= 999
    ensures
      var s := Signed(n);
      && |s| == 3 && IsDigit(s[0]) && IsDigit(s[1]) && IsDigit(s[2])
      && 100 * (s[0] as int - '0' as int) + 10 * (s[1] as int - '0' as int) + (s[2] as int - '0' as int) == n
  {
    assert Decimal(n / 100) == [DigitOf(n / 100)];
    assert Decimal(n / 10) == [DigitOf(n / 100)] + [DigitOf(n / 10 % 10)];
    assert Decimal(n) == [DigitOf(n / 100)] + [DigitOf(n / 10 % 10)] + [DigitOf(n % 10)];
  }
}
