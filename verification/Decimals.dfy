/** Natural numbers in decimal digits. */
module Decimals {
  import opened PData

  function Digit(d: int): char
    requires 0 <= d < 10
  { '0' + d as char }

  function FormatNat(n: nat): (s: string)
    ensures s != "" && (forall i :: 0 <= i < |s| ==> '0' <= s[i] <= '9')
  {
    if n < 10 then [Digit(n)] else FormatNat(n / 10) + [Digit(n % 10)]
  }

  function ParseNat(s: string): Option<nat> {
    if s == "" then None
    else if !('0' <= s[|s| - 1] <= '9') then None
    else if |s| == 1 then Some((s[0] - '0') as nat)
    else
      match ParseNat(s[..|s| - 1])
      case None => None
      case Some(n) => Some(10 * n + (s[|s| - 1] - '0') as nat)
  }

  lemma {:induction false} ParseFormatNat(n: nat)
    ensures ParseNat(FormatNat(n)) == Some(n)
  {
    if n >= 10 {
      ParseFormatNat(n / 10);
      assert FormatNat(n)[..|FormatNat(n)| - 1] == FormatNat(n / 10);
    }
  }

  lemma FormatNatInjective(m: nat, n: nat)
    requires FormatNat(m) == FormatNat(n)
    ensures m == n
  {
    ParseFormatNat(m);
    ParseFormatNat(n);
  }

  /** The digits of a number with one more digit are its digits and that one; a digit is written as itself. */
  lemma DigitsExactly(n: nat, d: nat)
    requires d <= 9
    ensures FormatNat(10 * n + d) == (if n == 0 then "" else FormatNat(n)) + ["0123456789"[d]]
  {
    assert "0123456789"[d] == Digit(d);
    if n > 0 {
      assert (10 * n + d) / 10 == n && (10 * n + d) % 10 == d;
    } else {
      assert "" + [Digit(d)] == [Digit(d)];
    }
  }

  function Zeros(k: nat): string { seq(k, _ => '0') }

  lemma ParseSnoc(s: string, c: char)
    requires s != ""
    ensures ParseNat(s + [c]) ==
      if '0' <= c <= '9' && ParseNat(s).Some? then Some(10 * ParseNat(s).value + (c - '0') as nat) else None
  {
    assert (s + [c])[..|s + [c]| - 1] == s;
  }

  lemma {:induction false} LeadingZero(s: string)
    requires s != ""
    ensures ParseNat(['0'] + s) == ParseNat(s)
    decreases |s|
  {
    var front := s[..|s| - 1];
    if front != "" { LeadingZero(front); }
    LeadingZeroSnoc(front, s[|s| - 1]);
    assert s == front + [s[|s| - 1]];
  }

  lemma LeadingZeroSnoc(front: string, last: char)
    requires front != "" ==> ParseNat(['0'] + front) == ParseNat(front)
    ensures ParseNat(['0'] + (front + [last])) == ParseNat(front + [last])
  {
    ParseSnoc(['0'] + front, last);
    assert ['0'] + (front + [last]) == ['0'] + front + [last];
    if front != "" { ParseSnoc(front, last); }
  }

  lemma {:induction false} LeadingZeros(k: nat, s: string)
    requires s != ""
    ensures ParseNat(Zeros(k) + s) == ParseNat(s)
  {
    if k == 0 {
      assert Zeros(0) + s == s;
    } else {
      var less := Zeros(k - 1) + s;
      LeadingZeros(k - 1, s);
      LeadingZero(less);
      assert Zeros(k) == ['0'] + Zeros(k - 1);
      assert ['0'] + Zeros(k - 1) + s == ['0'] + less;
    }
  }

  /** The digits of the number with any zeros before them. */
  ghost predicate IsDigits(s: string, n: nat) { exists k: nat :: s == Zeros(k) + FormatNat(n) }

  /** These are the texts that read as the number. */
  lemma ParsesExactly(s: string, n: nat)
    ensures ParseNat(s) == Some(n) <==> IsDigits(s, n)
    ensures IsDigits(s, n) ==> s != "" && '0' <= s[0] <= '9'
  {
    if ParseNat(s) == Some(n) {
      var k := ZerosBefore(s, n);
    }
    if k: nat :| s == Zeros(k) + FormatNat(n) {
      LeadingZeros(k, FormatNat(n));
      ParseFormatNat(n);
    }
  }

  lemma LastDigit(m: nat, c: char)
    requires '0' <= c <= '9'
    ensures var n := 10 * m + (c - '0') as nat; n / 10 == m && n % 10 == (c - '0') as nat && c == Digit(n % 10)
  {
    var d := (c - '0') as nat;
    assert (10 * m + d) / 10 == m && (10 * m + d) % 10 == d;
  }

  lemma ParseLast(front: string, c: char, n: nat)
    requires ParseNat(front + [c]) == Some(n)
    ensures c == Digit(n % 10) && if front == "" then n < 10 else ParseNat(front) == Some(n / 10)
  {
    if front == "" {
      LastDigit(0, c);
    } else {
      ParseSnoc(front, c);
      LastDigit(ParseNat(front).value, c);
    }
  }

  lemma {:induction false} ZerosBefore(s: string, n: nat) returns (k: nat)
    requires ParseNat(s) == Some(n)
    ensures s == Zeros(k) + FormatNat(n)
  {
    var front, c := s[..|s| - 1], s[|s| - 1];
    assert s == front + [c];
    ParseLast(front, c, n);
    if front == "" {
      k := 0;
      assert s == [Digit(n)] == Zeros(0) + [Digit(n)];
    } else {
      k := ZerosBefore(front, n / 10);
      k := ZerosAndDigit(front, n, k);
    }
  }

  lemma ZerosAndDigit(front: string, n: nat, k: nat) returns (j: nat)
    requires front == Zeros(k) + FormatNat(n / 10)
    ensures front + [Digit(n % 10)] == Zeros(j) + FormatNat(n)
  {
    DigitsExactly(n / 10, n % 10);
    if n < 10 {
      j := k + 1;
      assert front == Zeros(j);
    } else {
      j := k;
      assert Zeros(k) + FormatNat(n / 10) + [Digit(n % 10)] == Zeros(k) + (FormatNat(n / 10) + [Digit(n % 10)]);
    }
  }
}
