/** The keys under which spans are aggregated: an optional time-bucket prefix and the dimension values, joined by the
    NUL character, and the way back from a key to the times of a data point. */
module MetricKeys {
  import opened PData
  import opened Decimals
  import opened Words

  const NUL: char := '\0'
  const SECOND: int := 1_000_000_000

  /** Nanoseconds from Go's zero time, 1 January of year 1, to the Unix epoch. */
  const ZERO_TO_EPOCH: int := 62_135_596_800 * SECOND

  // ---------------------------------------------------------------- decimal numbers

  /** `strconv.FormatInt(n, 10)`. */
  function FormatInt(n: int): (s: string)
    ensures s != "" && NUL !in s
  { if n < 0 then "-" + FormatNat(-n) else FormatNat(n) }

  /** `strconv.ParseInt(s, 10, 64)`: an optional sign, digits, and the 64-bit range. */
  function ParseInt64(s: string): Option<int> {
    if s == "" then None
    else
      var signed := s[0] == '-' || s[0] == '+';
      match ParseNat(if signed then s[1..] else s)
      case None => None
      case Some(n) =>
        var v := if s[0] == '-' then 0 - n else n;
        if -TWO63 <= v < TWO63 then Some(v) else None
  }

  function Size(n: int): nat { if n < 0 then -n else n }

  lemma DigitsRead(sign: string, digits: string, n: nat)
    requires ParseNat(digits) == Some(n) && digits != "" && '0' <= digits[0] <= '9'
    requires sign == "" || sign == ['+'] || sign == ['-']
    ensures var v := if sign == ['-'] then 0 - n else n;
      ParseInt64(sign + digits) == if -TWO63 <= v < TWO63 then Some(v) else None
  {
    if sign == "" {
      assert sign + digits == digits;
    } else {
      assert (sign + digits)[0] == sign[0] && (sign + digits)[1..] == digits;
    }
  }

  /** A number is written with its sign when it is negative and without zeros before it, and reads back. */
  lemma ParseFormatInt(n: int)
    requires -TWO63 <= n < TWO63
    ensures ParseInt64(FormatInt(n)) == Some(n)
    ensures FormatInt(n) == (if n < 0 then ['-'] else "") + FormatNat(Size(n))
  {
    ParseFormatNat(Size(n));
    var digits := FormatNat(Size(n));
    if n < 0 {
      DigitsRead(['-'], digits, Size(n));
      assert FormatInt(n) == ['-'] + digits;
    } else {
      DigitsRead("", digits, Size(n));
      assert "" + digits == digits;
    }
  }

  /** The sign of a number, left out or written as a plus where there is nothing to negate. */
  predicate IsSign(sign: string, n: int) {
    (sign == "" && n >= 0) || (sign == ['+'] && n >= 0) || (sign == ['-'] && n <= 0)
  }

  /** The sign and the digits of the number, with any zeros between them. */
  ghost predicate ReadsWith(s: string, n: int, sign: string) {
    IsSign(sign, n) && sign <= s && IsDigits(s[|sign|..], Size(n))
  }

  /** A text is read as a number exactly when it is its sign and its digits, and the number has 64 bits. */
  lemma ParsesIntExactly(s: string, n: int)
    ensures ParseInt64(s) == Some(n) <==>
      (exists sign :: ReadsWith(s, n, sign)) && -0x8000_0000_0000_0000 <= n < 0x8000_0000_0000_0000
  {
    if sign :| ReadsWith(s, n, sign) {
      SignReads(s, n, sign);
    }
    if ParseInt64(s) == Some(n) {
      var sign := ReadsSign(s, n);
    }
  }

  lemma SignReads(s: string, n: int, sign: string)
    requires ReadsWith(s, n, sign)
    ensures ParseInt64(s) == if -TWO63 <= n < TWO63 then Some(n) else None
  {
    ParsesExactly(s[|sign|..], Size(n));
    DigitsRead(sign, s[|sign|..], Size(n));
    assert s == sign + s[|sign|..];
  }

  lemma ReadsSign(s: string, n: int) returns (sign: string)
    requires ParseInt64(s) == Some(n)
    ensures ReadsWith(s, n, sign) && -TWO63 <= n < TWO63
  {
    sign := if s[0] == '-' || s[0] == '+' then [s[0]] else "";
    var digits := s[|sign|..];
    assert ParseNat(digits) == Some(Size(n)) && IsSign(sign, n) by { assert sign == "" ==> digits == s; }
    ParsesExactly(digits, Size(n));
  }

  // ---------------------------------------------------------------- joining values

  /** What `concatDimensionValue` builds up: the values with a NUL between them. */
  function Joined(values: seq<string>): string {
    if values == [] then "" else if |values| == 1 then values[0] else values[0] + [NUL] + Joined(values[1..])
  }

  predicate NulFree(values: seq<string>) { forall i :: 0 <= i < |values| ==> NUL !in values[i] }

  /** `strings.IndexByte(s, 0)`. */
  function NulIndex(s: string): (i: int)
    ensures -1 <= i < |s|
    ensures i >= 0 ==> s[i] == NUL && NUL !in s[..i]
    ensures i == -1 <==> NUL !in s
  {
    if s == "" then -1
    else if s[0] == NUL then 0
    else
      var r := NulIndex(s[1..]);
      if r == -1 then -1
      else assert s[..r + 1] == [s[0]] + s[1..][..r]; r + 1
  }

  lemma {:induction false} FirstValue(v: string, rest: string)
    requires NUL !in v
    ensures NulIndex(v + [NUL] + rest) == |v|
  {
    if v != "" {
      FirstValue(v[1..], rest);
      assert (v + [NUL] + rest)[1..] == v[1..] + [NUL] + rest;
    }
  }

  /** One NUL stands between values, and nothing around one. */
  lemma {:induction false} JoinedApart(a: seq<string>, b: seq<string>)
    requires a != [] && b != []
    ensures Joined(a + b) == Joined(a) + ['\0'] + Joined(b)
    ensures |a| == 1 ==> Joined(a) == a[0]
  {
    assert (a + b)[0] == a[0] && (a + b)[1..] == a[1..] + b;
    if |a| == 1 {
      assert a[1..] + b == b;
    } else {
      JoinedApart(a[1..], b);
      assert a[0] + [NUL] + (Joined(a[1..]) + ['\0'] + Joined(b)) == a[0] + [NUL] + Joined(a[1..]) + ['\0'] + Joined(b);
    }
  }

  /** Keys of NUL-free values are equal only if the value sequences are. */
  lemma {:induction false} JoinedInjective(a: seq<string>, b: seq<string>)
    requires a != [] && b != [] && NulFree(a) && NulFree(b)
    ensures Joined(a) == Joined(b) <==> a == b
  {
    if Joined(a) == Joined(b) {
      if |a| > 1 { FirstValue(a[0], Joined(a[1..])); }
      if |b| > 1 { FirstValue(b[0], Joined(b[1..])); }
      assert NulIndex(Joined(a)) == if |a| > 1 then |a[0]| else -1;
      if |a| > 1 {
        assert a[0] == Joined(a)[..|a[0]|] == b[0];
        assert Joined(a[1..]) == Joined(a)[|a[0]| + 1..] == Joined(b[1..]);
        JoinedInjective(a[1..], b[1..]);
        assert a == [a[0]] + a[1..] && b == [b[0]] + b[1..];
      }
    }
  }

  // ---------------------------------------------------------------- time buckets

  /** `Time.Truncate`, which counts from Go's zero time. */
  function Truncate(t: int, d: int): int
    requires d > 0
  { t - (t + ZERO_TO_EPOCH) % d }

  /** `Time.Unix`: whole seconds, rounded down. */
  function UnixSeconds(t: int): int { t / SECOND }

  /** `NewTimestampFromTime(time.Unix(u, 0))`. */
  function TimestampOfSeconds(u: int): int { (u * SECOND) % TWO64 }

  /** The prefix that `AddTimeToKeyBuf` writes, without the separator. */
  function TimePrefix(t: int, interval: int): string
    requires interval > 0
  { FormatInt(UnixSeconds(Truncate(t, interval))) }

  /** A delta key. */
  function BucketedKey(t: int, interval: int, values: seq<string>): string
    requires interval > 0
  { Joined([TimePrefix(t, interval)] + values) }

  /** Start and end of the data point for a key. */
  function ParseTimesFromKeyOrNow(k: string, now: int, processorStart: int): (int, int) {
    var idx := NulIndex(k);
    if idx <= 0 then (processorStart, now)
    else
      match ParseInt64(k[..idx])
      case None => (processorStart, now)
      case Some(u) => (TimestampOfSeconds(u), TimestampOfSeconds(u))
  }

  /** A bucket contains the span times it was made from, and buckets are counted from the start of year 1, which is
      1969 years with their leap days before the Unix epoch. */
  lemma TruncateBounds(t: int, d: int)
    requires d > 0
    ensures Truncate(t, d) <= t < Truncate(t, d) + d
    ensures var days := 1969 * 365 + 1969 / 4 - 1969 / 100 + 1969 / 400;
      exists k :: Truncate(t, d) + days * 86_400 * 1_000_000_000 == d * k
  {
    assert Truncate(t, d) + ZERO_TO_EPOCH == d * ((t + ZERO_TO_EPOCH) / d);
  }

  lemma SecondsInRange(t: int, d: int)
    requires -TWO63 <= t < TWO63 && 0 < d < TWO63
    ensures -TWO63 <= UnixSeconds(Truncate(t, d)) < TWO63
  {
    TruncateBounds(t, d);
  }

  lemma KeyPrefix(t: int, d: int, values: seq<string>)
    requires 0 < d < TWO63 && -TWO63 <= t < TWO63 && values != []
    ensures var k := BucketedKey(t, d, values);
      NulIndex(k) == |TimePrefix(t, d)| > 0 && k[..NulIndex(k)] == TimePrefix(t, d)
  {
    var p := TimePrefix(t, d);
    assert ([p] + values)[1..] == values;
    FirstValue(p, Joined(values));
  }

  /** The data point for a delta key starts and ends at the start of its bucket, rounded down to a whole second; the
      bucket contains the span's start. With a whole-second interval the bucket start itself is recovered. */
  lemma BucketKeyRoundTrip(ts: int, interval: int, values: seq<string>, now: int, processorStart: int)
    requires 0 <= ts < TWO64 && 0 < interval < TWO63 && values != []
    ensures var t := Signed(ts);
      var start := Truncate(t, interval);
      var parsed := ParseTimesFromKeyOrNow(BucketedKey(t, interval, values), now, processorStart);
      && start <= t < start + interval
      && parsed.0 == parsed.1 == (start - start % 1_000_000_000) % 0x1_0000_0000_0000_0000
      && (parsed.0 == start % TWO64 <==> start % SECOND == 0)
      && (interval % SECOND == 0 ==> start % SECOND == 0)
  {
    var t := Signed(ts);
    var start := Truncate(t, interval);
    TruncateBounds(t, interval);
    SecondsInRange(t, interval);
    KeyPrefix(t, interval, values);
    ParseFormatInt(UnixSeconds(start));
    if interval % SECOND == 0 { WholeSeconds(t, interval); }
    assert UnixSeconds(start) * SECOND == start - start % SECOND;
    ModDiffers(start, start % SECOND);
  }

  lemma ModDiffers(a: int, r: int)
    requires 0 <= r < SECOND
    ensures (a - r) % TWO64 == a % TWO64 <==> r == 0
  {
    if (a - r) % TWO64 == a % TWO64 {
      var q, q' := a / TWO64, (a - r) / TWO64;
      assert r == (q - q') * TWO64;
    }
  }

  lemma WholeSeconds(t: int, d: int)
    requires d > 0 && d % SECOND == 0
    ensures Truncate(t, d) % SECOND == 0
  {
    var c, q := d / SECOND, (t + ZERO_TO_EPOCH) / d;
    calc {
      Truncate(t, d);
      d * q - ZERO_TO_EPOCH;
      (c * SECOND) * q - 62_135_596_800 * SECOND;
      { assert (c * SECOND) * q == (c * q) * SECOND; }
      (c * q - 62_135_596_800) * SECOND;
    }
    MultipleOfSecond(c * q - 62_135_596_800);
  }

  lemma MultipleOfSecond(k: int)
    ensures (k * SECOND) % SECOND == 0
  {}

  /** Two delta keys are equal exactly when the buckets start in the same second and the values are the same: with a
      whole-second interval, spans of different buckets never share a key. */
  lemma DeltaKeysEqual(t: int, values: seq<string>, t': int, values': seq<string>, d: int)
    requires -TWO63 <= t < TWO63 && -TWO63 <= t' < TWO63 && 0 < d < TWO63
    requires values != [] && values' != [] && NulFree(values) && NulFree(values')
    ensures BucketedKey(t, d, values) == BucketedKey(t', d, values')
       <==> UnixSeconds(Truncate(t, d)) == UnixSeconds(Truncate(t', d)) && values == values'
    ensures d % SECOND == 0 && BucketedKey(t, d, values) == BucketedKey(t', d, values')
        ==> Truncate(t, d) == Truncate(t', d)
  {
    var u, u' := UnixSeconds(Truncate(t, d)), UnixSeconds(Truncate(t', d));
    var a, a' := [FormatInt(u)] + values, [FormatInt(u')] + values';
    JoinedInjective(a, a');
    SecondsInRange(t, d);
    SecondsInRange(t', d);
    ParseFormatInt(u);
    ParseFormatInt(u');
    if a == a' { assert a[0] == a'[0] && a[1..] == values && a'[1..] == values'; }
    if d % SECOND == 0 { WholeSeconds(t, d); WholeSeconds(t', d); }
  }

  /** A cumulative key has no prefix: its point gets the processor start and the present unless the service name,
      the first value, reads as a number. */
  lemma CumulativeKeyTimes(service: string, rest: seq<string>, now: int, processorStart: int)
    requires NUL !in service && rest != []
    ensures var k := Joined([service] + rest);
      ParseTimesFromKeyOrNow(k, now, processorStart) ==
        match ParseInt64(service)
        case None => (processorStart, now)
        case Some(u) => var t := (u * 1_000_000_000) % 0x1_0000_0000_0000_0000; (t, t)
  {
    assert ([service] + rest)[1..] == rest;
    FirstValue(service, Joined(rest));
    var k := Joined([service] + rest);
    assert NulIndex(k) == |service| && k[..|service|] == service;
  }
}
