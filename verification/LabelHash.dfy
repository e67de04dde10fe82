/** The label fingerprint: FNV-1a over the labels in the order of their names. */
module LabelHash {
  import opened Words

  type Byte = b: int | 0 <= b < 256

  /** A string as its bytes; a label value is the text it prints as. */
  type Text = seq<Byte>

  const OFFSET64: nat := 14695981039346656037
  const PRIME64: nat := 1099511628211
  const SEPARATOR: Byte := 255

  // ---------------------------------------------------------------- the hash

  /** Exclusive or of two numbers of `n` bits. */
  function Xor(a: nat, b: nat, n: nat): (x: nat) {
    if n == 0 then 0 else 2 * Xor(a / 2, b / 2, n - 1) + (a + b) % 2
  }

  function Pow2(n: nat): nat { if n == 0 then 1 else 2 * Pow2(n - 1) }

  lemma {:induction false} XorBack(a: nat, b: nat, n: nat)
    requires a < Pow2(n)
    ensures Xor(a, b, n) < Pow2(n) && Xor(Xor(a, b, n), b, n) == a
  {
    if n > 0 {
      XorBack(a / 2, b / 2, n - 1);
      Halves(Xor(a / 2, b / 2, n - 1), a, b);
    }
  }

  lemma Halves(y: nat, a: nat, b: nat)
    ensures var x := 2 * y + (a + b) % 2; x / 2 == y && (x + b) % 2 == a % 2
  {}

  /** The low byte replaced by its exclusive or with `b`. */
  function Mix(h: nat, b: Byte): nat { h - h % 256 + Xor(h % 256, b, 8) }

  /** One byte into the running 64-bit hash: exclusive or into the low byte, then times the prime. */
  function Update(h: nat, b: Byte): (r: nat)
    ensures r < TWO64
  { (Mix(h, b) * PRIME64) % TWO64 }

  function Fold(h: nat, s: Text): nat { if s == [] then h else Update(Fold(h, s[..|s| - 1]), s[|s| - 1]) }

  method HashAddByte(h: nat, b: Byte) returns (r: nat)
    requires h < TWO64
    ensures r == Fold(h, [b]) && r < TWO64
  {
    r := Mix(h, b);
    r := r * PRIME64 % TWO64;
    assert [b][..0] == [];
  }

  method HashAdd(h: nat, s: Text) returns (r: nat)
    requires h < TWO64
    ensures r == Fold(h, s) && r < TWO64
  {
    r := h;
    for i := 0 to |s|
      invariant r == Fold(h, s[..i]) && r < TWO64
    {
      r := HashAddByte(r, s[i]);
      FoldJoin(h, s[..i], [s[i]]);
      assert s[..i + 1] == s[..i] + [s[i]];
    }
    assert s[..|s|] == s;
  }

  lemma {:induction false} FoldJoin(h: nat, s: Text, t: Text)
    ensures Fold(h, s + t) == Fold(Fold(h, s), t)
  {
    if t == [] {
      assert s + t == s;
    } else {
      assert (s + t)[..|s + t| - 1] == s + t[..|t| - 1];
      FoldJoin(h, s, t[..|t| - 1]);
    }
  }

  // ---------------------------------------------------------------- what the hash is

  /** The bits of a number, the lowest first. */
  function Bit(a: nat, k: nat): nat { if k == 0 then a % 2 else Bit(a / 2, k - 1) }

  lemma Parity(a: nat, b: nat)
    ensures (a + b) % 2 == if a % 2 != b % 2 then 1 else 0
  {}

  lemma XorHalves(a: nat, b: nat, n: nat)
    requires n > 0
    ensures Xor(a, b, n) % 2 == (a + b) % 2 && Xor(a, b, n) / 2 == Xor(a / 2, b / 2, n - 1)
  {
    var y, bit := Xor(a / 2, b / 2, n - 1), (a + b) % 2;
    assert (2 * y + bit) / 2 == y && (2 * y + bit) % 2 == bit;
  }

  /** A bit of the exclusive or is set when exactly one of the bits is. */
  lemma {:induction false} XorBit(a: nat, b: nat, n: nat, k: nat)
    requires k < n
    ensures Bit(Xor(a, b, n), k) == if Bit(a, k) != Bit(b, k) then 1 else 0
  {
    XorHalves(a, b, n);
    if k == 0 { Parity(a, b); } else { XorBit(a / 2, b / 2, n - 1, k - 1); }
  }

  /** FNV-1a, with 64 bits: the byte goes into the low byte of the state by exclusive or, and the state is multiplied by
      the prime. */
  lemma UpdateExactly(h: nat, b: Byte)
    requires h < 0x1_0000_0000_0000_0000
    ensures exists m: nat :: Update(h, b) == (m * 0x100_0000_01b3) % 0x1_0000_0000_0000_0000 && IsMixed(h, b, m)
  {
    MixIsXor(h, b);
  }

  /** The low byte of `m` is the exclusive or of that of `h` and `b`, and the rest is that of `h`. */
  ghost predicate IsMixed(h: nat, b: Byte, m: nat) {
    && m / 256 == h / 256
    && forall k: nat :: k < 8 ==> Bit(m % 256, k) == if Bit(h % 256, k) != Bit(b, k) then 1 else 0
  }

  lemma MixIsXor(h: nat, b: Byte)
    requires h < TWO64
    ensures IsMixed(h, b, Mix(h, b))
  {
    assert Pow2(8) == 256;
    XorBack(h % 256, b, 8);
    LowByte(h, Xor(h % 256, b, 8));
    RestOfByte(h / 256, Xor(h % 256, b, 8));
    assert Mix(h, b) == 256 * (h / 256) + Xor(h % 256, b, 8);
    forall k: nat | k < 8 ensures Bit(Mix(h, b) % 256, k) == if Bit(h % 256, k) != Bit(b, k) then 1 else 0 {
      XorBit(h % 256, b, 8, k);
    }
  }

  /** Without labels the fingerprint is the offset of the hash, */
  lemma NoLabels(sum: nat)
    ensures IsFingerprint(map[], sum) <==> sum == 0xcbf2_9ce4_8422_2325
  {
    assert Stream(map[], []) == [];
    if IsFingerprint(map[], sum) {
      var keys :| InOrder(map[], keys) && sum == Fold(OFFSET64, Stream(map[], keys));
      EmptyTogether(keys, []);
    } else {
      assert InOrder(map[], []);
    }
  }

  /** a label goes in as its name, the byte 255, its value and the byte 255, */
  lemma OneLabel(k: Text, v: Text, sum: nat)
    ensures IsFingerprint(map[k := v], sum) <==> sum == Fold(0xcbf2_9ce4_8422_2325, k + [255] + v + [255])
  {
    var m := map[k := v];
    assert Stream(m, [k]) == k + [255] + v + [255] by { assert [k][1..] == []; }
    assert InOrder(m, [k]);
    if IsFingerprint(m, sum) {
      FingerprintIsWellDefined(m, sum, Fold(OFFSET64, Stream(m, [k])));
    }
  }

  /** and labels go in one after the other. */
  lemma {:induction false} StreamJoins(attribs: map<Text, Text>, keys: seq<Text>, more: seq<Text>)
    requires (forall k :: k in keys ==> k in attribs) && forall k :: k in more ==> k in attribs
    ensures Stream(attribs, keys + more) == Stream(attribs, keys) + Stream(attribs, more)
  {
    if keys == [] {
      assert keys + more == more;
    } else {
      StreamJoins(attribs, keys[1..], more);
      StreamCons(attribs, keys[0], keys[1..] + more);
      assert keys + more == [keys[0]] + (keys[1..] + more);
      TextsJoin(Label(keys[0], attribs[keys[0]]), Stream(attribs, keys[1..]), Stream(attribs, more));
    }
  }

  lemma StreamCons(attribs: map<Text, Text>, k: Text, keys: seq<Text>)
    requires k in attribs && forall j :: j in keys ==> j in attribs
    ensures Stream(attribs, [k] + keys) == Label(k, attribs[k]) + Stream(attribs, keys)
  {
    assert ([k] + keys)[1..] == keys;
  }

  lemma TextsJoin(a: Text, b: Text, c: Text)
    ensures a + b + c == a + (b + c)
  {}

  // ---------------------------------------------------------------- updates are injective

  /** The inverse of the prime modulo 2^64. */
  const INVERSE64: nat := 14886173955864302971

  lemma TimesPrimeBack(x: nat)
    requires x < TWO64
    ensures ((x * PRIME64) % TWO64 * INVERSE64) % TWO64 == x
  {
    var q, y := x * PRIME64 / TWO64, (x * PRIME64) % TWO64;
    assert x * PRIME64 == q * TWO64 + y;
    assert PRIME64 * INVERSE64 == 1 + 887285111055 * TWO64;
    assert y * INVERSE64 == x + (887285111055 * x - q * INVERSE64) * TWO64;
    RestIsUnique(y * INVERSE64, x, 887285111055 * x - q * INVERSE64);
  }

  lemma RestIsUnique(y: int, x: nat, k: int)
    requires x < TWO64 && y == x + k * TWO64
    ensures y % TWO64 == x
  {}

  /** Another low byte: the rest of the word stays, and putting the old one back restores it. */
  lemma LowByte(h: nat, x: nat)
    requires h < TWO64 && x < 256
    ensures var m := h - h % 256 + x; m < TWO64 && m % 256 == x
  {
    var q := h / 256;
    assert h == 256 * q + h % 256 && 256 * q <= TWO64 - 256;
    RestOfByte(q, x);
  }

  lemma RestOfByte(high: nat, low: nat)
    requires low < 256
    ensures (256 * high + low) % 256 == low && (256 * high + low) / 256 == high
  {}

  lemma MixBack(h: nat, b: Byte)
    requires h < TWO64
    ensures Mix(h, b) < TWO64 && Mix(Mix(h, b), b) == h
  {
    assert Pow2(8) == 256;
    XorBack(h % 256, b, 8);
    LowByte(h, Xor(h % 256, b, 8));
  }

  /** For a fixed byte the update is one-to-one on 64-bit states. */
  lemma UpdateInjective(g: nat, h: nat, b: Byte)
    requires g < TWO64 && h < TWO64 && Update(g, b) == Update(h, b)
    ensures g == h
  {
    MixBack(g, b);
    MixBack(h, b);
    TimesPrimeBack(Mix(g, b));
    TimesPrimeBack(Mix(h, b));
  }

  /** So a common suffix never merges two different states. */
  lemma {:induction false} FoldInjective(g: nat, h: nat, s: Text)
    requires g < TWO64 && h < TWO64 && Fold(g, s) == Fold(h, s)
    ensures g == h
  {
    if s != [] {
      var last := |s| - 1;
      FoldIn64(g, s[..last]);
      FoldIn64(h, s[..last]);
      UpdateInjective(Fold(g, s[..last]), Fold(h, s[..last]), s[last]);
      FoldInjective(g, h, s[..last]);
    }
  }

  lemma FoldIn64(h: nat, s: Text)
    requires h < TWO64
    ensures Fold(h, s) < TWO64
  {}

  // ---------------------------------------------------------------- the order of names

  /** Byte-wise lexicographic order, as `sort.Strings` uses. */
  predicate Less(a: Text, b: Text) {
    b != [] && (a == [] || a[0] < b[0] || (a[0] == b[0] && Less(a[1..], b[1..])))
  }

  /** The texts agree up to some place, where `a` ends or has the smaller byte. */
  lemma {:induction false} LessExactly(a: Text, b: Text)
    ensures Less(a, b) <==> exists i: nat :: PartAt(a, b, i)
  {
    if a != [] && b != [] && a[0] == b[0] {
      LessExactly(a[1..], b[1..]);
      if i: nat :| PartAt(a, b, i) { assert PartAt(a[1..], b[1..], i - 1); }
      if i: nat :| PartAt(a[1..], b[1..], i) {
        assert a == [a[0]] + a[1..] && b == [b[0]] + b[1..];
        assert PartAt(a, b, i + 1);
      }
    } else if Less(a, b) {
      assert PartAt(a, b, 0);
    }
  }

  ghost predicate PartAt(a: Text, b: Text, i: nat) {
    i <= |a| && i < |b| && (forall j :: 0 <= j < i ==> a[j] == b[j]) && (i < |a| ==> a[i] < b[i])
  }

  lemma {:induction false} LessTotal(a: Text, b: Text)
    ensures Less(a, b) || Less(b, a) || a == b
  {
    if a != [] && b != [] && a[0] == b[0] {
      LessTotal(a[1..], b[1..]);
      assert a == [a[0]] + a[1..] && b == [b[0]] + b[1..];
    }
  }

  lemma {:induction false} LessTransitive(a: Text, b: Text, c: Text)
    requires Less(a, b) && Less(b, c)
    ensures Less(a, c)
  {
    if a != [] && a[0] == b[0] == c[0] { LessTransitive(a[1..], b[1..], c[1..]); }
  }

  lemma {:induction false} LessIrreflexive(a: Text)
    ensures !Less(a, a)
  {
    if a != [] { LessIrreflexive(a[1..]); }
  }

  ghost predicate Sorted(keys: seq<Text>) { forall i, j :: 0 <= i < j < |keys| ==> Less(keys[i], keys[j]) }

  /** There is only one way to list different names in order. */
  lemma {:induction false} SortedIsUnique(a: seq<Text>, b: seq<Text>)
    requires Sorted(a) && Sorted(b) && forall k :: k in a <==> k in b
    ensures a == b
  {
    EmptyTogether(a, b);
    if a != [] {
      assert a[0] in b;
      assert b[0] in a;
      FirstIsLeast(a, b);
      FirstIsLeast(b, a);
      if a[0] != b[0] {
        LessTransitive(a[0], b[0], a[0]);
        LessIrreflexive(a[0]);
      }
      forall k ensures k in a[1..] <==> k in b[1..] {
        RestHasOthers(a, k);
        RestHasOthers(b, k);
      }
      SortedIsUnique(a[1..], b[1..]);
      assert a == [a[0]] + a[1..] && b == [b[0]] + b[1..];
    }
  }

  lemma EmptyTogether(a: seq<Text>, b: seq<Text>)
    requires forall k :: k in a <==> k in b
    ensures a == [] <==> b == []
  {
    if a != [] { assert a[0] in b; }
    if b != [] { assert b[0] in a; }
  }

  lemma FirstIsLeast(a: seq<Text>, b: seq<Text>)
    requires a != [] && b != [] && Sorted(a) && b[0] in a
    ensures a[0] == b[0] || Less(a[0], b[0])
  {}

  lemma RestHasOthers(a: seq<Text>, k: Text)
    requires a != [] && Sorted(a)
    ensures k in a[1..] <==> k in a && k != a[0]
  {
    LessIrreflexive(k);
    if k in a && k != a[0] {
      var i :| 0 <= i < |a| && a[i] == k;
      assert a[1..][i - 1] == k;
    }
  }

  /** Insertion in place of the library's sort: by SortedIsUnique any sort gives this result. */
  method SortStrings(keys: seq<Text>) returns (sorted: seq<Text>)
    requires forall i, j :: 0 <= i < j < |keys| ==> keys[i] != keys[j]
    ensures Sorted(sorted) && forall k :: k in sorted <==> k in keys
  {
    sorted := [];
    for n := 0 to |keys|
      invariant Sorted(sorted) && forall k :: k in sorted <==> k in keys[..n]
    {
      var key := keys[n];
      assert key !in keys[..n];
      var i := 0;
      while i < |sorted| && Less(sorted[i], key)
        invariant 0 <= i <= |sorted|
        invariant forall j :: 0 <= j < i ==> Less(sorted[j], key)
      {
        i := i + 1;
      }
      InsertKeepsOrder(sorted, i, key);
      assert keys[..n + 1] == keys[..n] + [key];
      sorted := sorted[..i] + [key] + sorted[i..];
    }
    assert keys[..|keys|] == keys;
  }

  lemma InsertKeepsOrder(s: seq<Text>, i: nat, key: Text)
    requires Sorted(s) && i <= |s| && key !in s
    requires forall j :: 0 <= j < i ==> Less(s[j], key)
    requires i < |s| ==> !Less(s[i], key)
    ensures Sorted(s[..i] + [key] + s[i..])
    ensures forall k :: k in s[..i] + [key] + s[i..] <==> k in s || k == key
  {
    var t := s[..i] + [key] + s[i..];
    forall j | i <= j < |s| ensures Less(key, s[j]) {
      LessTotal(s[i], key);
      if j > i { LessTransitive(key, s[i], s[j]); }
    }
    assert s == s[..i] + s[i..];
  }

  // ---------------------------------------------------------------- the fingerprint

  /** The bytes of one label: name and value, each ended by the separator. */
  function Label(k: Text, v: Text): Text { k + [SEPARATOR] + v + [SEPARATOR] }

  /** The bytes that go into the hash for names listed as `keys`. */
  function Stream(attribs: map<Text, Text>, keys: seq<Text>): Text
    requires forall k :: k in keys ==> k in attribs
  {
    if keys == [] then []
    else Label(keys[0], attribs[keys[0]]) + Stream(attribs, keys[1..])
  }

  /** `sum` is the hash of the labels in the order of their names. */
  ghost predicate IsFingerprint(attribs: map<Text, Text>, sum: nat) {
    exists keys :: InOrder(attribs, keys) && sum == Fold(OFFSET64, Stream(attribs, keys))
  }

  ghost predicate InOrder(attribs: map<Text, Text>, keys: seq<Text>) {
    Sorted(keys) && forall k :: k in keys <==> k in attribs
  }

  /** The names are read in any order and then sorted. */
  method FingerprintHash(attribs: map<Text, Text>) returns (sum: nat)
    ensures IsFingerprint(attribs, sum)
  {
    if |attribs| == 0 {
      assert attribs == map[] && InOrder(attribs, []);
      assert OFFSET64 == Fold(OFFSET64, Stream(attribs, []));
      return OFFSET64;
    }
    var names := [];
    var rest := attribs.Keys;
    while rest != {}
      invariant rest <= attribs.Keys
      invariant forall k :: k in names <==> k in attribs && k !in rest
      invariant forall i, j :: 0 <= i < j < |names| ==> names[i] != names[j]
      decreases rest
    {
      var k :| k in rest;
      names := names + [k];
      rest := rest - {k};
    }
    var keys := SortStrings(names);
    assert InOrder(attribs, keys);
    sum := HashLabels(attribs, keys);
  }

  lemma FourFolds(h: nat, k: Text, v: Text)
    ensures Fold(h, Label(k, v)) == Fold(Fold(Fold(Fold(h, k), [SEPARATOR]), v), [SEPARATOR])
  {
    FoldJoin(h, k, [SEPARATOR]);
    FoldJoin(h, k + [SEPARATOR], v);
    FoldJoin(h, k + [SEPARATOR] + v, [SEPARATOR]);
  }

  method HashLabel(h: nat, k: Text, v: Text) returns (sum: nat)
    requires h < TWO64
    ensures sum < TWO64 && sum == Fold(h, Label(k, v))
  {
    sum := HashAdd(h, k);
    sum := HashAddByte(sum, SEPARATOR);
    sum := HashAdd(sum, v);
    sum := HashAddByte(sum, SEPARATOR);
    FourFolds(h, k, v);
  }

  lemma StreamUnfolds(attribs: map<Text, Text>, keys: seq<Text>, n: nat)
    requires n < |keys| && forall k :: k in keys ==> k in attribs
    ensures Stream(attribs, keys[n..]) == Label(keys[n], attribs[keys[n]]) + Stream(attribs, keys[n + 1..])
  {
    assert keys[n..][0] == keys[n] && keys[n..][1..] == keys[n + 1..];
  }

  method HashLabels(attribs: map<Text, Text>, keys: seq<Text>) returns (sum: nat)
    requires forall k :: k in keys ==> k in attribs
    ensures sum == Fold(OFFSET64, Stream(attribs, keys))
  {
    sum := OFFSET64;
    ghost var goal := Fold(OFFSET64, Stream(attribs, keys));
    assert keys[0..] == keys;
    for n := 0 to |keys|
      invariant sum < TWO64 && Fold(sum, Stream(attribs, keys[n..])) == goal
    {
      ghost var h := sum;
      sum := HashLabel(sum, keys[n], attribs[keys[n]]);
      StreamUnfolds(attribs, keys, n);
      FoldJoin(h, Label(keys[n], attribs[keys[n]]), Stream(attribs, keys[n + 1..]));
    }
    assert keys[|keys|..] == [];
  }

  /** The fingerprint is that of the label set: two runs on the same labels, whatever order the names were read in, give
      the same value. */
  lemma FingerprintIsWellDefined(attribs: map<Text, Text>, sum: nat, other: nat)
    requires IsFingerprint(attribs, sum) && IsFingerprint(attribs, other)
    ensures sum == other
  {
    var keys :| InOrder(attribs, keys) && sum == Fold(OFFSET64, Stream(attribs, keys));
    var others :| InOrder(attribs, others) && other == Fold(OFFSET64, Stream(attribs, others));
    SortedIsUnique(keys, others);
  }

  // ---------------------------------------------------------------- what is hashed says what the labels are

  predicate Separable(s: Text) { SEPARATOR !in s }

  /** Names and values without the separator byte, which is in no UTF-8 text, can be told from the bytes hashed: equal
      byte streams come from equal label sets, so only the hash itself can make two label sets collide. */
  lemma {:induction false} StreamIsInjective(a: map<Text, Text>, keys: seq<Text>, b: map<Text, Text>, others: seq<Text>)
    requires forall k :: k in keys ==> k in a && Separable(k) && Separable(a[k])
    requires forall k :: k in others ==> k in b && Separable(k) && Separable(b[k])
    requires Stream(a, keys) == Stream(b, others)
    ensures keys == others && forall k :: k in keys ==> a[k] == b[k]
  {
    if keys != [] && others != [] {
      var k, l := keys[0], others[0];
      var restA, restB := Stream(a, keys[1..]), Stream(b, others[1..]);
      assert k + [SEPARATOR] + a[k] + [SEPARATOR] + restA == k + [SEPARATOR] + (a[k] + [SEPARATOR] + restA);
      assert l + [SEPARATOR] + b[l] + [SEPARATOR] + restB == l + [SEPARATOR] + (b[l] + [SEPARATOR] + restB);
      SplitAtSeparator(k, a[k] + [SEPARATOR] + restA, l, b[l] + [SEPARATOR] + restB);
      SplitAtSeparator(a[k], restA, b[l], restB);
      StreamIsInjective(a, keys[1..], b, others[1..]);
      assert keys == [k] + keys[1..] && others == [l] + others[1..];
    }
  }

  lemma SplitAtSeparator(s: Text, x: Text, t: Text, y: Text)
    requires Separable(s) && Separable(t) && s + [SEPARATOR] + x == t + [SEPARATOR] + y
    ensures s == t && x == y
  {
    var whole, other := s + [SEPARATOR] + x, t + [SEPARATOR] + y;
    assert whole[|s|] == SEPARATOR && other[|t|] == SEPARATOR;
    assert forall i :: 0 <= i < |s| ==> whole[i] == s[i] && s[i] in s;
    assert forall i :: 0 <= i < |t| ==> other[i] == t[i] && t[i] in t;
    assert s == whole[..|s|] && t == other[..|t|];
    assert x == whole[|s| + 1..] && y == other[|t| + 1..];
  }
}
