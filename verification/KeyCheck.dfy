/** Which JSON keys are taken for generated ones, and which need backticks in a path. */
module KeyCheck {
  import opened DottedPaths

  const MAX_KEY_LENGTH: nat := 256

  predicate IsDigit(c: char) { '0' <= c <= '9' }

  predicate IsUpper(c: char) { 'A' <= c <= 'Z' }

  predicate IsAsciiLetter(c: char) { 'a' <= c <= 'z' || IsUpper(c) }

  predicate IsHex(c: char) { IsDigit(c) || 'a' <= c <= 'f' || 'A' <= c <= 'F' }

  predicate All(s: string, p: char -> bool) { forall i :: 0 <= i < |s| ==> p(s[i]) }

  predicate Some(s: string, p: char -> bool) { exists i :: 0 <= i < |s| && p(s[i]) }

  predicate IsBacktickRequired(key: string) { ':' in key || '@' in key || '-' in key }

  predicate ContainsDigits(s: string) { Some(s, IsDigit) }

  predicate IsAllowed(c: char) { IsAsciiLetter(c) || IsDigit(c) || c in {'_', '.', ':', '@', '-'} }

  predicate HasNonAllowedSymbols(s: string) { Some(s, c => !IsAllowed(c)) }

  // ---------------------------------------------------------------- random segments

  /** The UUID pattern: hexadecimal groups of 8-4-4-4-12 with a version digit 1 to 5 and a variant 8, 9, a or b. */
  predicate MatchesUuid(s: string) {
    && |s| == 36
    && (forall i :: 0 <= i < 36 ==> if i in {8, 13, 18, 23} then s[i] == '-' else IsHex(s[i]))
    && '1' <= s[14] <= '5' && s[19] in {'8', '9', 'a', 'b', 'A', 'B'}
  }

  predicate MatchesHex(s: string) { |s| >= 16 && All(s, IsHex) }

  predicate IsBase64Char(c: char) { IsAsciiLetter(c) || IsDigit(c) || c == '+' || c == '/' }

  /** At least 16 characters of the alphabet and up to two padding characters. */
  predicate MatchesBase64(s: string) {
    exists n :: 16 <= n <= |s| <= n + 2 && All(s[..n], IsBase64Char) && All(s[n..], c => c == '=')
  }

  /** `isLetter` stands for Unicode letters; it holds of the ASCII ones. */
  predicate IsBase64String(s: string, isLetter: char -> bool) { Some(s, c => !isLetter(c)) && MatchesBase64(s) }

  predicate MatchesTimestamp(s: string) { |s| == 13 && All(s, IsDigit) }

  predicate IsUlid(s: string) {
    |s| == 26 && All(s, c => (IsUpper(c) || IsDigit(c)) && c !in {'I', 'L', 'O', 'U'})
  }

  predicate IsRandomSegment(s: string, isLetter: char -> bool) {
    || |s| > MAX_KEY_LENGTH || MatchesUuid(s) || MatchesHex(s) || IsBase64String(s, isLetter)
    || MatchesTimestamp(s) || IsUlid(s)
  }

  predicate ProcessKeySegments(key: string, isLetter: char -> bool) {
    exists i :: 0 <= i < |Segments(key)| && Segments(key)[i] != "" && IsRandomSegment(Segments(key)[i], isLetter)
  }

  predicate IsCardinalWith(key: string, isLetter: char -> bool) {
    ContainsDigits(key) || HasNonAllowedSymbols(key) || ProcessKeySegments(key, isLetter)
  }

  predicate IsCardinal(key: string) { IsCardinalWith(key, IsAsciiLetter) }

  // ---------------------------------------------------------------- what the tests amount to

  /** A segment free of digits and of foreign symbols is random only by its length, as a run of sixteen or more
      letters a to f, or as 26 capitals without I, L, O and U: the UUID, base64 and timestamp patterns never match. */
  lemma SegmentTestsThatRemain(s: string, isLetter: char -> bool)
    requires forall c :: c in s ==> !IsDigit(c) && IsAllowed(c)
    requires forall c :: 'a' <= c <= 'z' || 'A' <= c <= 'Z' ==> isLetter(c)
    ensures IsRandomSegment(s, isLetter) <==> LooksRandom(s)
  {
    assert forall i :: 0 <= i < |s| ==> s[i] in s;
    assert (|s| > 0 ==> !IsDigit(s[0])) && (|s| > 14 ==> !IsDigit(s[14]));
    if MatchesBase64(s) { OnlyLetters(s); }
  }

  lemma OnlyLetters(s: string)
    requires forall c :: c in s ==> !IsDigit(c) && IsAllowed(c)
    requires MatchesBase64(s)
    ensures All(s, IsAsciiLetter)
  {
    var n :| 16 <= n <= |s| <= n + 2 && All(s[..n], IsBase64Char) && All(s[n..], c => c == '=');
    forall i | 0 <= i < |s| ensures IsAsciiLetter(s[i]) {
      assert s[i] in s;
      assert IsBase64Char(s[i]) || s[i] == '=' by {
        if i < n { assert s[..n][i] == s[i]; } else { assert s[n..][i - n] == s[i]; }
      }
    }
  }

  /** Letters, and the symbols that keys may have. */
  predicate IsPlainChar(c: char) { 'a' <= c <= 'z' || 'A' <= c <= 'Z' || c in {'_', '.', ':', '@', '-'} }

  lemma CharactersExactly(key: string)
    ensures ContainsDigits(key) || HasNonAllowedSymbols(key) <==> exists c :: c in key && !IsPlainChar(c)
  {
    if ContainsDigits(key) {
      var i :| 0 <= i < |key| && IsDigit(key[i]);
      assert key[i] in key && !IsPlainChar(key[i]);
    } else if HasNonAllowedSymbols(key) {
      var i :| 0 <= i < |key| && !IsAllowed(key[i]);
      assert key[i] in key && !IsPlainChar(key[i]);
    }
    if c :| c in key && !IsPlainChar(c) {
      var i :| 0 <= i < |key| && key[i] == c;
      assert IsDigit(key[i]) || !IsAllowed(key[i]);
    }
  }

  /** For any notion of letter that includes the ASCII letters, a key is taken for a generated one exactly when it has a
      character other than a letter, an underscore, a dot, a colon, an at sign and a hyphen, or a dot-separated segment
      that is too long, a run of hexadecimal letters or a ULID without digits. */
  lemma CardinalExactly(key: string, isLetter: char -> bool)
    requires forall c :: 'a' <= c <= 'z' || 'A' <= c <= 'Z' ==> isLetter(c)
    ensures IsCardinalWith(key, isLetter) <==>
      || (exists c :: c in key && !IsPlainChar(c))
      || exists i :: 0 <= i < |Segments(key)| && LooksRandom(Segments(key)[i])
  {
    CharactersExactly(key);
    if forall c :: c in key ==> IsPlainChar(c) {
      forall i | 0 <= i < |Segments(key)|
        ensures Segments(key)[i] != "" && IsRandomSegment(Segments(key)[i], isLetter) <==> LooksRandom(Segments(key)[i])
      {
        forall c | c in Segments(key)[i] ensures !IsDigit(c) && IsAllowed(c) { assert c in key && IsPlainChar(c); }
        SegmentTestsThatRemain(Segments(key)[i], isLetter);
      }
    }
  }

  /** More than 256 characters, or 16 and more from a to f and A to F, or 26 capitals without I, L, O and U. */
  predicate LooksRandom(s: string) {
    || |s| > 256
    || (|s| >= 16 && forall i :: 0 <= i < |s| ==> 'a' <= s[i] <= 'f' || 'A' <= s[i] <= 'F')
    || (|s| == 26 && forall i :: 0 <= i < 26 ==> 'A' <= s[i] <= 'Z' && s[i] !in {'I', 'L', 'O', 'U'})
  }
}
