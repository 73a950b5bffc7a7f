/** Python's string predicates used by the core: `str.isspace` on one
    character, emptiness of `str.strip()`, and `str.endswith`. */
module TextRules {

  /** The characters Python's `str.isspace` and `str.strip()` treat as
      whitespace: the Unicode characters of category Zs or of bidirectional
      class WS, B or S. */
  predicate IsWs(c: char): (r: bool)
    ensures c == ' ' || c == '\t' || c == '\n' || c == '\r' || c as int == 0x0B || c as int == 0x0C ==> r
    ensures r ==> !('0' <= c <= '9') && !('a' <= c <= 'z') && !('A' <= c <= 'Z') && c != '.'
    ensures r ==> c as int <= 0x3000
  {
    var n := c as int;
    || 0x09 <= n <= 0x0D
    || 0x1C <= n <= 0x20
    || n == 0x85
    || n == 0xA0
    || n == 0x1680
    || 0x2000 <= n <= 0x200A
    || n == 0x2028
    || n == 0x2029
    || n == 0x202F
    || n == 0x205F
    || n == 0x3000
  }

  /** Every character of `s` is whitespace (true of the empty string). */
  predicate AllWs(s: string)
  {
    forall i :: 0 <= i < |s| ==> IsWs(s[i])
  }

  /** `s` with its leading whitespace removed. */
  function TrimLeft(s: string): (r: string)
    ensures |r| <= |s| && r == s[|s| - |r|..]
    ensures r == [] || !IsWs(r[0])
    ensures AllWs(s[..|s| - |r|])
  {
    if s != [] && IsWs(s[0]) then
      var r := TrimLeft(s[1..]);
      assert s[..|s| - |r|] == [s[0]] + s[1..][..|s| - 1 - |r|];
      r
    else s
  }

  /** `s` with its trailing whitespace removed. */
  function TrimRight(s: string): (r: string)
    ensures |r| <= |s| && r == s[..|r|]
    ensures r == [] || !IsWs(r[|r| - 1])
    ensures AllWs(s[|r|..])
  {
    if s != [] && IsWs(s[|s| - 1]) then
      var r := TrimRight(s[..|s| - 1]);
      assert s[|r|..] == s[..|s| - 1][|r|..] + [s[|s| - 1]];
      r
    else s
  }

  /** Python's `s.strip()`: leading and trailing whitespace removed. It is
      empty exactly when `s` holds nothing but whitespace, and whatever it
      keeps starts and ends with a non-whitespace character. It is the slice
      of `s` left between a whitespace prefix and a whitespace suffix. */
  function Strip(s: string): (r: string)
    ensures r == [] <==> AllWs(s)
    ensures r != [] ==> !IsWs(r[0]) && !IsWs(r[|r| - 1])
    ensures exists k :: KeptBetweenWs(s, r, k)
  {
    var left := TrimLeft(s);
    var r := TrimRight(left);
    StripSlice(s, left, r);
    KeptEmptyIff(s, r, |s| - |left|);
    r
  }

  /** `r` is the slice of `s` that starts at `k` and is preceded and
      followed in `s` only by whitespace. */
  predicate KeptBetweenWs(s: string, r: string, k: int)
  {
    0 <= k <= |s| - |r| && s[k..k + |r|] == r && AllWs(s[..k]) && AllWs(s[k + |r|..])
  }

  /** The text kept by stripping sits between a whitespace prefix and a
      whitespace suffix of `s`. */
  lemma StripSlice(s: string, left: string, r: string)
    requires left == TrimLeft(s) && r == TrimRight(left)
    ensures KeptBetweenWs(s, r, |s| - |left|)
  {
    SliceBetween(s, left, r, |s| - |left|);
  }

  /** A kept slice that is empty or starts with non-whitespace is empty
      exactly when all of `s` is whitespace. */
  lemma KeptEmptyIff(s: string, r: string, k: int)
    requires KeptBetweenWs(s, r, k) && (r == [] || !IsWs(r[0]))
    ensures r == [] <==> AllWs(s)
  {
    if r == [] {
      assert s == s[..k] + s[k..];
      AllWsAppend(s[..k], s[k..]);
    } else {
      assert s[k] == r[0];
    }
  }

  lemma SliceBetween(s: string, left: string, r: string, k: int)
    requires 0 <= k <= |s| && left == s[k..] && |r| <= |left| && r == left[..|r|]
    requires AllWs(s[..k]) && AllWs(left[|r|..])
    ensures KeptBetweenWs(s, r, k)
  {
    assert s[k..k + |r|] == r;
    assert s[k + |r|..] == left[|r|..];
  }

  /** Python's `s.endswith(suffix)`: case-sensitive suffix comparison. */
  predicate EndsWith(s: string, suffix: string): (r: bool)
    ensures r <==> |suffix| <= |s| && s == s[..|s| - |suffix|] + suffix
  {
    |suffix| <= |s| && s[|s| - |suffix|..] == suffix
  }

  /** Appending preserves all-whitespace in both directions. */
  lemma AllWsAppend(a: string, b: string)
    ensures AllWs(a + b) <==> AllWs(a) && AllWs(b)
  {
    if AllWs(a + b) {
      forall i | 0 <= i < |a| ensures IsWs(a[i]) {
        assert a[i] == (a + b)[i];
      }
      forall i | 0 <= i < |b| ensures IsWs(b[i]) {
        assert b[i] == (a + b)[|a| + i];
      }
    }
    if AllWs(a) && AllWs(b) {
      forall i | 0 <= i < |a + b| ensures IsWs((a + b)[i]) {
        if i >= |a| { assert (a + b)[i] == b[i - |a|]; }
      }
    }
  }
}
