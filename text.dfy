/** String operations the pages rely on: PostgreSQL's `ILIKE '%term%'`, JavaScript's
    `name.split('.').pop()`, the decimal rendering of a timestamp and the first
    `/`-separated segment of a storage key. */
module Text {

  /** ASCII case folding. */
  function LowerChar(c: char): char {
    if 'A' <= c <= 'Z' then (c as int + 32) as char else c
  }

  function Lower(s: string): (r: string)
    ensures |r| == |s|
    ensures forall i :: 0 <= i < |s| ==> r[i] == LowerChar(s[i])
  {
    seq(|s|, i requires 0 <= i < |s| => LowerChar(s[i]))
  }

  /** `t` occurs in `s` starting at position `k`. */
  predicate OccursAt(t: string, s: string, k: int) {
    0 <= k <= |s| - |t| && s[k..k + |t|] == t
  }

  /** `t` occurs in `s` as a contiguous run of characters. */
  predicate IsSubstring(t: string, s: string) {
    exists k | 0 <= k <= |s| - |t| :: OccursAt(t, s, k)
  }

  /** `s ILIKE '%term%'` for a term without `%`, `_` or `\`. */
  predicate ContainsIgnoringCase(s: string, term: string) {
    IsSubstring(Lower(term), Lower(s))
  }

  /** The text after the last `.` of `s`; all of `s` when it has no `.`
      (JavaScript's `s.split('.').pop()`). */
  function LastSegment(s: string): (r: string)
    ensures '.' !in r
    ensures |r| <= |s| && forall i :: 0 <= i < |r| ==> r[i] == s[|s| - |r| + i]
    ensures |r| < |s| ==> s[|s| - |r| - 1] == '.'
  {
    if s == [] then ""
    else if s[|s| - 1] == '.' then ""
    else
      var r := LastSegment(s[..|s| - 1]) + [s[|s| - 1]];
      assert s == s[..|s| - 1] + [s[|s| - 1]];
      r
  }

  /** Whatever precedes the extension, the extension is recovered. */
  lemma {:induction false} LastSegmentAfterDot(prefix: string, ext: string)
    requires '.' !in ext
    ensures LastSegment(prefix + ("." + ext)) == ext
  {
    if ext == [] {
      var s := prefix + ".";
      assert s[|s| - 1] == '.';
    } else {
      var init, last := ext[..|ext| - 1], ext[|ext| - 1];
      var shorter := prefix + ("." + init);
      assert ext == init + [last];
      assert "." + ext == ("." + init) + [last];
      var s := shorter + [last];
      assert prefix + ("." + ext) == s;
      assert s[..|s| - 1] == shorter;
      LastSegmentAfterDot(prefix, init);
    }
  }

  function DigitChar(d: nat): (c: char)
    requires d < 10
    ensures '0' <= c <= '9'
  {
    (d + '0' as int) as char
  }

  ghost predicate AllDigits(s: string) {
    forall i :: 0 <= i < |s| ==> '0' <= s[i] <= '9'
  }

  /** The decimal numeral of `n`, as JavaScript prints a non-negative integer. */
  function Decimal(n: nat): (r: string)
    ensures |r| > 0
    ensures AllDigits(r)
  {
    if n < 10 then [DigitChar(n)] else Decimal(n / 10) + [DigitChar(n % 10)]
  }

  /** The text before the first `c` in `s`; all of `s` when `c` does not occur. */
  function UpTo(s: string, c: char): (r: string)
    ensures c !in r
    ensures |r| <= |s| && forall i :: 0 <= i < |r| ==> r[i] == s[i]
    ensures |r| < |s| ==> s[|r|] == c
  {
    if s == [] || s[0] == c then "" else [s[0]] + UpTo(s[1..], c)
  }

  lemma {:induction false} UpToPrefix(a: string, c: char, rest: string)
    requires c !in a
    ensures UpTo(a + ([c] + rest), c) == a
  {
    if a != [] {
      assert (a + ([c] + rest))[1..] == a[1..] + ([c] + rest);
      UpToPrefix(a[1..], c, rest);
      assert a == [a[0]] + a[1..];
    }
  }
}
