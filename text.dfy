/** String helpers: substring occurrence, line segments and Python's `str.strip()`. */
module Text {

  /** `pat` occurs in `s` starting at index `i`. */
  predicate At(s: string, i: nat, pat: string)
  {
    i + |pat| <= |s| && s[i..i + |pat|] == pat
  }

  /** `s[lo..hi]` holds no newline: a regex `.` can run across all of it. */
  predicate OnLine(s: string, lo: nat, hi: nat)
  {
    hi <= |s| && forall i :: lo <= i < hi ==> s[i] != '\n'
  }

  /** The characters `str.isspace()` accepts, which `str.strip()` removes. */
  predicate IsSpace(c: char)
  {
    var n := c as int;
    n == 0x20 || 0x09 <= n <= 0x0D || 0x1C <= n <= 0x1F || n == 0x85 || n == 0xA0 ||
    n == 0x1680 || 0x2000 <= n <= 0x200A || n == 0x2028 || n == 0x2029 ||
    n == 0x202F || n == 0x205F || n == 0x3000
  }

  /** Every character of `s[lo..hi]` is whitespace. */
  predicate AllSpace(s: string, lo: nat, hi: nat)
    requires lo <= hi <= |s|
  {
    forall i :: lo <= i < hi ==> IsSpace(s[i])
  }

  /** The length of the whitespace prefix of `s`. */
  function LeadingSpace(s: string): (n: nat)
    ensures n <= |s| && AllSpace(s, 0, n)
    ensures n < |s| ==> !IsSpace(s[n])
  {
    if s != [] && IsSpace(s[0]) then 1 + LeadingSpace(s[1..]) else 0
  }

  /** The length of the whitespace suffix of `s`. */
  function TrailingSpace(s: string): (n: nat)
    ensures n <= |s| && AllSpace(s, |s| - n, |s|)
    ensures n < |s| ==> !IsSpace(s[|s| - 1 - n])
  {
    if s != [] && IsSpace(s[|s| - 1]) then 1 + TrailingSpace(s[..|s| - 1]) else 0
  }

  /** `s.strip()`: `s` without its leading and trailing whitespace. */
  function Strip(s: string): string
  {
    var rest := s[LeadingSpace(s)..];
    rest[..|rest| - TrailingSpace(rest)]
  }

  /** `Strip` is characterised by the cut: if `s[lo..hi]` is flanked by whitespace
      on both sides and neither starts nor ends with whitespace, it is `s.strip()`. */
  lemma StripIs(s: string, lo: nat, hi: nat)
    requires lo <= hi <= |s| && AllSpace(s, 0, lo) && AllSpace(s, hi, |s|)
    requires lo < hi ==> !IsSpace(s[lo]) && !IsSpace(s[hi - 1])
    ensures Strip(s) == s[lo..hi]
  {
    var lead := LeadingSpace(s);
    if lo == hi {
      assert AllSpace(s, 0, |s|) by {
        forall i | 0 <= i < |s| ensures IsSpace(s[i]) {
          if i < lo { assert AllSpace(s, 0, lo); } else { assert AllSpace(s, hi, |s|); }
        }
      }
      assert lead == |s|;
    } else {
      assert lead == lo;
      var rest := s[lo..];
      var trail := TrailingSpace(rest);
      assert AllSpace(rest, hi - lo, |rest|) by {
        forall i | hi - lo <= i < |rest| ensures IsSpace(rest[i]) { assert rest[i] == s[lo + i]; }
      }
      assert rest[hi - lo - 1] == s[hi - 1];
      assert trail == |s| - hi;
      assert rest[..|rest| - trail] == s[lo..hi];
    }
  }

  /** The result of `strip()` neither starts nor ends with whitespace, and it is
      `s` with a whitespace prefix and a whitespace suffix cut off. */
  lemma StripShape(s: string)
    ensures var r := Strip(s);
      |r| <= |s| && (r != [] ==> !IsSpace(r[0]) && !IsSpace(r[|r| - 1]))
    ensures Strip(s) == [] <==> AllSpace(s, 0, |s|)
  {
    var lead := LeadingSpace(s);
    var rest := s[lead..];
    var trail := TrailingSpace(rest);
    var r := Strip(s);
    assert r == rest[..|rest| - trail];
    if r != [] {
      assert r[0] == s[lead];
      assert r[|r| - 1] == rest[|rest| - 1 - trail];
    }
  }

  /** Stripping twice changes nothing. */
  lemma StripIdempotent(s: string)
    ensures Strip(Strip(s)) == Strip(s)
  {
    var r := Strip(s);
    StripShape(s);
    StripIs(r, 0, |r|);
    assert r[0..|r|] == r;
  }
}
