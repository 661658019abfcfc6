/**
 * The few pieces of Python string behaviour the pipeline relies on: which
 * characters count as whitespace, str.strip / lstrip / rstrip, the slice
 * s[-n:] and " ".join.
 */
module PyStr {

  /**
   * str.isspace() of one character: the code points Python counts as
   * whitespace (and str.strip() removes): \t \n \v \f \r, the four
   * information separators and the space, NEL, NO-BREAK SPACE, OGHAM SPACE
   * MARK, the spaces U+2000 to U+200A, LINE and PARAGRAPH SEPARATOR, NARROW
   * NO-BREAK SPACE, MEDIUM MATHEMATICAL SPACE and IDEOGRAPHIC SPACE.
   */
  predicate IsSpace(c: char) {
    var n := c as int;
    (0x09 <= n <= 0x0D) || (0x1C <= n <= 0x20) || n == 0x85 || n == 0xA0 || n == 0x1680
    || (0x2000 <= n <= 0x200A) || n == 0x2028 || n == 0x2029 || n == 0x202F || n == 0x205F || n == 0x3000
  }

  /** Non-empty, with no whitespace at either end. */
  predicate Trimmed(s: string) {
    s != [] && !IsSpace(s[0]) && !IsSpace(s[|s| - 1])
  }

  /** The number of leading whitespace characters. */
  function LeadingSpaces(s: string): (n: nat)
    ensures n <= |s|
    ensures forall i :: 0 <= i < n ==> IsSpace(s[i])
    ensures n < |s| ==> !IsSpace(s[n])
    decreases |s|
  {
    if s != [] && IsSpace(s[0]) then
      var n := LeadingSpaces(s[1..]);
      assert forall i :: 1 <= i < 1 + n ==> s[i] == s[1..][i - 1];
      1 + n
    else 0
  }

  /** The number of trailing whitespace characters. */
  function TrailingSpaces(s: string): (n: nat)
    ensures n <= |s|
    ensures forall i :: |s| - n <= i < |s| ==> IsSpace(s[i])
    ensures n < |s| ==> !IsSpace(s[|s| - n - 1])
    decreases |s|
  {
    if s != [] && IsSpace(s[|s| - 1]) then 1 + TrailingSpaces(s[..|s| - 1]) else 0
  }

  /** s.lstrip(): the suffix left after dropping the leading whitespace. */
  function LStrip(s: string): (r: string)
    ensures |r| <= |s| && r == s[|s| - |r|..]
    ensures r == [] || !IsSpace(r[0])
    ensures forall i :: 0 <= i < |s| - |r| ==> IsSpace(s[i])
  {
    s[LeadingSpaces(s)..]
  }

  /** s.rstrip(): the prefix left after dropping the trailing whitespace. */
  function RStrip(s: string): (r: string)
    ensures |r| <= |s| && r == s[..|r|]
    ensures r == [] || !IsSpace(r[|r| - 1])
    ensures forall i :: |r| <= i < |s| ==> IsSpace(s[i])
  {
    s[..|s| - TrailingSpaces(s)]
  }

  /**
   * s.strip(): empty exactly when s is all whitespace, trimmed otherwise, and
   * the identity on trimmed strings; StripIsInfix says which characters it keeps.
   */
  function Strip(s: string): (r: string)
    ensures r == [] || Trimmed(r)
    ensures r == [] <==> forall i :: 0 <= i < |s| ==> IsSpace(s[i])
    ensures Trimmed(s) ==> r == s
  {
    var l := LStrip(s);
    var r := RStrip(l);
    assert r != [] ==> r[0] == l[0];
    assert l != [] ==> l[0] == s[|s| - |l|];
    r
  }

  /** s.strip() is s with its leading and trailing whitespace removed: a contiguous part of s with only whitespace around it. */
  lemma StripIsInfix(s: string)
    ensures var r, k := Strip(s), |s| - |LStrip(s)|;
      && k + |r| <= |s|
      && r == s[k..k + |r|]
      && (forall i :: 0 <= i < k ==> IsSpace(s[i]))
      && (forall i :: k + |r| <= i < |s| ==> IsSpace(s[i]))
  {
    var l := LStrip(s);
    var r := RStrip(l);
    var k := |s| - |l|;
    assert forall i :: k + |r| <= i < |s| ==> s[i] == l[i - k];
  }

  /** Stripping one space-separated pair whose right part is trimmed and whose left part ends in a non-space. */
  lemma StripJoined(a: string, t: string)
    requires a != [] && !IsSpace(a[|a| - 1])
    requires Trimmed(t)
    ensures Strip(a + " " + t) == LStrip(a) + " " + t
  {
    LStripJoined(a, t);
    var l := LStrip(a) + " " + t;
    assert l[|l| - 1] == t[|t| - 1];
    RStripKeepsTrimmedEnd(l);
  }

  /** lstrip of a space-separated pair whose left part ends in a non-space. */
  lemma LStripJoined(a: string, t: string)
    requires a != [] && !IsSpace(a[|a| - 1])
    ensures LStrip(a + " " + t) == LStrip(a) + " " + t
  {
    var b := " " + t;
    assert a + " " + t == a + b;
    LStripKeepsRest(a, b);
    assert LStrip(a) + b == LStrip(a) + " " + t;
  }

  /** rstrip leaves a string that ends in a non-space unchanged. */
  lemma RStripKeepsTrimmedEnd(l: string)
    requires l != [] && !IsSpace(l[|l| - 1])
    ensures RStrip(l) == l
  {
  }

  /** Leading whitespace never reaches past a non-space character of the left operand. */
  lemma {:induction false} LStripKeepsRest(a: string, b: string)
    requires a != [] && !IsSpace(a[|a| - 1])
    ensures LStrip(a + b) == LStrip(a) + b
    decreases |a|
  {
    if IsSpace(a[0]) {
      assert (a + b)[1..] == a[1..] + b;
      LStripKeepsRest(a[1..], b);
    }
  }

  /** s[-n:] for a positive n: the last n characters, or all of s when it is shorter. */
  function Tail(s: string, n: nat): (r: string)
    requires n > 0
    ensures |r| == (if |s| <= n then |s| else n)
    ensures r == s[|s| - |r|..]
  {
    if |s| <= n then s else s[|s| - n..]
  }

  /** A suffix of a suffix is a suffix. */
  lemma SuffixOfSuffix(c: string, t: string, v: string)
    requires |t| <= |c| && t == c[|c| - |t|..]
    requires |v| <= |t| && v == t[|t| - |v|..]
    ensures v == c[|c| - |v|..]
  {
    assert forall i :: 0 <= i < |v| ==> v[i] == t[|t| - |v| + i] == c[|c| - |v| + i];
  }

  /** Stripping the front of a text that ends in a non-space keeps that last character. */
  lemma LStripKeepsLast(t: string)
    requires t != [] && !IsSpace(t[|t| - 1])
    ensures LStrip(t) != [] && LStrip(t)[|LStrip(t)| - 1] == t[|t| - 1]
  {
  }

  /** " ".join(ts). */
  function Join(ts: seq<string>): string
    decreases |ts|
  {
    if |ts| == 0 then ""
    else if |ts| == 1 then ts[0]
    else Join(ts[..|ts| - 1]) + " " + ts[|ts| - 1]
  }

  /** Joining two non-empty lists is joining each and putting one space between. */
  lemma {:induction false} JoinConcat(a: seq<string>, b: seq<string>)
    requires a != [] && b != []
    ensures Join(a + b) == Join(a) + " " + Join(b)
    decreases |b|
  {
    if |b| == 1 {
      assert (a + b)[..|a + b| - 1] == a;
    } else {
      var b' := b[..|b| - 1];
      assert (a + b)[..|a + b| - 1] == a + b';
      JoinConcat(a, b');
    }
  }

  /** The last joined string is a suffix of the join. */
  lemma JoinEndsWithLast(ts: seq<string>)
    requires ts != []
    ensures var j := Join(ts); |ts[|ts| - 1]| <= |j| && j[|j| - |ts[|ts| - 1]|..] == ts[|ts| - 1]
  {
  }
}
