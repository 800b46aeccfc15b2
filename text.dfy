/** The Python string primitives the two validation scripts rely on:
    str.strip(), str.isdigit(), str.isalnum(), str.startswith(), str.zfill(),
    str.replace() of one character, str.find() of one character and
    ",".join(). Characters are restricted to ASCII: whitespace is the ASCII
    part of str.isspace(), digits are '0'..'9' and letters 'a'..'z', 'A'..'Z'. */
module Text {

  /** str.isspace() on ASCII: tab, line feed, vertical tab, form feed,
      carriage return, the separators 0x1C..0x1F and the space. */
  predicate IsSpace(c: char) {
    9 <= c as int <= 13 || 28 <= c as int <= 32
  }

  predicate IsDigit(c: char) {
    '0' <= c <= '9'
  }

  predicate IsLetter(c: char) {
    'a' <= c <= 'z' || 'A' <= c <= 'Z'
  }

  predicate IsAlnumChar(c: char) {
    IsLetter(c) || IsDigit(c)
  }

  predicate AllSpace(s: string) {
    forall k :: 0 <= k < |s| ==> IsSpace(s[k])
  }

  predicate AllDigits(s: string) {
    forall k :: 0 <= k < |s| ==> IsDigit(s[k])
  }

  /** str.isdigit(): false on the empty string. */
  predicate IsDigits(s: string) {
    |s| > 0 && AllDigits(s)
  }

  /** str.isalnum(): false on the empty string. */
  predicate IsAlnum(s: string) {
    |s| > 0 && forall k :: 0 <= k < |s| ==> IsAlnumChar(s[k])
  }

  /** str.startswith(p). */
  predicate StartsWith(s: string, p: string) {
    |p| <= |s| && s[..|p|] == p
  }

  /** str.rstrip(): drops the trailing whitespace and nothing else. */
  function TrimRight(s: string): (r: string)
    ensures |r| <= |s| && r == s[..|r|]
    ensures AllSpace(s[|r|..])
    ensures r == [] || !IsSpace(r[|r| - 1])
  {
    if s != [] && IsSpace(s[|s| - 1]) then
      var r := TrimRight(s[..|s| - 1]);
      assert s[|r|..] == s[..|s| - 1][|r|..] + [s[|s| - 1]];
      r
    else
      s
  }

  /** r is the slice of s that starts at i, with only whitespace before
      and after it. */
  predicate StripSlice(s: string, r: string, i: nat) {
    i + |r| <= |s| && r == s[i..i + |r|] && AllSpace(s[..i]) && AllSpace(s[i + |r|..])
  }

  /** str.strip(): the result is the slice of s between its leading and its
      trailing whitespace, and neither of its ends is whitespace. */
  function Strip(s: string): (r: string)
    ensures r == [] || (!IsSpace(r[0]) && !IsSpace(r[|r| - 1]))
    ensures exists i :: StripSlice(s, r, i)
  {
    if s != [] && IsSpace(s[0]) then
      var r := Strip(s[1..]);
      LeadingSpaceSlice(s, r);
      r
    else
      TrimRightSlice(s);
      TrimRight(s)
  }

  /** rstrip() leaves the slice of s from its start to its trailing
      whitespace. */
  lemma TrimRightSlice(s: string)
    ensures StripSlice(s, TrimRight(s), 0)
  {
    assert AllSpace(s[..0]);
  }

  /** A slice of s[1..] between whitespace is one of s when s starts with
      whitespace. */
  lemma LeadingSpaceSlice(s: string, r: string)
    requires s != [] && IsSpace(s[0])
    requires exists j :: StripSlice(s[1..], r, j)
    ensures exists i :: StripSlice(s, r, i)
  {
    var j :| StripSlice(s[1..], r, j);
    SliceAfterSpace(s, r, j);
  }

  lemma SliceAfterSpace(s: string, r: string, j: nat)
    requires s != [] && IsSpace(s[0]) && StripSlice(s[1..], r, j)
    ensures StripSlice(s, r, j + 1)
  {
    var t := s[1..];
    var before, after := s[..j + 1], s[j + 1 + |r|..];
    forall k | 0 <= k < |before|
      ensures IsSpace(before[k])
    {
      if k > 0 {
        assert before[k] == t[..j][k - 1];
      }
    }
    forall k | 0 <= k < |after|
      ensures IsSpace(after[k])
    {
      assert after[k] == t[j + |r|..][k];
    }
    assert t[j..j + |r|] == s[j + 1..j + 1 + |r|];
  }

  /** Stripping twice changes nothing more than stripping once. */
  lemma StripIdempotent(s: string)
    ensures Strip(Strip(s)) == Strip(s)
  {
    StripKeepsTrimmed(Strip(s));
  }

  /** A string with no whitespace at either end is its own strip. */
  lemma {:induction false} StripKeepsTrimmed(s: string)
    requires s == [] || (!IsSpace(s[0]) && !IsSpace(s[|s| - 1]))
    ensures Strip(s) == s
  {
    assert TrimRight(s) == s;
  }

  /** A string of digits has no whitespace to strip. */
  lemma DigitsAreTrimmed(s: string)
    requires IsDigits(s)
    ensures Strip(s) == s
  {
    assert IsDigit(s[0]) && IsDigit(s[|s| - 1]);
    StripKeepsTrimmed(s);
  }

  /** str.find(c), with |s| standing for "absent": the first position that
      holds c. */
  function IndexOf(s: string, c: char): (k: nat)
    ensures k <= |s|
    ensures k < |s| ==> s[k] == c
    ensures forall j :: 0 <= j < k ==> s[j] != c
  {
    if s == [] then 0
    else if s[0] == c then 0
    else 1 + IndexOf(s[1..], c)
  }

  /** IndexOf finds the c that no earlier c precedes. */
  lemma FirstOccurrence(s: string, c: char, p: nat)
    requires p < |s| && s[p] == c
    requires forall j :: 0 <= j < p ==> s[j] != c
    ensures IndexOf(s, c) == p
  {
  }

  /** The first c of a + [c] + b is the one after a, when a holds none. */
  lemma IndexOfAfter(a: string, c: char, b: string)
    requires forall j :: 0 <= j < |a| ==> a[j] != c
    ensures IndexOf(a + [c] + b, c) == |a|
  {
    var s := a + [c] + b;
    assert s[|a|] == c;
    assert forall j :: 0 <= j < |a| ==> s[j] == a[j];
  }

  /** s.replace(x, y) for one-character x and y. */
  function Replace(s: string, x: char, y: char): (r: string)
    ensures |r| == |s|
    ensures forall k :: 0 <= k < |s| ==> r[k] == (if s[k] == x then y else s[k])
  {
    if s == [] then []
    else [if s[0] == x then y else s[0]] + Replace(s[1..], x, y)
  }

  /** n copies of '0'. */
  function Zeros(n: nat): (r: string)
    ensures |r| == n
    ensures forall k :: 0 <= k < n ==> r[k] == '0'
  {
    if n == 0 then [] else Zeros(n - 1) + ['0']
  }

  /** str.zfill(w) on a string that does not start with a sign: '0's are put
      in front until the length is w; a string already that long or longer
      is returned as it is. */
  function ZFill(s: string, w: nat): (r: string)
    ensures |r| == if |s| < w then w else |s|
    ensures r[|r| - |s|..] == s
    ensures forall k :: 0 <= k < |r| - |s| ==> r[k] == '0'
  {
    if |s| < w then Zeros(w - |s|) + s else s
  }

  /** Padding a second time changes nothing. */
  lemma ZFillIdempotent(s: string, w: nat)
    ensures ZFill(ZFill(s, w), w) == ZFill(s, w)
  {
  }

  /** The decimal value of a string of digits, as int() reads it. */
  function DecimalValue(s: string): nat
    requires AllDigits(s)
  {
    if s == [] then 0
    else 10 * DecimalValue(s[..|s| - 1]) + (s[|s| - 1] as int - '0' as int)
  }

  /** zfill keeps a number's digits and its value: the result is still all
      digits and int() reads the same number from it. */
  lemma {:induction false} ZFillKeepsValue(s: string, w: nat)
    requires AllDigits(s)
    ensures AllDigits(ZFill(s, w))
    ensures DecimalValue(ZFill(s, w)) == DecimalValue(s)
  {
    if |s| < w {
      LeadingZerosKeepValue(w - |s|, s);
    }
  }

  lemma {:induction false} LeadingZerosKeepValue(n: nat, s: string)
    requires AllDigits(s)
    ensures AllDigits(Zeros(n) + s)
    ensures DecimalValue(Zeros(n) + s) == DecimalValue(s)
  {
    var t := Zeros(n) + s;
    if s == [] {
      assert t == Zeros(n);
      ZerosValue(n);
    } else {
      LeadingZerosKeepValue(n, s[..|s| - 1]);
      assert t[..|t| - 1] == Zeros(n) + s[..|s| - 1];
    }
  }

  lemma {:induction false} ZerosValue(n: nat)
    ensures AllDigits(Zeros(n))
    ensures DecimalValue(Zeros(n)) == 0
  {
    if n > 0 {
      ZerosValue(n - 1);
      assert Zeros(n)[..n - 1] == Zeros(n - 1);
    }
  }

  /** sep.join(xs). */
  function Join(sep: string, xs: seq<string>): (r: string)
    ensures xs == [] ==> r == []
    ensures |xs| == 1 ==> r == xs[0]
  {
    if xs == [] then []
    else if |xs| == 1 then xs[0]
    else xs[0] + sep + Join(sep, xs[1..])
  }

  /** Splits s at every occurrence of c, as s.split(c) does. */
  function Split(s: string, c: char): (r: seq<string>)
    ensures |r| > 0
    decreases |s|
  {
    var k := IndexOf(s, c);
    if k == |s| then [s] else [s[..k]] + Split(s[k + 1..], c)
  }

  /** ",".join can be undone by splitting at ',' as long as no joined string
      holds a ',' itself: the error column of a row still lists its reasons. */
  lemma {:induction false} SplitJoin(xs: seq<string>, c: char)
    requires |xs| > 0
    requires forall i, k :: 0 <= i < |xs| && 0 <= k < |xs[i]| ==> xs[i][k] != c
    ensures Split(Join([c], xs), c) == xs
  {
    var s := Join([c], xs);
    if |xs| == 1 {
      assert IndexOf(s, c) == |s|;
    } else {
      var tail := Join([c], xs[1..]);
      assert s == xs[0] + [c] + tail;
      IndexOfAfter(xs[0], c, tail);
      assert s[..|xs[0]|] == xs[0];
      assert s[|xs[0]| + 1..] == tail;
      SplitJoin(xs[1..], c);
    }
  }
}
