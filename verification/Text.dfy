/**
  The pieces of Python's `str` behaviour the bot relies on: `isspace`,
  `strip()`, `split()` without arguments, `replace(old, "")` and `int()`
  applied to a string.
 */
module Text {
  import opened Wrappers

  /** Python's `str.isspace` for one character: the blanks that `split()` and `strip()` drop. */
  predicate IsSpace(c: char) {
    || ('\t' <= c <= '\r')
    || ('\U{1C}' <= c <= '\U{1F}')
    || c == ' ' || c == '\U{85}' || c == '\U{A0}' || c == '\U{1680}'
    || ('\U{2000}' <= c <= '\U{200A}')
    || c == '\U{2028}' || c == '\U{2029}' || c == '\U{202F}' || c == '\U{205F}' || c == '\U{3000}'
  }

  predicate NoSpace(s: string) {
    forall i :: 0 <= i < |s| ==> !IsSpace(s[i])
  }

  predicate AllSpace(s: string) {
    forall i :: 0 <= i < |s| ==> IsSpace(s[i])
  }

  // ---------------------------------------------------------------- strip()

  /** `s.lstrip()`: drops the leading blanks and nothing else. */
  function StripLeft(s: string): (r: string)
    ensures |r| <= |s| && r == s[|s| - |r|..]
    ensures AllSpace(s[..|s| - |r|])
    ensures r == [] || !IsSpace(r[0])
  {
    if s != [] && IsSpace(s[0]) then
      var r := StripLeft(s[1..]);
      var blanks, rest := s[..|s| - |r|], s[1..][..|s| - 1 - |r|];
      assert AllSpace(blanks) by {
        forall i | 0 < i < |blanks| ensures IsSpace(blanks[i]) {
          assert blanks[i] == rest[i - 1];
        }
      }
      r
    else s
  }

  /** `s.rstrip()`: drops the trailing blanks and nothing else. */
  function StripRight(s: string): (r: string)
    ensures |r| <= |s| && r == s[..|r|]
    ensures AllSpace(s[|r|..])
    ensures r == [] || !IsSpace(r[|r| - 1])
  {
    if s != [] && IsSpace(s[|s| - 1]) then
      var r := StripRight(s[..|s| - 1]);
      assert s[|r|..] == s[..|s| - 1][|r|..] + [s[|s| - 1]];
      r
    else s
  }

  /** `s.strip()`. */
  function Strip(s: string): (r: string)
    ensures |r| <= |s|
    ensures r == [] || (!IsSpace(r[0]) && !IsSpace(r[|r| - 1]))
  {
    StripEnds(s);
    StripRight(StripLeft(s))
  }

  /**
    `strip()` keeps one contiguous run of the text, from the end of the
    leading blanks on, and everything it cuts off on either side is blank.
   */
  lemma StripChars(s: string)
    ensures var r, i := Strip(s), |s| - |StripLeft(s)|;
            && 0 <= i <= |s| - |r|
            && (forall k :: 0 <= k < |r| ==> r[k] == s[i + k])
            && (forall k :: 0 <= k < i ==> IsSpace(s[k]))
            && (forall k :: i + |r| <= k < |s| ==> IsSpace(s[k]))
  {
    StripKept(s);
    StripCutFront(s);
    StripCutBack(s);
  }

  /** What `strip()` keeps starts and ends with a non-blank. */
  lemma StripEnds(s: string)
    ensures var l := StripLeft(s); var r := StripRight(l);
            r == [] || (!IsSpace(r[0]) && !IsSpace(r[|r| - 1]))
  {
    var l := StripLeft(s);
    var r := StripRight(l);
    if r != [] {
      assert r[0] == l[0];
    }
  }

  /** What `strip()` keeps is the text from the end of the leading blanks on. */
  lemma StripKept(s: string)
    ensures var l := StripLeft(s); var r := StripRight(l); var i := |s| - |l|;
            && 0 <= i <= |s| - |r|
            && (forall k :: 0 <= k < |r| ==> r[k] == s[i + k])
  {
    var l := StripLeft(s);
    PrefixOfSuffix(s, l, StripRight(l));
  }

  /** The characters of a prefix of a suffix sit in the whole at the suffix's offset. */
  lemma PrefixOfSuffix<T>(s: seq<T>, l: seq<T>, r: seq<T>)
    requires |l| <= |s| && l == s[|s| - |l|..]
    requires |r| <= |l| && r == l[..|r|]
    ensures forall k :: 0 <= k < |r| ==> r[k] == s[|s| - |l| + k]
  {
    forall k | 0 <= k < |r| ensures r[k] == s[|s| - |l| + k] {
      assert r[k] == l[k];
    }
  }

  /** What `strip()` cuts off in front is blank. */
  lemma StripCutFront(s: string)
    ensures var i := |s| - |StripLeft(s)|; forall k :: 0 <= k < i ==> IsSpace(s[k])
  {
    var i := |s| - |StripLeft(s)|;
    forall k | 0 <= k < i ensures IsSpace(s[k]) {
      assert s[..i][k] == s[k];
    }
  }

  /** What `strip()` cuts off at the end is blank. */
  lemma StripCutBack(s: string)
    ensures var l := StripLeft(s); var r := StripRight(l); var i := |s| - |l|;
            forall k :: i + |r| <= k < |s| ==> IsSpace(s[k])
  {
    var l := StripLeft(s);
    var r := StripRight(l);
    var i := |s| - |l|;
    forall k | i + |r| <= k < |s| ensures IsSpace(s[k]) {
      assert l[|r|..][k - i - |r|] == s[k];
    }
  }

  /** A slice of a suffix is a slice of the whole. */
  lemma SliceShift<T>(s: seq<T>, k: nat, i: nat, n: nat)
    requires k + i + n <= |s|
    ensures s[k..][i..i + n] == s[k + i..k + i + n]
  {
    var a, b := s[k..][i..i + n], s[k + i..k + i + n];
    forall m | 0 <= m < n ensures a[m] == b[m] {
    }
  }

  // ---------------------------------------------------------------- split()

  /** Length of the longest blank-free prefix of `s`. */
  function WordLen(s: string): (n: nat)
    ensures n <= |s| && NoSpace(s[..n])
    ensures n < |s| ==> IsSpace(s[n])
  {
    if s == [] || IsSpace(s[0]) then 0
    else
      var n := WordLen(s[1..]);
      assert s[..n + 1] == [s[0]] + s[1..][..n];
      n + 1
  }

  /** `s.split()`: the maximal runs of non-blank characters, in order. */
  function Split(s: string): (words: seq<string>)
    ensures forall i :: 0 <= i < |words| ==> words[i] != [] && NoSpace(words[i])
    decreases |s|
  {
    if s == [] then []
    else if IsSpace(s[0]) then Split(s[1..])
    else
      var n := WordLen(s);
      [s[..n]] + Split(s[n..])
  }

  /** Words joined, each followed by one space: a text that `split()` should take apart again. */
  function JoinWords(words: seq<string>): string {
    if words == [] then "" else words[0] + " " + JoinWords(words[1..])
  }

  lemma {:induction false} WordLenOfWord(w: string, rest: string)
    requires NoSpace(w)
    requires rest == [] || IsSpace(rest[0])
    ensures WordLen(w + rest) == |w|
    decreases |w|
  {
    if w != [] {
      assert (w + rest)[1..] == w[1..] + rest;
      WordLenOfWord(w[1..], rest);
    } else {
      assert w + rest == rest;
    }
  }

  /** `split()` takes apart what `JoinWords` put together. */
  lemma {:induction false} SplitJoin(words: seq<string>)
    requires forall i :: 0 <= i < |words| ==> words[i] != [] && NoSpace(words[i])
    ensures Split(JoinWords(words)) == words
  {
    if words != [] {
      var w, rest := words[0], JoinWords(words[1..]);
      var s := JoinWords(words);
      assert s == w + (" " + rest);
      WordLenOfWord(w, " " + rest);
      assert s[..|w|] == w;
      assert s[|w|..] == " " + rest;
      assert (" " + rest)[1..] == rest;
      SplitJoin(words[1..]);
      assert words == [w] + words[1..];
    }
  }

  /** Blanks in front of a text do not change its words. */
  lemma {:induction false} SplitSkipsLeadingBlanks(s: string)
    ensures Split(StripLeft(s)) == Split(s)
  {
    if s != [] && IsSpace(s[0]) {
      SplitSkipsLeadingBlanks(s[1..]);
    }
  }

  /** Blanks after a text do not change its words. */
  lemma {:induction false} SplitIgnoresTrailingBlanks(s: string, blanks: string)
    requires AllSpace(blanks)
    ensures Split(s + blanks) == Split(s)
    decreases |s|
  {
    if s == [] {
      assert s + blanks == blanks;
      AllBlankHasNoWords(blanks);
    } else if IsSpace(s[0]) {
      assert (s + blanks)[1..] == s[1..] + blanks;
      SplitIgnoresTrailingBlanks(s[1..], blanks);
    } else {
      var n := WordLen(s);
      WordLenOfWord(s[..n], s[n..] + blanks);
      assert s + blanks == s[..n] + (s[n..] + blanks);
      assert (s + blanks)[..n] == s[..n];
      assert (s + blanks)[n..] == s[n..] + blanks;
      if n == |s| {
        assert s[..n] + s[n..] == s;
      }
      SplitIgnoresTrailingBlanks(s[n..], blanks);
    }
  }

  lemma {:induction false} AllBlankHasNoWords(s: string)
    requires AllSpace(s)
    ensures Split(s) == []
  {
    if s != [] {
      AllBlankHasNoWords(s[1..]);
    }
  }

  /** `strip()` before `split()` changes nothing: the two give the same words. */
  lemma SplitStrip(s: string)
    ensures Split(Strip(s)) == Split(s)
  {
    var l := StripLeft(s);
    var r := StripRight(l);
    assert l == r + l[|r|..];
    SplitIgnoresTrailingBlanks(r, l[|r|..]);
    SplitSkipsLeadingBlanks(s);
  }

  // ---------------------------------------------------------------- replace(pat, "")

  /** `pat` starts at index `i` of `s`. */
  predicate OccursAt(pat: string, s: string, i: int) {
    0 <= i <= |s| - |pat| && s[i..i + |pat|] == pat
  }

  /** `pat` occurs somewhere in `s`. */
  ghost predicate Occurs(pat: string, s: string) {
    exists i :: OccursAt(pat, s, i)
  }

  /**
    `s.replace(pat, "")`: every occurrence of `pat`, found left to right
    without overlap, is cut out; an empty `pat` leaves `s` as it is.
   */
  function RemoveAll(s: string, pat: string): (r: string)
    ensures |r| <= |s|
    decreases |s|
  {
    if pat == [] || |s| < |pat| then s
    else if s[..|pat|] == pat then RemoveAll(s[|pat|..], pat)
    else [s[0]] + RemoveAll(s[1..], pat)
  }

  /** A text without the pattern comes out of `RemoveAll` unchanged. */
  lemma {:induction false} RemoveAllAbsent(s: string, pat: string)
    requires !Occurs(pat, s)
    ensures RemoveAll(s, pat) == s
    decreases |s|
  {
    if pat != [] && |s| >= |pat| {
      assert !OccursAt(pat, s, 0);
      forall i ensures !OccursAt(pat, s[1..], i) {
        if 0 <= i <= |s| - 1 - |pat| {
          SliceShift(s, 1, i, |pat|);
          assert !OccursAt(pat, s, i + 1);
        }
      }
      RemoveAllAbsent(s[1..], pat);
      assert s == [s[0]] + s[1..];
    }
  }

  /** A text without the pattern's first character has no occurrence of it. */
  lemma AbsentFirstChar(s: string, pat: string)
    requires pat != [] && forall i :: 0 <= i < |s| ==> s[i] != pat[0]
    ensures !Occurs(pat, s)
  {
    forall i | 0 <= i <= |s| - |pat| ensures !OccursAt(pat, s, i) {
      assert s[i..i + |pat|][0] == s[i];
    }
  }

  // ---------------------------------------------------------------- int()

  predicate IsDigit(c: char) {
    '0' <= c <= '9'
  }

  predicate AllDigits(s: string) {
    forall i :: 0 <= i < |s| ==> IsDigit(s[i])
  }

  /** The value of a string of ASCII digits, most significant first. */
  function DigitsValue(s: string): (n: nat)
    requires AllDigits(s)
  {
    if s == [] then 0 else 10 * DigitsValue(s[..|s| - 1]) + (s[|s| - 1] as int - '0' as int)
  }

  /**
    `int(s)` on a text without surrounding blanks: an optional sign and at
    least one ASCII digit; anything else is the `ValueError` case, `None`.
   */
  function ParseInt(s: string): (r: Option<int>)
    ensures s == [] ==> r == None
    ensures s != [] && !IsDigit(s[0]) && s[0] != '+' && s[0] != '-' ==> r == None
    ensures r.Some? && s[0] == '-' ==> r.value <= 0
    ensures r.Some? && s[0] != '-' ==> r.value >= 0
  {
    if s != [] && (s[0] == '+' || s[0] == '-') then
      var body := s[1..];
      if body != [] && AllDigits(body) then
        var v: int := DigitsValue(body);
        Some(if s[0] == '-' then -v else v)
      else None
    else if s != [] && AllDigits(s) then Some(DigitsValue(s))
    else None
  }

  /** The decimal form of a natural number, as Python's `str(n)` writes it. */
  function Decimal(n: nat): (s: string)
    ensures s != [] && AllDigits(s)
  {
    var d := ['0' + (n % 10) as char];
    if n < 10 then d else Decimal(n / 10) + d
  }

  lemma {:induction false} DigitsValueDecimal(n: nat)
    ensures DigitsValue(Decimal(n)) == n
  {
    var s := Decimal(n);
    if n >= 10 {
      DigitsValueDecimal(n / 10);
      assert s[..|s| - 1] == Decimal(n / 10);
    }
  }

  /** `int(str(n)) == n` and `int("-" + str(n)) == -n`. */
  lemma ParseIntDecimal(n: nat)
    ensures ParseInt(Decimal(n)) == Some(n)
    ensures ParseInt("-" + Decimal(n)) == Some(-(n as int))
  {
    DigitsValueDecimal(n);
    assert ("-" + Decimal(n))[1..] == Decimal(n);
  }
}
