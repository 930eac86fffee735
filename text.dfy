/** The handful of Python `str` operations the two scripts rely on:
    `strip`, `rstrip(c)`, `lower`, `isalnum`, `in`, `split(sep)[0]` and
    `split(sep)[1]`, and `replace('\n', '<br>')`. Each function carries only
    the bounds its callers need to be well-formed; what it means is stated
    by the lemmas that follow it. */
module Text {
  import opened Wrappers

  // ---------------------------------------------------------------------
  // Character classes
  // ---------------------------------------------------------------------

  /** `str.isspace` for one character: the code points Python treats as
      whitespace, which are the ones `str.strip()` removes. */
  predicate IsSpace(c: char) {
    var n := c as int;
    (9 <= n <= 13) || (28 <= n <= 32) || n == 0x85 || n == 0xA0 || n == 0x1680
    || (0x2000 <= n <= 0x200A) || n == 0x2028 || n == 0x2029 || n == 0x202F
    || n == 0x205F || n == 0x3000
  }

  /** `str.isalnum` for one character, on the Latin-1 range (ASCII letters
      and digits, the superscript digits, the vulgar fractions, the ordinal
      indicators, the micro sign and the accented letters). */
  predicate IsAlnum(c: char) {
    var n := c as int;
    (48 <= n <= 57) || (65 <= n <= 90) || (97 <= n <= 122)
    || n == 0xAA || n == 0xB2 || n == 0xB3 || n == 0xB5 || n == 0xB9 || n == 0xBA
    || (0xBC <= n <= 0xBE) || (0xC0 <= n <= 0xFF && n != 0xD7 && n != 0xF7)
  }

  /** `str.lower` for one character, on the Latin-1 range. */
  function LowerChar(c: char): char {
    var n := c as int;
    if (65 <= n <= 90) || (0xC0 <= n <= 0xDE && n != 0xD7) then (n + 32) as char else c
  }

  /** `str.lower`: lower-cases character by character. */
  function Lower(s: string): string {
    seq(|s|, k requires 0 <= k < |s| => LowerChar(s[k]))
  }

  /** Lower-casing keeps the length, maps each character on its own, and
      changes nothing the second time. */
  lemma LowerShape(s: string)
    ensures |Lower(s)| == |s|
    ensures forall k :: 0 <= k < |s| ==> Lower(s)[k] == LowerChar(s[k])
    ensures Lower(Lower(s)) == Lower(s)
  {
    var l := Lower(s);
    forall k | 0 <= k < |s| ensures Lower(l)[k] == l[k] {
      assert LowerChar(LowerChar(s[k])) == LowerChar(s[k]);
    }
  }

  // ---------------------------------------------------------------------
  // Trimming
  // ---------------------------------------------------------------------

  /** `str.lstrip()`. */
  function TrimLeft(s: string): (r: string)
    ensures |r| <= |s|
  {
    if s != [] && IsSpace(s[0]) then TrimLeft(s[1..]) else s
  }

  /** `lstrip` leaves the longest suffix that does not start with
      whitespace: what it removes is all whitespace. */
  lemma {:induction false} TrimLeftShape(s: string)
    ensures var r := TrimLeft(s);
      && r == s[|s| - |r|..]
      && (r == [] || !IsSpace(r[0]))
      && forall k :: 0 <= k < |s| - |r| ==> IsSpace(s[k])
  {
    if s != [] && IsSpace(s[0]) {
      TrimLeftShape(s[1..]);
      forall k | 1 <= k < |s| - |TrimLeft(s)| ensures IsSpace(s[k]) {
        assert s[k] == s[1..][k - 1];
      }
    }
  }

  /** `str.rstrip()`. */
  function TrimRight(s: string): (r: string)
    ensures |r| <= |s|
  {
    if s != [] && IsSpace(s[|s| - 1]) then TrimRight(s[..|s| - 1]) else s
  }

  /** `rstrip` leaves the longest prefix that does not end with whitespace:
      what it removes is all whitespace. */
  lemma {:induction false} TrimRightShape(s: string)
    ensures var r := TrimRight(s);
      && r == s[..|r|]
      && (r == [] || !IsSpace(r[|r| - 1]))
      && forall k :: |r| <= k < |s| ==> IsSpace(s[k])
  {
    if s != [] && IsSpace(s[|s| - 1]) {
      var front := s[..|s| - 1];
      TrimRightShape(front);
      assert front[..|TrimRight(s)|] == s[..|TrimRight(s)|];
      forall k | |TrimRight(s)| <= k < |s| - 1 ensures IsSpace(s[k]) {
        assert s[k] == front[k];
      }
    }
  }

  /** `str.strip()`. */
  function Strip(s: string): string {
    TrimRight(TrimLeft(s))
  }

  /** The stripped text has whitespace at neither end. */
  lemma StripEnds(s: string)
    ensures var r := Strip(s);
      r == [] || (!IsSpace(r[0]) && !IsSpace(r[|r| - 1]))
  {
    var t := TrimLeft(s);
    var r := TrimRight(t);
    TrimLeftShape(s);
    TrimRightShape(t);
    if r != [] {
      assert r[0] == t[0];
    }
  }

  /** `strip` removes only whitespace: `s` is the stripped text, starting
      at some `a`, with a whitespace-only prefix and suffix around it. */
  lemma StripShape(s: string)
    ensures exists a :: (0 <= a <= |s| - |Strip(s)| && OccursAt(s, Strip(s), a)
                         && (forall k :: 0 <= k < a ==> IsSpace(s[k]))
                         && (forall k :: a + |Strip(s)| <= k < |s| ==> IsSpace(s[k])))
  {
    var t := TrimLeft(s);
    var r := TrimRight(t);
    var a := |s| - |t|;
    assert Strip(s) == r;
    TrimLeftShape(s);
    TrimRightShape(t);
    assert t == s[a..];
    assert s[a..a + |r|] == s[a..][..|r|] == r;
    assert OccursAt(s, r, a);
    assert forall k :: 0 <= k < a ==> IsSpace(s[k]);
    forall k | a + |r| <= k < |s| ensures IsSpace(s[k]) {
      assert s[k] == t[k - a];
    }
    assert 0 <= a <= |s| - |r|;
  }

  /** The stripped text is a contiguous piece of the original. */
  lemma StripIsPiece(s: string)
    ensures Contains(s, Strip(s))
  {
    StripShape(s);
    var a :| 0 <= a <= |s| - |Strip(s)| && OccursAt(s, Strip(s), a);
    OccursAtContains(s, Strip(s), a);
  }

  /** Stripping empty text, or text with no whitespace at either end,
      changes nothing. */
  lemma StripIdle(s: string)
    requires s == [] || (!IsSpace(s[0]) && !IsSpace(s[|s| - 1]))
    ensures Strip(s) == s
  {
  }

  /** Stripping twice is stripping once. */
  lemma StripIdempotent(s: string)
    ensures Strip(Strip(s)) == Strip(s)
  {
    StripEnds(s);
    StripIdle(Strip(s));
  }

  /** `s.rstrip(c)`. */
  function TrimRightChar(s: string, c: char): (r: string)
    ensures |r| <= |s|
  {
    if s != [] && s[|s| - 1] == c then TrimRightChar(s[..|s| - 1], c) else s
  }

  /** `rstrip(c)` leaves the longest prefix that does not end with `c`:
      what it removes is all `c`. */
  lemma {:induction false} TrimRightCharShape(s: string, c: char)
    ensures var r := TrimRightChar(s, c);
      && r == s[..|r|]
      && (r == [] || r[|r| - 1] != c)
      && forall k :: |r| <= k < |s| ==> s[k] == c
  {
    if s != [] && s[|s| - 1] == c {
      var front := s[..|s| - 1];
      TrimRightCharShape(front, c);
      assert front[..|TrimRightChar(s, c)|] == s[..|TrimRightChar(s, c)|];
      forall k | |TrimRightChar(s, c)| <= k < |s| - 1 ensures s[k] == c {
        assert s[k] == front[k];
      }
    }
  }

  // ---------------------------------------------------------------------
  // Substrings
  // ---------------------------------------------------------------------

  predicate StartsWith(s: string, prefix: string) {
    |prefix| <= |s| && s[..|prefix|] == prefix
  }

  predicate EndsWith(s: string, suffix: string) {
    |suffix| <= |s| && s[|s| - |suffix|..] == suffix
  }

  /** `sub` occurs in `s` starting at index `i`. */
  predicate OccursAt(s: string, sub: string, i: int) {
    0 <= i && i + |sub| <= |s| && s[i..i + |sub|] == sub
  }

  /** The leftmost index at or after `from` where `sub` occurs in `s`. */
  function IndexFrom(s: string, sub: string, from: nat): (r: Option<nat>)
    decreases |s| - from
    ensures r.Some? ==> from <= r.value && r.value + |sub| <= |s|
  {
    if from + |sub| > |s| then None
    else if s[from..from + |sub|] == sub then Some(from)
    else IndexFrom(s, sub, from + 1)
  }

  /** `IndexFrom` finds the leftmost occurrence at or after `from`, and
      reports None only when there is none. */
  lemma {:induction false} IndexFromShape(s: string, sub: string, from: nat)
    decreases |s| - from
    ensures IndexFrom(s, sub, from).Some? ==> OccursAt(s, sub, IndexFrom(s, sub, from).value)
    ensures IndexFrom(s, sub, from).Some? ==>
      forall j :: from <= j < IndexFrom(s, sub, from).value ==> !OccursAt(s, sub, j)
    ensures IndexFrom(s, sub, from).None? ==> forall j :: from <= j ==> !OccursAt(s, sub, j)
  {
    if from + |sub| <= |s| && s[from..from + |sub|] != sub {
      IndexFromShape(s, sub, from + 1);
    }
  }

  /** `s.find(sub)`, with None for -1. */
  function IndexOf(s: string, sub: string): (r: Option<nat>)
    ensures r.Some? ==> r.value + |sub| <= |s|
  {
    IndexFrom(s, sub, 0)
  }

  /** `find` returns the leftmost occurrence, and None only when there is none. */
  lemma IndexOfShape(s: string, sub: string)
    ensures IndexOf(s, sub).Some? ==> OccursAt(s, sub, IndexOf(s, sub).value)
    ensures IndexOf(s, sub).Some? ==> forall j :: 0 <= j < IndexOf(s, sub).value ==> !OccursAt(s, sub, j)
    ensures IndexOf(s, sub).None? ==> forall j :: !OccursAt(s, sub, j)
  {
    IndexFromShape(s, sub, 0);
  }

  /** Python's `sub in s`. */
  predicate Contains(s: string, sub: string) {
    IndexOf(s, sub).Some?
  }

  /** Any occurrence witnesses `Contains`. */
  lemma OccursAtContains(s: string, sub: string, i: int)
    requires OccursAt(s, sub, i)
    ensures Contains(s, sub)
  {
    IndexOfShape(s, sub);
  }

  /** A piece of a string stays a piece of any string built around it. */
  lemma ContainsWithin(a: string, b: string, c: string, sub: string)
    requires Contains(b, sub)
    ensures Contains(a + b + c, sub)
  {
    IndexOfShape(b, sub);
    var i := IndexOf(b, sub).value;
    var s := a + b + c;
    assert s[|a| + i..|a| + i + |sub|] == b[i..i + |sub|];
    OccursAtContains(s, sub, |a| + i);
  }

  /** A piece of a piece of `s` is a piece of `s`. */
  lemma ContainsTrans(s: string, mid: string, sub: string)
    requires Contains(s, mid) && Contains(mid, sub)
    ensures Contains(s, sub)
  {
    IndexOfShape(s, mid);
    IndexOfShape(mid, sub);
    var i := IndexOf(s, mid).value;
    var j := IndexOf(mid, sub).value;
    forall t | 0 <= t < |sub| ensures s[i + j + t] == sub[t] {
      assert s[i + j + t] == s[i..i + |mid|][j + t];
      assert sub[t] == mid[j..j + |sub|][t];
    }
    assert s[i + j..i + j + |sub|] == sub;
    OccursAtContains(s, sub, i + j);
  }

  /** What a string contains, it contains character by character. */
  lemma ContainsChars(s: string, sub: string)
    requires Contains(s, sub)
    ensures forall c :: c in sub ==> c in s
  {
    IndexOfShape(s, sub);
    var i := IndexOf(s, sub).value;
    forall c | c in sub ensures c in s {
      var k :| 0 <= k < |sub| && sub[k] == c;
      assert s[i + k] == s[i..i + |sub|][k];
    }
  }

  /** For a one-character needle, `Contains` is `in`. */
  lemma ContainsChar(s: string, c: char)
    ensures Contains(s, [c]) <==> c in s
  {
    if c in s {
      var i :| 0 <= i < |s| && s[i] == c;
      assert s[i..i + 1] == [c];
      OccursAtContains(s, [c], i);
    }
    if Contains(s, [c]) {
      IndexOfShape(s, [c]);
      var i := IndexOf(s, [c]).value;
      assert s[i..i + 1] == [c];
      assert s[i] == c;
    }
  }

  // ---------------------------------------------------------------------
  // Splitting
  // ---------------------------------------------------------------------

  /** `s.split(sep)[0]`. */
  function SplitHead(s: string, sep: string): (r: string)
    requires sep != []
    ensures |r| <= |s|
  {
    match IndexOf(s, sep)
    case None => s
    case Some(i) => s[..i]
  }

  /** `split(sep)[0]` is the text before the first `sep`, or all of `s`
      when `sep` does not occur; it never contains `sep`. */
  lemma SplitHeadShape(s: string, sep: string)
    requires sep != []
    ensures var r := SplitHead(s, sep);
      && r == s[..|r|]
      && !Contains(r, sep)
      && (|r| < |s| <==> Contains(s, sep))
      && (|r| < |s| ==> OccursAt(s, sep, |r|))
  {
    var r := SplitHead(s, sep);
    IndexOfShape(s, sep);
    IndexOfShape(r, sep);
    forall j | OccursAt(r, sep, j) ensures OccursAt(s, sep, j) {
      assert s[j..j + |sep|] == r[j..j + |sep|];
    }
  }

  /** `split(sep)[0]` cuts at the leftmost occurrence of `sep`. */
  lemma SplitHeadAt(s: string, sep: string, i: nat)
    requires sep != [] && OccursAt(s, sep, i)
    requires forall j :: 0 <= j < i ==> !OccursAt(s, sep, j)
    ensures IndexOf(s, sep) == Some(i)
    ensures SplitHead(s, sep) == s[..i]
  {
    IndexOfShape(s, sep);
  }

  /** `s.split(sep)[1]`, defined when `sep in s`. */
  function SplitSecond(s: string, sep: string): string
    requires sep != [] && Contains(s, sep)
  {
    var i := IndexOf(s, sep).value;
    SplitHead(s[i + |sep|..], sep)
  }

  /** `split(sep)[1]` is the text between the first `sep` and the next one,
      or to the end of `s`; it never contains `sep`. */
  lemma SplitSecondShape(s: string, sep: string)
    requires sep != [] && Contains(s, sep)
    ensures var head := SplitHead(s, sep);
      var r := SplitSecond(s, sep);
      && OccursAt(s, sep, |head|)
      && StartsWith(s[|head| + |sep|..], r)
      && !Contains(r, sep)
      && (r == s[|head| + |sep|..] || OccursAt(s[|head| + |sep|..], sep, |r|))
  {
    SplitHeadShape(s, sep);
    var i := IndexOf(s, sep).value;
    SplitHeadShape(s[i + |sep|..], sep);
  }

  /** Splitting `a + [c] + b` at `c`, where `a` holds no `c`: the first
      field is `a` and the second is the first field of `b`. */
  lemma SplitAtFirst(a: string, c: char, b: string)
    requires c !in a
    ensures SplitHead(a + [c] + b, [c]) == a
    ensures Contains(a + [c] + b, [c])
    ensures SplitSecond(a + [c] + b, [c]) == SplitHead(b, [c])
  {
    var s := a + [c] + b;
    assert s[|a|..|a| + 1] == [c];
    forall j | 0 <= j < |a| ensures !OccursAt(s, [c], j) {
      assert s[j..j + 1][0] == s[j] == a[j];
    }
    SplitHeadAt(s, [c], |a|);
    assert s[..|a|] == a;
    assert s[|a| + 1..] == b;
  }

  // ---------------------------------------------------------------------
  // Replacement
  // ---------------------------------------------------------------------

  /** `s.replace('\n', '<br>')`. */
  function NewlinesToBreaks(s: string): string {
    if s == [] then []
    else (if s[0] == '\n' then "<br>" else [s[0]]) + NewlinesToBreaks(s[1..])
  }

  /** After the replacement there is no newline; text without one is left
      as it is; and every character comes from the text or from `<br>`. */
  lemma {:induction false} NewlinesToBreaksShape(s: string)
    ensures '\n' !in NewlinesToBreaks(s)
    ensures '\n' !in s ==> NewlinesToBreaks(s) == s
    ensures forall c :: c in NewlinesToBreaks(s) ==> c in s || c in "<br>"
  {
    if s != [] {
      NewlinesToBreaksShape(s[1..]);
      var head := if s[0] == '\n' then "<br>" else [s[0]];
      assert NewlinesToBreaks(s) == head + NewlinesToBreaks(s[1..]);
      forall c | c in NewlinesToBreaks(s) ensures c in s || c in "<br>" {
        if c in NewlinesToBreaks(s[1..]) {
          assert c in s[1..] || c in "<br>";
        }
      }
      if '\n' !in s {
        assert '\n' !in s[1..];
        assert s == [s[0]] + s[1..];
      }
    }
  }
}
