/** The few Python string operations the chat service relies on, over `seq<char>`:
    `str.strip()`, `str.lower()`, `in` on strings, `str.split(sep)` with an explicit
    one-character separator, `str.endswith` and the tail of `str.rsplit(sep, 1)`.
    Whitespace and case are modelled on ASCII only. */
module Text {

  /** Python's `str.isspace` restricted to ASCII: space, tab, line feed, vertical tab,
      form feed, carriage return and the four separators 0x1C-0x1F. */
  predicate IsSpace(c: char) {
    c == ' ' || ('\t' <= c <= '\r') || ('\U{1C}' <= c <= '\U{1F}')
  }

  /** A string with no whitespace at either end. */
  predicate IsTrimmed(s: string) {
    s == [] || (!IsSpace(s[0]) && !IsSpace(s[|s| - 1]))
  }

  /** Every character of `s` outside the index range `[lo, hi)` is whitespace. */
  predicate SpaceOutside(s: string, lo: int, hi: int) {
    forall i :: 0 <= i < |s| && !(lo <= i < hi) ==> IsSpace(s[i])
  }

  /** `r` is the slice `s[lo..lo + |r|]` and only whitespace lies around it. */
  ghost predicate StripsAt(s: string, r: string, lo: int) {
    0 <= lo <= |s| - |r| && s[lo..lo + |r|] == r && SpaceOutside(s, lo, lo + |r|)
  }

  /** `r` is what is left of `s` once some whitespace-only prefix and suffix are cut off. */
  ghost predicate StripsTo(s: string, r: string) {
    exists lo :: StripsAt(s, r, lo)
  }

  /** Python's `str.strip()` with no argument: whitespace is dropped from the start, then
      from the end, until both ends hold a non-space character. */
  function Strip(s: string): (r: string)
    ensures IsTrimmed(r)
    decreases |s|
  {
    if s != [] && IsSpace(s[0]) then Strip(s[1..])
    else if s != [] && IsSpace(s[|s| - 1]) then Strip(s[..|s| - 1])
    else s
  }

  lemma StripsToAddFirst(s: string, r: string)
    requires s != [] && IsSpace(s[0]) && StripsTo(s[1..], r)
    ensures StripsTo(s, r)
  {
    var t := s[1..];
    var lo :| StripsAt(t, r, lo);
    assert s[lo + 1..lo + 1 + |r|] == t[lo..lo + |r|];
    assert StripsAt(s, r, lo + 1);
  }

  lemma StripsToAddLast(s: string, r: string)
    requires s != [] && IsSpace(s[|s| - 1]) && StripsTo(s[..|s| - 1], r)
    ensures StripsTo(s, r)
  {
    var t := s[..|s| - 1];
    var lo :| StripsAt(t, r, lo);
    assert s[lo..lo + |r|] == t[lo..lo + |r|];
    assert StripsAt(s, r, lo);
  }

  /** What `Strip` leaves is a slice of the input with only whitespace cut from either end. */
  lemma {:induction false} StripIsSlice(s: string)
    ensures StripsTo(s, Strip(s))
    decreases |s|
  {
    if s != [] && IsSpace(s[0]) {
      StripIsSlice(s[1..]);
      StripsToAddFirst(s, Strip(s));
    } else if s != [] && IsSpace(s[|s| - 1]) {
      StripIsSlice(s[..|s| - 1]);
      StripsToAddLast(s, Strip(s));
    } else {
      assert StripsAt(s, s, 0);
    }
  }

  lemma StripsToDropFirst(s: string, r: string)
    requires s != [] && IsSpace(s[0]) && StripsTo(s, r) && IsTrimmed(r)
    ensures StripsTo(s[1..], r)
  {
    var t := s[1..];
    var lo :| StripsAt(s, r, lo);
    if lo > 0 {
      assert t[lo - 1..lo - 1 + |r|] == s[lo..lo + |r|];
      assert StripsAt(t, r, lo - 1);
    } else {
      assert r == [];
      assert StripsAt(t, r, 0);
    }
  }

  lemma StripsToDropLast(s: string, r: string)
    requires s != [] && IsSpace(s[|s| - 1]) && StripsTo(s, r) && IsTrimmed(r)
    ensures StripsTo(s[..|s| - 1], r)
  {
    var t := s[..|s| - 1];
    var lo :| StripsAt(s, r, lo);
    if lo + |r| < |s| {
      assert t[lo..lo + |r|] == s[lo..lo + |r|];
      assert StripsAt(t, r, lo);
    } else {
      assert r == [];
      assert StripsAt(t, r, |t|);
    }
  }

  /** A string trimmed at both ends strips only to itself. */
  lemma StripsToTrimmed(s: string, r: string)
    requires IsTrimmed(s) && StripsTo(s, r) && IsTrimmed(r)
    ensures r == s
  {
    var lo :| StripsAt(s, r, lo);
    if s != [] {
      assert lo == 0;
      assert lo + |r| == |s|;
      assert s[0..|s|] == s;
    }
  }

  /** Strip has exactly one possible result: any trimmed `r` that `s` strips to is `Strip(s)`. */
  lemma {:induction false} StripUnique(s: string, r: string)
    requires StripsTo(s, r) && IsTrimmed(r)
    ensures Strip(s) == r
    decreases |s|
  {
    if s != [] && IsSpace(s[0]) {
      StripsToDropFirst(s, r);
      StripUnique(s[1..], r);
    } else if s != [] && IsSpace(s[|s| - 1]) {
      StripsToDropLast(s, r);
      StripUnique(s[..|s| - 1], r);
    } else {
      StripsToTrimmed(s, r);
    }
  }

  lemma StripKeepsOut(s: string, c: char)
    requires c !in s
    ensures c !in Strip(s)
  {
    var r := Strip(s);
    StripIsSlice(s);
    var lo :| StripsAt(s, r, lo);
    forall i | 0 <= i < |r|
      ensures r[i] != c
    {
      assert r[i] == s[lo + i];
    }
  }

  /** ASCII lower-casing of one character. */
  function ToLower(c: char): (d: char)
    ensures !('A' <= d <= 'Z')
    ensures 'A' <= c <= 'Z' ==> d as int == c as int + 32
    ensures !('A' <= c <= 'Z') ==> d == c
  {
    if 'A' <= c <= 'Z' then (c as int + 32) as char else c
  }

  /** Python's `str.lower()` on ASCII: each character is lower-cased on its own. */
  function Lower(s: string): (r: string)
    ensures |r| == |s|
    ensures forall i :: 0 <= i < |s| ==> r[i] == ToLower(s[i])
  {
    seq(|s|, i requires 0 <= i < |s| => ToLower(s[i]))
  }

  lemma LowerOf(s: string, r: string)
    requires |s| == |r| && forall i :: 0 <= i < |s| ==> ToLower(s[i]) == r[i]
    ensures Lower(s) == r
  {
  }

  /** Lower-casing twice is lower-casing once. */
  lemma LowerIdempotent(s: string)
    ensures Lower(Lower(s)) == Lower(s)
  {
    assert forall i :: 0 <= i < |s| ==> ToLower(ToLower(s[i])) == ToLower(s[i]);
  }

  /** The pattern occurs in `s` starting at index `i`. */
  ghost predicate OccursAt(s: string, pat: string, i: int) {
    0 <= i && i + |pat| <= |s| && s[i..i + |pat|] == pat
  }

  /** Python's `pat in s` for strings. */
  function Contains(s: string, pat: string): bool
    decreases |s|
  {
    |pat| <= |s| && (s[..|pat|] == pat || Contains(s[1..], pat))
  }

  /** `Contains` holds exactly when the pattern occurs at some index. */
  lemma {:induction false} ContainsIff(s: string, pat: string)
    ensures Contains(s, pat) <==> exists i :: OccursAt(s, pat, i)
    decreases |s|
  {
    if |pat| > |s| {
      assert forall i :: !OccursAt(s, pat, i);
    } else if s[..|pat|] == pat {
      assert OccursAt(s, pat, 0);
    } else {
      ContainsIff(s[1..], pat);
      forall i | OccursAt(s[1..], pat, i)
        ensures OccursAt(s, pat, i + 1)
      {
        assert s[1..][i..i + |pat|] == s[i + 1..i + 1 + |pat|];
      }
      forall i | OccursAt(s, pat, i)
        ensures OccursAt(s[1..], pat, i - 1)
      {
        assert i != 0;
        assert s[1..][i - 1..i - 1 + |pat|] == s[i..i + |pat|];
      }
    }
  }

  /** An occurrence at a known index is enough for `Contains`. */
  lemma ContainsAt(s: string, pat: string, i: nat)
    requires i + |pat| <= |s| && s[i..i + |pat|] == pat
    ensures Contains(s, pat)
  {
    assert OccursAt(s, pat, i);
    ContainsIff(s, pat);
  }

  /** An occurrence survives lower-casing: if `pat` is in `s`, then `Lower(pat)` is in `Lower(s)`. */
  lemma ContainsLower(s: string, pat: string)
    requires Contains(s, pat)
    ensures Contains(Lower(s), Lower(pat))
  {
    ContainsIff(s, pat);
    var i :| OccursAt(s, pat, i);
    forall k | 0 <= k < |pat|
      ensures Lower(s)[i + k] == Lower(pat)[k]
    {
      assert s[i + k] == s[i..i + |pat|][k];
    }
    assert Lower(s)[i..i + |pat|] == Lower(pat);
    ContainsAt(Lower(s), Lower(pat), i);
  }

  /** Number of occurrences of `c` in `s`. */
  function Occurrences(s: string, c: char): nat {
    if s == [] then 0 else (if s[0] == c then 1 else 0) + Occurrences(s[1..], c)
  }

  /** Python's `s.split(sep)`: cut at every separator, keeping empty fields, so there is
      always one more field than separators. */
  function Split(s: string, sep: char): (parts: seq<string>)
    ensures |parts| == Occurrences(s, sep) + 1
    ensures forall k :: 0 <= k < |parts| ==> sep !in parts[k]
    decreases |s|
  {
    if s == [] then
      [[]]
    else
      var rest := Split(s[1..], sep);
      if s[0] == sep then [[]] + rest else [[s[0]] + rest[0]] + rest[1..]
  }

  /** Python's `sep.join(parts)`, the reference inverse of `Split`. */
  function Join(parts: seq<string>, sep: char): string
    decreases |parts|
  {
    if |parts| == 0 then []
    else if |parts| == 1 then parts[0]
    else parts[0] + [sep] + Join(parts[1..], sep)
  }

  /** Joining the fields of a split gives back the string. */
  lemma {:induction false} JoinSplit(s: string, sep: char)
    ensures Join(Split(s, sep), sep) == s
    decreases |s|
  {
    if s != [] {
      var rest := Split(s[1..], sep);
      JoinSplit(s[1..], sep);
      if s[0] == sep {
        assert ([[]] + rest)[1..] == rest;
      } else if |rest| > 1 {
        var parts := [[s[0]] + rest[0]] + rest[1..];
        assert parts[1..] == rest[1..];
        assert Join(rest, sep) == rest[0] + [sep] + Join(rest[1..], sep);
      }
    }
  }

  lemma {:induction false} SplitNoSeparator(a: string, sep: char)
    requires sep !in a
    ensures Split(a, sep) == [a]
    decreases |a|
  {
    if a != [] {
      SplitNoSeparator(a[1..], sep);
      assert [a[0]] + a[1..] == a;
    }
  }

  lemma {:induction false} SplitAtSeparator(a: string, b: string, sep: char)
    requires sep !in a
    ensures Split(a + [sep] + b, sep) == [a] + Split(b, sep)
    decreases |a|
  {
    var s := a + [sep] + b;
    if a == [] {
      assert s[1..] == b;
    } else {
      assert s[1..] == a[1..] + [sep] + b;
      SplitAtSeparator(a[1..], b, sep);
      assert [a[0]] + a[1..] == a;
    }
  }

  /** Splitting a join of separator-free fields gives back the fields. */
  lemma {:induction false} SplitJoin(parts: seq<string>, sep: char)
    requires |parts| > 0
    requires forall k :: 0 <= k < |parts| ==> sep !in parts[k]
    ensures Split(Join(parts, sep), sep) == parts
    decreases |parts|
  {
    if |parts| == 1 {
      SplitNoSeparator(parts[0], sep);
    } else {
      SplitJoin(parts[1..], sep);
      SplitAtSeparator(parts[0], Join(parts[1..], sep), sep);
      assert [parts[0]] + parts[1..] == parts;
    }
  }

  /** A character absent from `s` is absent from every field of a split of `s`. */
  lemma {:induction false} SplitKeepsOut(s: string, sep: char, c: char)
    requires c !in s
    ensures forall k :: 0 <= k < |Split(s, sep)| ==> c !in Split(s, sep)[k]
    decreases |s|
  {
    if s != [] {
      assert forall j :: 0 <= j < |s| - 1 ==> s[1..][j] == s[j + 1];
      SplitKeepsOut(s[1..], sep, c);
    }
  }

  /** Python's `s.endswith(suffix)`. */
  predicate EndsWith(s: string, suffix: string) {
    |suffix| <= |s| && s[|s| - |suffix|..] == suffix
  }

  /** A suffix with no upper-case letter survives lower-casing. */
  lemma LowerOfSuffix(s: string, suffix: string)
    requires forall k :: 0 <= k < |suffix| ==> !('A' <= suffix[k] <= 'Z')
    ensures EndsWith(s, suffix) ==> EndsWith(Lower(s), suffix)
  {
    if EndsWith(s, suffix) {
      var n := |s| - |suffix|;
      forall k | 0 <= k < |suffix|
        ensures Lower(s)[n..][k] == suffix[k]
      {
        assert s[n..][k] == suffix[k];
      }
      assert Lower(s)[n..] == suffix;
    }
  }

  /** `s.rsplit(sep, 1)[1]`: the text after the last separator. */
  function AfterLast(s: string, sep: char): (r: string)
    requires sep in s
    ensures |r| < |s| && s[|s| - |r| - 1] == sep && s[|s| - |r|..] == r
    ensures sep !in r
  {
    if s[|s| - 1] == sep then
      []
    else
      var init := s[..|s| - 1];
      assert sep in init by {
        var i :| 0 <= i < |s| && s[i] == sep;
        assert init[i] == sep;
      }
      var r := AfterLast(init, sep) + [s[|s| - 1]];
      assert s[|s| - |r|..] == init[|init| - |r| + 1..] + [s[|s| - 1]];
      r
  }
}
