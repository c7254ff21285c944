/** String helpers used by the scraper: ASCII lower-casing, substring search,
    Python's whitespace set and str.strip(). Strings are seq<char>; only the
    ASCII behaviour of the Python built-ins is modelled. */
module Text {

  /** str.lower() on one character, restricted to ASCII. */
  function LowerChar(c: char): char {
    if 'A' <= c <= 'Z' then (c as int + 32) as char else c
  }

  predicate IsUpper(c: char) {
    'A' <= c <= 'Z'
  }

  function Lower(s: string): (r: string)
    ensures |r| == |s|
    ensures forall i :: 0 <= i < |s| ==> r[i] == LowerChar(s[i])
  {
    if s == [] then [] else [LowerChar(s[0])] + Lower(s[1..])
  }

  /** Lower-casing leaves no upper-case letter and is idempotent. */
  lemma LowerNormalises(s: string)
    ensures forall i :: 0 <= i < |s| ==> !IsUpper(Lower(s)[i])
    ensures Lower(Lower(s)) == Lower(s)
  {
  }

  predicate StartsWith(s: string, p: string) {
    |p| <= |s| && s[..|p|] == p
  }

  /** Python's `w in s` for strings. */
  predicate Contains(s: string, w: string)
    decreases |s|
  {
    StartsWith(s, w) || (s != [] && Contains(s[1..], w))
  }

  /** The recursive search agrees with "w occurs at some position of s". */
  lemma {:induction false} ContainsAt(s: string, w: string)
    ensures Contains(s, w) <==> exists i :: 0 <= i <= |s| && StartsWith(s[i..], w)
  {
    if Contains(s, w) {
      if StartsWith(s, w) {
        assert s[0..] == s;
      } else {
        ContainsAt(s[1..], w);
        var i :| 0 <= i <= |s[1..]| && StartsWith(s[1..][i..], w);
        assert s[1..][i..] == s[i + 1..];
      }
    }
    if exists i :: 0 <= i <= |s| && StartsWith(s[i..], w) {
      var i :| 0 <= i <= |s| && StartsWith(s[i..], w);
      if i == 0 {
        assert s[0..] == s;
      } else {
        assert s[1..][i - 1..] == s[i..];
        ContainsAt(s[1..], w);
      }
    }
  }

  /** Lowering commutes with taking a slice. */
  lemma LowerSlice(s: string, o: nat, n: nat)
    requires o + n <= |s|
    ensures Lower(s)[o..o + n] == Lower(s[o..o + n])
  {
  }

  /** A word found in a piece of a longer string is found in the longer
      string. */
  lemma ContainsWithin(s: string, big: string, o: nat, w: string)
    requires o + |s| <= |big| && big[o..o + |s|] == s && Contains(s, w)
    ensures Contains(big, w)
  {
    ContainsAt(s, w);
    var i :| 0 <= i <= |s| && StartsWith(s[i..], w);
    forall j | 0 <= j < |w|
      ensures big[o + i..][..|w|][j] == s[i..][..|w|][j]
    {
      assert big[o + i + j] == big[o..o + |s|][i + j];
    }
    assert big[o + i..][..|w|] == s[i..][..|w|];
    assert StartsWith(big[o + i..], w);
    ContainsAt(big, w);
  }

  /** Python's `any(w in s for w in words)`. */
  predicate ContainsAny(s: string, words: seq<string>)
    decreases |words|
  {
    words != [] && (Contains(s, words[0]) || ContainsAny(s, words[1..]))
  }

  lemma {:induction false} ContainsAnyIff(s: string, words: seq<string>)
    ensures ContainsAny(s, words) <==> exists k :: 0 <= k < |words| && Contains(s, words[k])
  {
    if words != [] {
      ContainsAnyIff(s, words[1..]);
      if ContainsAny(s, words[1..]) {
        var k :| 0 <= k < |words[1..]| && Contains(s, words[1..][k]);
        assert words[k + 1] == words[1..][k];
      }
      if exists k :: 0 <= k < |words| && Contains(s, words[k]) {
        var k :| 0 <= k < |words| && Contains(s, words[k]);
        if k > 0 {
          assert words[1..][k - 1] == words[k];
        }
      }
    }
  }

  /** The empty string contains no word of a list of non-empty words. */
  lemma {:induction false} EmptyContainsNone(words: seq<string>)
    requires forall k :: 0 <= k < |words| ==> words[k] != []
    ensures !ContainsAny([], words)
    decreases |words|
  {
    if words != [] {
      EmptyContainsNone(words[1..]);
    }
  }

  /** Python's whitespace (str.isspace, re's \s), restricted to ASCII. */
  predicate IsSpace(c: char) {
    c == ' ' || 9 <= c as int <= 13 || 28 <= c as int <= 31
  }

  /** Python's \w, restricted to ASCII. */
  predicate IsWordChar(c: char) {
    'a' <= c <= 'z' || 'A' <= c <= 'Z' || '0' <= c <= '9' || c == '_'
  }

  predicate IsStripped(s: string) {
    s == [] || (!IsSpace(s[0]) && !IsSpace(s[|s| - 1]))
  }

  /** str.lstrip(): drops the leading whitespace and nothing else
      (TrimStartDropsSpaces). */
  function TrimStart(s: string): (r: string)
    ensures |r| <= |s| && r == s[|s| - |r|..]
    ensures r != [] ==> !IsSpace(r[0])
    decreases |s|
  {
    if s != [] && IsSpace(s[0]) then TrimStart(s[1..]) else s
  }

  /** str.rstrip(): drops the trailing whitespace and nothing else
      (TrimEndDropsSpaces). */
  function TrimEnd(s: string): (r: string)
    ensures |r| <= |s| && r == s[..|r|]
    ensures r != [] ==> !IsSpace(r[|r| - 1])
    decreases |s|
  {
    if s != [] && IsSpace(s[|s| - 1]) then TrimEnd(s[..|s| - 1]) else s
  }

  lemma {:induction false} TrimStartDropsSpaces(s: string)
    ensures forall i :: 0 <= i < |s| - |TrimStart(s)| ==> IsSpace(s[i])
    decreases |s|
  {
    if s != [] && IsSpace(s[0]) {
      TrimStartDropsSpaces(s[1..]);
      forall i | 0 <= i < |s| - |TrimStart(s)|
        ensures IsSpace(s[i])
      {
        if i > 0 {
          assert s[i] == s[1..][i - 1];
        }
      }
    }
  }

  lemma {:induction false} TrimEndDropsSpaces(s: string)
    ensures forall i :: |TrimEnd(s)| <= i < |s| ==> IsSpace(s[i])
    decreases |s|
  {
    if s != [] && IsSpace(s[|s| - 1]) {
      TrimEndDropsSpaces(s[..|s| - 1]);
      forall i | |TrimEnd(s)| <= i < |s|
        ensures IsSpace(s[i])
      {
        if i < |s| - 1 {
          assert s[i] == s[..|s| - 1][i];
        }
      }
    }
  }

  /** str.strip(): the result has no whitespace at either end, is no longer
      than s, and a string that is already stripped is unchanged
      (StripSlice: the result is a slice of s with only whitespace around it). */
  function Strip(s: string): (r: string)
    ensures IsStripped(r)
    ensures |r| <= |s|
    ensures IsStripped(s) ==> r == s
  {
    TrimEnd(TrimStart(s))
  }

  /** The number of whitespace characters str.lstrip() drops from s. */
  function Leading(s: string): nat {
    |s| - |TrimStart(s)|
  }

  /** str.strip() cuts a slice out of s: everything before the slice and
      everything after it is whitespace. */
  lemma StripSlice(s: string)
    ensures Leading(s) + |Strip(s)| <= |s|
    ensures Strip(s) == s[Leading(s)..Leading(s) + |Strip(s)|]
    ensures forall i :: 0 <= i < Leading(s) ==> IsSpace(s[i])
    ensures forall i :: Leading(s) + |Strip(s)| <= i < |s| ==> IsSpace(s[i])
  {
    var t := TrimStart(s);
    assert forall i :: 0 <= i < Leading(s) ==> IsSpace(s[i]) by {
      TrimStartDropsSpaces(s);
    }
    SliceTail(s, Leading(s), t);
  }

  /** What TrimEnd drops from a suffix t of s is whitespace of s, and what
      it keeps is a slice of s. */
  lemma SliceTail(s: string, a: nat, t: string)
    requires a <= |s| && t == s[a..]
    ensures a + |TrimEnd(t)| <= |s|
    ensures TrimEnd(t) == s[a..a + |TrimEnd(t)|]
    ensures forall i :: a + |TrimEnd(t)| <= i < |s| ==> IsSpace(s[i])
  {
    var r := TrimEnd(t);
    TrimEndDropsSpaces(t);
    forall i | a + |r| <= i < |s|
      ensures IsSpace(s[i])
    {
      assert s[i] == t[i - a];
    }
  }

  lemma StripKeeps(s: string)
    ensures forall i :: 0 <= i < |s| && !IsSpace(s[i]) ==> s[i] in Strip(s)
  {
    var t := TrimStart(s);
    TrimStartKeeps(s);
    TrimEndKeeps(t);
    forall i | 0 <= i < |s| && !IsSpace(s[i])
      ensures s[i] in Strip(s)
    {
      var k :| 0 <= k < |t| && t[k] == s[i];
      assert t[k] in TrimEnd(t);
    }
  }

  lemma TrimStartKeeps(s: string)
    ensures forall i :: 0 <= i < |s| && !IsSpace(s[i]) ==> s[i] in TrimStart(s)
  {
    var t := TrimStart(s);
    var d := |s| - |t|;
    assert t == s[d..];
    assert forall i :: 0 <= i < d ==> IsSpace(s[i]) by {
      TrimStartDropsSpaces(s);
    }
    forall i | 0 <= i < |s| && !IsSpace(s[i])
      ensures s[i] in t
    {
      assert d <= i;
      assert t[i - d] == s[i];
    }
  }

  lemma TrimEndKeeps(s: string)
    ensures forall i :: 0 <= i < |s| && !IsSpace(s[i]) ==> s[i] in TrimEnd(s)
  {
    var r := TrimEnd(s);
    TrimEndDropsSpaces(s);
    forall i | 0 <= i < |s| && !IsSpace(s[i])
      ensures s[i] in r
    {
      assert r[i] == s[i];
    }
  }

}
