/** The fixed vocabularies of fetch_conferences
    (scripts/check_conferences.py:38, 42, 59, 62, 65) and the line tests
    built from them. Every test lower-cases the line and looks for a
    substring, except the date test, which looks for a month name at the
    start of a word. */
module Keywords {
  import opened Text

  /** Lines containing one of these (after lower-casing) are page chrome. */
  const NoiseWords: seq<string> := ["navigation", "search", "menu", "header"]

  /** Lines containing one of these (after lower-casing) start a record. */
  const TriggerWords: seq<string> := ["pgconf", "pgday", "postgresql conference", "nordic pgday"]

  const LocationWords: seq<string> := ["location:", "hotel", "city", "country"]

  const StatusWords: seq<string> := ["call for papers", "registration", "schedule", "published"]

  const Months: seq<string> := ["january", "february", "march", "april", "may", "june", "july",
                                "august", "september", "october", "november", "december"]

  predicate IsNoise(line: string) {
    ContainsAny(Lower(line), NoiseWords)
  }

  predicate IsTrigger(line: string) {
    ContainsAny(Lower(line), TriggerWords)
  }

  predicate IsLocationLine(line: string) {
    ContainsAny(Lower(line), LocationWords)
  }

  predicate IsStatusLine(line: string) {
    ContainsAny(Lower(line), StatusWords)
  }

  predicate StartsWithAny(s: string, words: seq<string>)
    decreases |words|
  {
    words != [] && (StartsWith(s, words[0]) || StartsWithAny(s, words[1..]))
  }

  /** Scans s for a month name that begins where a word begins: afterWord
      says whether the character before s is a word character. */
  predicate MonthFrom(s: string, afterWord: bool)
    decreases |s|
  {
    s != [] && ((!afterWord && StartsWithAny(s, Months)) || MonthFrom(s[1..], IsWordChar(s[0])))
  }

  /** The case-insensitive search for `\b(january|...|december)`: a month name
      at the start of the line or right after a non-word character. Nothing
      is required after the month name, so "Mayor" matches too. */
  predicate IsDateLine(line: string) {
    MonthFrom(Lower(line), false)
  }

  /** A month name may start exactly where the line starts or where a
      non-word character precedes it. */
  predicate MonthAt(s: string, i: int)
    requires 0 <= i <= |s|
  {
    (i == 0 || !IsWordChar(s[i - 1])) && StartsWithAny(s[i..], Months)
  }

  /** The recursive scan finds a month exactly when one stands at a word
      start of the lower-cased line. */
  lemma {:induction false} MonthFromIff(s: string, afterWord: bool)
    ensures MonthFrom(s, afterWord) <==>
      ((s != [] && !afterWord && StartsWithAny(s, Months)) ||
       exists i :: 1 <= i < |s| && MonthAt(s, i))
    decreases |s|
  {
    if s != [] {
      MonthFromIff(s[1..], IsWordChar(s[0]));
      var t := s[1..];
      if MonthFrom(t, IsWordChar(s[0])) && !(t != [] && !IsWordChar(s[0]) && StartsWithAny(t, Months)) {
        var i :| 1 <= i < |t| && MonthAt(t, i);
        assert t[i..] == s[i + 1..] && t[i - 1] == s[i];
        assert MonthAt(s, i + 1);
      }
      if t != [] && !IsWordChar(s[0]) && StartsWithAny(t, Months) {
        assert s[1..] == t;
        assert MonthAt(s, 1);
      }
      if exists i :: 1 <= i < |s| && MonthAt(s, i) {
        var i :| 1 <= i < |s| && MonthAt(s, i);
        assert t[i - 1..] == s[i..];
        if i > 1 {
          assert t[i - 2] == s[i - 1];
          assert MonthAt(t, i - 1);
        } else {
          assert t == s[i..];
        }
      }
    }
  }

  lemma {:induction false} StartsWithAnyContains(s: string, words: seq<string>)
    requires StartsWithAny(s, words)
    ensures ContainsAny(s, words)
    decreases |words|
  {
    if !StartsWith(s, words[0]) {
      StartsWithAnyContains(s, words[1..]);
    }
  }

  lemma {:induction false} ContainsAnyTail(s: string, words: seq<string>)
    requires s != [] && ContainsAny(s[1..], words)
    ensures ContainsAny(s, words)
    decreases |words|
  {
    if !Contains(s[1..], words[0]) {
      ContainsAnyTail(s, words[1..]);
    }
  }

  /** A line the date test accepts contains a month name. */
  lemma {:induction false} MonthFromContainsAny(s: string, afterWord: bool)
    requires MonthFrom(s, afterWord)
    ensures ContainsAny(s, Months)
    decreases |s|
  {
    if !afterWord && StartsWithAny(s, Months) {
      StartsWithAnyContains(s, Months);
    } else {
      MonthFromContainsAny(s[1..], IsWordChar(s[0]));
      ContainsAnyTail(s, Months);
    }
  }
}
