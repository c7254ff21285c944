/** The clean-up at the end of fetch_conferences
    (scripts/check_conferences.py:80-88): keep the first record for each
    non-empty name and give every kept record an id derived from its name. */
module Dedup {
  import opened Text
  import opened Records

  // ---------------------------------------------------------------------
  // The id slug (scripts/check_conferences.py:86)

  /** The characters the pattern [^\w\s-] does not remove. */
  predicate Allowed(c: char) {
    IsWordChar(c) || IsSpace(c) || c == '-'
  }

  /** re.sub(r'[^\w\s-]', '', s): drop every character that is not allowed. */
  function Scrub(s: string): (r: string)
    ensures |r| <= |s|
    ensures forall i :: 0 <= i < |r| ==> Allowed(r[i])
  {
    if s == [] then [] else (if Allowed(s[0]) then [s[0]] else []) + Scrub(s[1..])
  }

  /** s.replace(' ', '_'): each single space becomes one underscore; other
      whitespace is left alone. */
  function Underscore(s: string): (r: string)
    ensures |r| == |s|
    ensures forall i :: 0 <= i < |s| ==> r[i] == if s[i] == ' ' then '_' else s[i]
  {
    if s == [] then [] else [if s[0] == ' ' then '_' else s[0]] + Underscore(s[1..])
  }

  /** The id of a record with the given name. */
  function Slug(name: string): string {
    Lower(Underscore(Strip(Scrub(name))))
  }

  /** An id: allowed characters only, no space, no upper-case letter, and no
      whitespace at either end. */
  predicate IsSlug(id: string) {
    && IsStripped(id)
    && forall i :: 0 <= i < |id| ==> Allowed(id[i]) && id[i] != ' ' && !IsUpper(id[i])
  }

  lemma {:induction false} ScrubAllowed(s: string)
    requires forall i :: 0 <= i < |s| ==> Allowed(s[i])
    ensures Scrub(s) == s
    decreases |s|
  {
    if s != [] {
      ScrubAllowed(s[1..]);
    }
  }

  /** Every slug has the shape of an id. */
  lemma SlugShape(name: string)
    ensures IsSlug(Slug(name))
  {
    var b := Strip(Scrub(name));
    StripAllowed(Scrub(name));
    UnderscoreShape(b);
    LowerKeepsShape(Underscore(b));
  }

  lemma UnderscoreShape(b: string)
    requires IsStripped(b) && forall i :: 0 <= i < |b| ==> Allowed(b[i])
    ensures IsStripped(Underscore(b))
    ensures forall i :: 0 <= i < |b| ==> Allowed(Underscore(b)[i]) && Underscore(b)[i] != ' '
  {
    var c := Underscore(b);
    forall i | 0 <= i < |b|
      ensures Allowed(c[i]) && c[i] != ' ' && IsSpace(c[i]) == (IsSpace(b[i]) && b[i] != ' ')
    {
    }
  }

  /** Lower-casing keeps the shape of an id and removes upper-case letters. */
  lemma LowerKeepsShape(c: string)
    requires IsStripped(c) && forall i :: 0 <= i < |c| ==> Allowed(c[i]) && c[i] != ' '
    ensures IsSlug(Lower(c))
  {
    var d := Lower(c);
    forall i | 0 <= i < |c|
      ensures Allowed(d[i]) && d[i] != ' ' && IsSpace(d[i]) == IsSpace(c[i])
    {
      LowerCharKeeps(c[i]);
    }
    LowerNormalises(c);
  }

  /** Strip keeps only characters of s. */
  lemma StripAllowed(s: string)
    requires forall i :: 0 <= i < |s| ==> Allowed(s[i])
    ensures forall i :: 0 <= i < |Strip(s)| ==> Allowed(Strip(s)[i])
  {
    var t := TrimStart(s);
    var r := TrimEnd(t);
    var k := |s| - |t|;
    assert Strip(s) == r;
    forall i | 0 <= i < |r|
      ensures Allowed(r[i])
    {
      assert r[i] == t[i];
      assert t[i] == s[k + i];
    }
  }

  /** An id is its own id: slugging is idempotent. */
  lemma SlugIdempotent(name: string)
    ensures Slug(Slug(name)) == Slug(name)
  {
    var id := Slug(name);
    SlugShape(name);
    ScrubAllowed(id);
    assert Underscore(id) == id;
    LowerIdentity(id);
  }

  lemma LowerIdentity(s: string)
    requires forall i :: 0 <= i < |s| ==> !IsUpper(s[i])
    ensures Lower(s) == s
  {
  }

  /** For a name made only of allowed characters and without surrounding
      whitespace, the id has the same length and maps each character on its
      own: every space becomes one underscore, runs are not collapsed. */
  lemma SlugOfClean(name: string)
    requires IsStripped(name) && forall i :: 0 <= i < |name| ==> Allowed(name[i])
    ensures |Slug(name)| == |name|
    ensures forall i :: 0 <= i < |name| ==>
      Slug(name)[i] == LowerChar(if name[i] == ' ' then '_' else name[i])
  {
    CleanSlug(name);
    LowerUnderscore(name);
  }

  lemma CleanSlug(name: string)
    requires IsStripped(name) && forall i :: 0 <= i < |name| ==> Allowed(name[i])
    ensures Slug(name) == Lower(Underscore(name))
  {
    ScrubAllowed(name);
  }

  lemma LowerUnderscore(s: string)
    ensures |Lower(Underscore(s))| == |s|
    ensures forall i :: 0 <= i < |s| ==>
      Lower(Underscore(s))[i] == LowerChar(if s[i] == ' ' then '_' else s[i])
  {
  }

  /** Reading an id off a clean name character by character. */
  lemma SlugMatches(name: string, id: string)
    requires IsStripped(name) && forall i :: 0 <= i < |name| ==> Allowed(name[i])
    requires |id| == |name|
    requires forall i :: 0 <= i < |name| ==> id[i] == LowerChar(if name[i] == ' ' then '_' else name[i])
    ensures Slug(name) == id
  {
    SlugOfClean(name);
  }

  /** The example id of a name with a year. */
  lemma SlugExample()
    ensures Slug("PGConf US 2025") == "pgconf_us_2025"
  {
    SlugMatches("PGConf US 2025", "pgconf_us_2025");
  }

  /** Two spaces give two underscores: runs are not collapsed. */
  lemma SlugDoubleSpace()
    ensures Slug("PGDay  Paris") == "pgday__paris"
  {
    SlugMatches("PGDay  Paris", "pgday__paris");
  }

  // ---------------------------------------------------------------------
  // Different names, one id

  lemma LowerCharKeeps(c: char)
    ensures Allowed(LowerChar(c)) == Allowed(c)
    ensures IsSpace(LowerChar(c)) == IsSpace(c)
    ensures (LowerChar(c) == ' ') == (c == ' ')
  {
  }

  lemma {:induction false} ScrubLower(s: string)
    ensures Scrub(Lower(s)) == Lower(Scrub(s))
    decreases |s|
  {
    if s != [] {
      ScrubLower(s[1..]);
      LowerTail(s);
      LowerCharKeeps(s[0]);
      var head := if Allowed(s[0]) then [s[0]] else [];
      LowerAppend(head, Scrub(s[1..]));
    }
  }

  lemma LowerTail(s: string)
    requires s != []
    ensures Lower(s) == [LowerChar(s[0])] + Lower(s[1..])
    ensures Lower(s)[1..] == Lower(s[1..])
  {
  }

  lemma LowerFront(s: string)
    requires s != []
    ensures Lower(s)[..|s| - 1] == Lower(s[..|s| - 1])
    ensures Lower(s)[|s| - 1] == LowerChar(s[|s| - 1])
  {
  }

  lemma {:induction false} LowerAppend(a: string, b: string)
    ensures Lower(a + b) == Lower(a) + Lower(b)
    decreases |a|
  {
    if a != [] {
      LowerTail(a + b);
      assert (a + b)[1..] == a[1..] + b;
      LowerAppend(a[1..], b);
    }
  }

  lemma {:induction false} TrimStartLower(s: string)
    ensures TrimStart(Lower(s)) == Lower(TrimStart(s))
    decreases |s|
  {
    if s != [] {
      LowerCharKeeps(s[0]);
      if IsSpace(s[0]) {
        assert TrimStart(Lower(s)) == TrimStart(Lower(s[1..])) by {
          LowerTail(s);
        }
        TrimStartLower(s[1..]);
      }
    }
  }

  lemma {:induction false} TrimEndLower(s: string)
    ensures TrimEnd(Lower(s)) == Lower(TrimEnd(s))
    decreases |s|
  {
    if s != [] {
      LowerFront(s);
      LowerCharKeeps(s[|s| - 1]);
      if IsSpace(s[|s| - 1]) {
        TrimEndLower(s[..|s| - 1]);
      }
    }
  }

  lemma StripLower(s: string)
    ensures Strip(Lower(s)) == Lower(Strip(s))
  {
    TrimStartLower(s);
    TrimEndLower(TrimStart(s));
  }

  lemma UnderscoreLower(s: string)
    ensures Underscore(Lower(s)) == Lower(Underscore(s))
  {
    forall i | 0 <= i < |s|
      ensures Underscore(Lower(s))[i] == Lower(Underscore(s))[i]
    {
      LowerCharKeeps(s[i]);
    }
  }

  /** Names that differ only in letter case get the same id. */
  lemma SlugIgnoresCase(name: string)
    ensures Slug(Lower(name)) == Slug(name)
  {
    var a := Scrub(name);
    ScrubLower(name);
    StripLower(a);
    UnderscoreLower(Strip(a));
    LowerNormalises(Underscore(Strip(a)));
  }

  /** Names that differ only in characters the pattern removes get the same
      id. */
  lemma SlugIgnoresPunctuation(name: string)
    ensures Slug(Scrub(name)) == Slug(name)
  {
    ScrubAllowed(Scrub(name));
  }

  /** Two distinct names, one id: the id does not identify a name. */
  lemma SlugCollision(name: string)
    requires exists i :: 0 <= i < |name| && IsUpper(name[i])
    ensures Lower(name) != name && Slug(Lower(name)) == Slug(name)
  {
    var i :| 0 <= i < |name| && IsUpper(name[i]);
    assert Lower(name)[i] != name[i];
    SlugIgnoresCase(name);
  }

  // ---------------------------------------------------------------------
  // Keeping the first record of each name (scripts/check_conferences.py:80-88)

  /** Record i is kept: its name is non-empty and no earlier record has it. */
  predicate IsFirst(rs: seq<Record>, i: nat)
    requires i < |rs|
  {
    rs[i].name != "" && forall j :: 0 <= j < i ==> rs[j].name != rs[i].name
  }

  /** The positions below n of the kept records, in order. */
  function FirstIndices(rs: seq<Record>, n: nat): (ix: seq<nat>)
    requires n <= |rs|
    ensures |ix| <= n
    ensures forall k :: 0 <= k < |ix| ==> ix[k] < n
  {
    if n == 0 then []
    else FirstIndices(rs, n - 1) + (if IsFirst(rs, n - 1) then [n - 1] else [])
  }

  /** The records at the given positions, each with its id. */
  function Identify(rs: seq<Record>, ix: seq<nat>): (out: seq<Conference>)
    requires forall k :: 0 <= k < |ix| ==> ix[k] < |rs|
    ensures |out| == |ix|
    ensures forall k :: 0 <= k < |ix| ==> out[k] == Conference(Slug(rs[ix[k]].name), rs[ix[k]])
    decreases |ix|
  {
    if ix == [] then []
    else Identify(rs, ix[..|ix| - 1]) + [Conference(Slug(rs[ix[|ix| - 1]].name), rs[ix[|ix| - 1]])]
  }

  /** The result of de-duplicating the first n records. */
  function Deduped(rs: seq<Record>, n: nat): seq<Conference>
    requires n <= |rs|
  {
    Identify(rs, FirstIndices(rs, n))
  }

  /** The non-empty names among the first n records. */
  function SeenNames(rs: seq<Record>, n: nat): set<string>
    requires n <= |rs|
  {
    set j | 0 <= j < n && rs[j].name != "" :: rs[j].name
  }

  /** The loop of fetch_conferences that builds cleaned_conferences. The
      record keeps its name and contents; the id travels beside it. */
  method DedupConferences(conferences: seq<Record>) returns (cleaned: seq<Conference>)
    ensures cleaned == Deduped(conferences, |conferences|)
  {
    cleaned := [];
    var seenNames: set<string> := {};
    for i := 0 to |conferences|
      invariant cleaned == Deduped(conferences, i)
      invariant seenNames == SeenNames(conferences, i)
    {
      var conf := conferences[i];
      DedupStep(conferences, i);
      if conf.name != "" && conf.name !in seenNames {
        var id := Slug(conf.name);
        cleaned := cleaned + [Conference(id, conf)];
        seenNames := seenNames + {conf.name};
      }
    }
  }

  /** One turn of the loop: the seen set decides IsFirst, and both the
      output and the seen set grow by at most the current record. */
  lemma DedupStep(rs: seq<Record>, i: nat)
    requires i < |rs|
    ensures IsFirst(rs, i) <==> rs[i].name != "" && rs[i].name !in SeenNames(rs, i)
    ensures Deduped(rs, i + 1) ==
      Deduped(rs, i) + (if IsFirst(rs, i) then [Conference(Slug(rs[i].name), rs[i])] else [])
    ensures SeenNames(rs, i + 1) == SeenNames(rs, i) + (if rs[i].name != "" then {rs[i].name} else {})
  {
    SeenDecides(rs, i);
    DedupedStep(rs, i);
    SeenStep(rs, i);
  }

  lemma SeenDecides(rs: seq<Record>, i: nat)
    requires i < |rs|
    ensures IsFirst(rs, i) <==> rs[i].name != "" && rs[i].name !in SeenNames(rs, i)
  {
    if rs[i].name != "" && rs[i].name in SeenNames(rs, i) {
      var j :| 0 <= j < i && rs[j].name != "" && rs[j].name == rs[i].name;
    }
    if rs[i].name != "" && !IsFirst(rs, i) {
      var j :| 0 <= j < i && rs[j].name == rs[i].name;
      assert rs[j].name in SeenNames(rs, i);
    }
  }

  lemma DedupedStep(rs: seq<Record>, i: nat)
    requires i < |rs|
    ensures Deduped(rs, i + 1) ==
      Deduped(rs, i) + (if IsFirst(rs, i) then [Conference(Slug(rs[i].name), rs[i])] else [])
  {
    var ix := FirstIndices(rs, i);
    if IsFirst(rs, i) {
      assert FirstIndices(rs, i + 1) == ix + [i];
      IdentifySnoc(rs, ix, i);
    } else {
      assert FirstIndices(rs, i + 1) == ix;
    }
  }

  lemma IdentifySnoc(rs: seq<Record>, ix: seq<nat>, i: nat)
    requires forall k :: 0 <= k < |ix| ==> ix[k] < |rs|
    requires i < |rs|
    ensures Identify(rs, ix + [i]) == Identify(rs, ix) + [Conference(Slug(rs[i].name), rs[i])]
  {
    assert (ix + [i])[..|ix|] == ix;
  }

  lemma SeenStep(rs: seq<Record>, i: nat)
    requires i < |rs|
    ensures SeenNames(rs, i + 1) == SeenNames(rs, i) + (if rs[i].name != "" then {rs[i].name} else {})
  {
  }

  // ---------------------------------------------------------------------
  // What the de-duplicated list is

  /** The kept positions are strictly increasing, and they are exactly the
      positions of first occurrences of non-empty names. */
  lemma {:induction false} FirstIndicesExact(rs: seq<Record>, n: nat)
    requires n <= |rs|
    ensures forall a, b :: 0 <= a < b < |FirstIndices(rs, n)| ==> FirstIndices(rs, n)[a] < FirstIndices(rs, n)[b]
    ensures forall k :: 0 <= k < |FirstIndices(rs, n)| ==> IsFirst(rs, FirstIndices(rs, n)[k])
    ensures forall i :: 0 <= i < n && IsFirst(rs, i) ==> i in FirstIndices(rs, n)
  {
    if n > 0 {
      FirstIndicesExact(rs, n - 1);
    }
  }

  /** The output is a subsequence of the input: its records appear in the
      input, unchanged, in the same order. Each carries its name's id. */
  lemma DedupSubsequence(rs: seq<Record>)
    ensures |Deduped(rs, |rs|)| <= |rs|
    ensures exists ix: seq<nat> ::
      && |ix| == |Deduped(rs, |rs|)|
      && (forall a, b :: 0 <= a < b < |ix| ==> ix[a] < ix[b])
      && (forall k :: 0 <= k < |ix| ==> ix[k] < |rs| && Deduped(rs, |rs|)[k].record == rs[ix[k]])
    ensures forall k :: 0 <= k < |Deduped(rs, |rs|)| ==>
      Deduped(rs, |rs|)[k].id == Slug(Deduped(rs, |rs|)[k].record.name)
  {
    var ix := FirstIndices(rs, |rs|);
    FirstIndicesExact(rs, |rs|);
    assert |ix| == |Deduped(rs, |rs|)|;
  }

  /** No name is kept twice and no empty name is kept. */
  lemma DedupUniqueNames(rs: seq<Record>)
    ensures forall a, b :: 0 <= a < b < |Deduped(rs, |rs|)| ==>
      Deduped(rs, |rs|)[a].record.name != Deduped(rs, |rs|)[b].record.name
    ensures forall k :: 0 <= k < |Deduped(rs, |rs|)| ==> Deduped(rs, |rs|)[k].record.name != ""
  {
    var ix := FirstIndices(rs, |rs|);
    var out := Deduped(rs, |rs|);
    FirstIndicesExact(rs, |rs|);
    forall a, b | 0 <= a < b < |out|
      ensures out[a].record.name != out[b].record.name
    {
      assert ix[a] < ix[b] && IsFirst(rs, ix[b]);
    }
  }

  /** Every non-empty name of the input is kept, with the first record that
      carries it. */
  lemma DedupKeepsFirst(rs: seq<Record>, i: nat)
    requires i < |rs| && rs[i].name != ""
    ensures exists k :: 0 <= k < |Deduped(rs, |rs|)| && Deduped(rs, |rs|)[k].record == rs[FirstWith(rs, rs[i].name)]
  {
    var f := FirstWith(rs, rs[i].name);
    FirstIndicesExact(rs, |rs|);
    var ix := FirstIndices(rs, |rs|);
    assert IsFirst(rs, f);
    var k :| 0 <= k < |ix| && ix[k] == f;
    assert Deduped(rs, |rs|)[k].record == rs[f];
  }

  /** Names are compared as written but ids are lower-cased, so a name with
      an upper-case letter and its lower-cased form are both kept, under one
      id: the ids of the output need not be unique. */
  lemma DedupCollision(a: Record, b: Record)
    requires exists i :: 0 <= i < |a.name| && IsUpper(a.name[i])
    requires b.name == Lower(a.name)
    ensures |Deduped([a, b], 2)| == 2
    ensures Deduped([a, b], 2)[0].record == a && Deduped([a, b], 2)[1].record == b
    ensures Deduped([a, b], 2)[0].id == Deduped([a, b], 2)[1].id
  {
    assert a.name != b.name && Slug(b.name) == Slug(a.name) by {
      SlugCollision(a.name);
    }
    assert a.name != "" && b.name != "" by {
      var i :| 0 <= i < |a.name| && IsUpper(a.name[i]);
      assert |b.name| == |a.name|;
    }
    DedupPair(a, b);
  }

  /** Two records with different non-empty names are both kept. */
  lemma DedupPair(a: Record, b: Record)
    requires a.name != "" && b.name != "" && a.name != b.name
    ensures Deduped([a, b], 2) == [Conference(Slug(a.name), a), Conference(Slug(b.name), b)]
  {
    var rs := [a, b];
    assert FirstIndices(rs, 1) == [0] by {
      assert IsFirst(rs, 0);
    }
    assert FirstIndices(rs, 2) == [0, 1] by {
      assert IsFirst(rs, 1);
    }
  }

  /** The position of the first record with the given name. */
  function FirstWith(rs: seq<Record>, name: string): (f: nat)
    requires exists i :: 0 <= i < |rs| && rs[i].name == name
    ensures f < |rs| && rs[f].name == name
    ensures forall j :: 0 <= j < f ==> rs[j].name != name
    decreases |rs|
  {
    if rs[0].name == name then 0
    else
      assert exists i :: 0 <= i < |rs[1..]| && rs[1..][i].name == name by {
        var i :| 0 <= i < |rs| && rs[i].name == name;
        assert rs[1..][i - 1] == rs[i];
      }
      1 + FirstWith(rs[1..], name)
  }
}
