/** What the extractor's result says about its input: one record per
    non-noise trigger line, in order and named by it; the lines between two
    trigger lines as the details of the first; the three optional fields as
    the last matching detail line. Stated for Extract, which the loop of
    fetch_conferences computes on normalized input (ExtractConferences). */
module ExtractorFacts {
  import opened Text
  import opened Records
  import opened Extractor
  import Keywords

  /** The lines of ls that pass the trigger test, in order. */
  function Triggers(t: Tests, ls: seq<string>): seq<string>
    decreases |ls|
  {
    if ls == [] then []
    else (if t.trigger(ls[0]) then [ls[0]] else []) + Triggers(t, ls[1..])
  }

  /** Each record written back as its name line followed by its detail lines. */
  function Layout(rs: seq<Record>): seq<string>
    decreases |rs|
  {
    if rs == [] then [] else [rs[0].name] + rs[0].details + Layout(rs[1..])
  }

  lemma LayoutCons(r: Record, rs: seq<Record>)
    ensures Layout([r] + rs) == [r.name] + r.details + Layout(rs)
  {
    assert ([r] + rs)[1..] == rs;
  }

  lemma {:induction false} SectionsLayout(t: Tests, ls: seq<string>)
    ensures Layout(Sections(t, ls)) == ls
    decreases |ls|
  {
    if ls != [] {
      var n := LeadingDetails(t, ls[1..]);
      var head := MakeRecord(t, ls[0], ls[1..1 + n]);
      assert Layout(Sections(t, ls)) == [ls[0]] + ls[1..1 + n] + Layout(Sections(t, ls[1 + n..])) by {
        LayoutCons(head, Sections(t, ls[1 + n..]));
      }
      SectionsLayout(t, ls[1 + n..]);
      Rejoin(ls, n);
    }
  }

  lemma Rejoin(ls: seq<string>, n: nat)
    requires 1 + n <= |ls|
    ensures [ls[0]] + ls[1..1 + n] + ls[1 + n..] == ls
  {
  }

  /** Every name and every detail line of rs occurs in Layout(rs). */
  lemma {:induction false} LayoutHas(rs: seq<Record>, k: nat)
    requires k < |rs|
    ensures rs[k].name in Layout(rs)
    ensures forall j :: 0 <= j < |rs[k].details| ==> rs[k].details[j] in Layout(rs)
    decreases k
  {
    LayoutCons(rs[0], rs[1..]);
    assert rs == [rs[0]] + rs[1..];
    if k > 0 {
      LayoutHas(rs[1..], k - 1);
    } else {
      forall j | 0 <= j < |rs[0].details|
        ensures rs[0].details[j] in Layout(rs)
      {
        assert Layout(rs)[1 + j] == rs[0].details[j];
      }
    }
  }

  /** The records, written back line by line, give exactly the non-noise
      lines from the first trigger line on: every such line is a name or a
      detail of exactly one record, in source order, and nothing else is. */
  lemma ExtractLayout(t: Tests, lines: seq<string>)
    ensures Layout(Extract(t, lines)) == DropPreamble(t, DropNoise(t, lines))
  {
    SectionsLayout(t, DropPreamble(t, DropNoise(t, lines)));
  }

  lemma {:induction false} TriggersSkip(t: Tests, ls: seq<string>)
    ensures Triggers(t, ls[LeadingDetails(t, ls)..]) == Triggers(t, ls)
    decreases |ls|
  {
    if ls != [] && !t.trigger(ls[0]) {
      TriggersSkip(t, ls[1..]);
      assert ls[1..][LeadingDetails(t, ls[1..])..] == ls[LeadingDetails(t, ls)..];
    } else {
      assert ls[0..] == ls;
    }
  }

  lemma {:induction false} TriggersPreamble(t: Tests, ls: seq<string>)
    ensures Triggers(t, DropPreamble(t, ls)) == Triggers(t, ls)
    decreases |ls|
  {
    if ls != [] && !t.trigger(ls[0]) {
      TriggersPreamble(t, ls[1..]);
    }
  }

  lemma {:induction false} SectionsNames(t: Tests, ls: seq<string>)
    requires ls == [] || t.trigger(ls[0])
    ensures Names(Sections(t, ls)) == Triggers(t, ls)
    decreases |ls|
  {
    if ls != [] {
      var n := LeadingDetails(t, ls[1..]);
      var rest := Sections(t, ls[1 + n..]);
      assert ([MakeRecord(t, ls[0], ls[1..1 + n])] + rest)[1..] == rest;
      TriggersSkip(t, ls[1..]);
      LeadingDetailsRun(t, ls[1..]);
      assert ls[1..][n..] == ls[1 + n..];
      SectionsNames(t, ls[1 + n..]);
    }
  }

  /** Exactly one record per non-noise trigger line, in source order, named
      by that line; lines before the first trigger line start no record. */
  lemma ExtractNames(t: Tests, lines: seq<string>)
    ensures Names(Extract(t, lines)) == Triggers(t, DropNoise(t, lines))
    ensures |Extract(t, lines)| == |Triggers(t, DropNoise(t, lines))|
  {
    TriggersPreamble(t, DropNoise(t, lines));
    DropPreambleDrops(t, DropNoise(t, lines));
    SectionsNames(t, DropPreamble(t, DropNoise(t, lines)));
  }

  /** A record whose fields are the last matching detail lines and whose
      details hold no trigger line. */
  predicate Settled(t: Tests, r: Record) {
    WellFormed(t, r) && forall j :: 0 <= j < |r.details| ==> !t.trigger(r.details[j])
  }

  lemma {:induction false} SectionsSettled(t: Tests, ls: seq<string>)
    ensures forall k :: 0 <= k < |Sections(t, ls)| ==> Settled(t, Sections(t, ls)[k])
    decreases |ls|
  {
    if ls != [] {
      var n := LeadingDetails(t, ls[1..]);
      var head := MakeRecord(t, ls[0], ls[1..1 + n]);
      assert Settled(t, head) by {
        LeadingDetailsRun(t, ls[1..]);
        forall j | 0 <= j < n
          ensures !t.trigger(head.details[j])
        {
          assert head.details[j] == ls[1..][j];
        }
      }
      SectionsSettled(t, ls[1 + n..]);
    }
  }

  /** A name or detail line of the result: a line of the input that is no
      noise line. */
  predicate Kept(t: Tests, lines: seq<string>, x: string) {
    x in lines && !t.noise(x)
  }

  /** Every name is a non-noise trigger line of the input. */
  lemma ExtractNamesKept(t: Tests, lines: seq<string>)
    ensures forall k :: 0 <= k < |Extract(t, lines)| ==>
      Kept(t, lines, Extract(t, lines)[k].name) && t.trigger(Extract(t, lines)[k].name)
  {
    var rs := Extract(t, lines);
    ExtractNames(t, lines);
    TriggersIn(t, DropNoise(t, lines));
    DropNoiseKeeps(t, lines);
    forall k | 0 <= k < |rs|
      ensures Kept(t, lines, rs[k].name) && t.trigger(rs[k].name)
    {
      assert rs[k].name == Names(rs)[k];
    }
  }

  /** Every detail is a non-noise line of the input. */
  lemma ExtractDetailsKept(t: Tests, lines: seq<string>)
    ensures forall k, j :: 0 <= k < |Extract(t, lines)| && 0 <= j < |Extract(t, lines)[k].details| ==>
      Kept(t, lines, Extract(t, lines)[k].details[j])
  {
    var f := DropNoise(t, lines);
    var p := DropPreamble(t, f);
    var rs := Extract(t, lines);
    assert forall x :: x in p ==> Kept(t, lines, x) by {
      DropNoiseKeeps(t, lines);
      DropPreambleDrops(t, f);
      SuffixKept(t, lines, f, p);
    }
    assert Layout(rs) == p by {
      ExtractLayout(t, lines);
    }
    forall k, j | 0 <= k < |rs| && 0 <= j < |rs[k].details|
      ensures Kept(t, lines, rs[k].details[j])
    {
      LayoutHas(rs, k);
    }
  }

  /** A suffix of a list of kept lines holds only kept lines. */
  lemma SuffixKept(t: Tests, lines: seq<string>, f: seq<string>, p: seq<string>)
    requires forall i :: 0 <= i < |f| ==> f[i] in lines && !t.noise(f[i])
    requires |p| <= |f| && p == f[|f| - |p|..]
    ensures forall x :: x in p ==> Kept(t, lines, x)
  {
    forall x | x in p
      ensures Kept(t, lines, x)
    {
      var i :| 0 <= i < |p| && p[i] == x;
      assert x == f[|f| - |p| + i];
    }
  }

  /** No name and no detail of the result is a noise line, even one that
      also contains a trigger word; names are trigger lines and details are
      not; parsedDate, location and status are each the last detail line
      passing their test, or None when none does (LastMatchIsLast). */
  lemma ExtractRecords(t: Tests, lines: seq<string>)
    ensures forall k :: 0 <= k < |Extract(t, lines)| ==>
      var r := Extract(t, lines)[k];
      && WellFormed(t, r)
      && Kept(t, lines, r.name) && t.trigger(r.name)
      && forall j :: 0 <= j < |r.details| ==> Kept(t, lines, r.details[j]) && !t.trigger(r.details[j])
  {
    SectionsSettled(t, DropPreamble(t, DropNoise(t, lines)));
    ExtractNamesKept(t, lines);
    ExtractDetailsKept(t, lines);
  }

  lemma {:induction false} TriggersIn(t: Tests, ls: seq<string>)
    ensures forall i :: 0 <= i < |Triggers(t, ls)| ==> Triggers(t, ls)[i] in ls && t.trigger(Triggers(t, ls)[i])
    decreases |ls|
  {
    if ls != [] {
      TriggersIn(t, ls[1..]);
    }
  }

  /** A blank line, which the page's line splitting never produces, closes
      the open section when it does occur: the record is emitted as it
      stands and the scan is outside any section. */
  lemma BlankLineCloses(e: seq<Record>, c: Record)
    ensures Step(Script, InSection(e, c), "") == Idle(e + [c])
  {
    assert Lower("") == "";
    EmptyContainsNone(Keywords.NoiseWords);
    EmptyContainsNone(Keywords.TriggerWords);
  }
}
