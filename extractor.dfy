/** The line-scanning extractor of fetch_conferences
    (scripts/check_conferences.py:33-77): a two-state machine that folds
    over the page's text lines, starting a record at every line that names
    a conference and collecting the lines that follow as its details.

    The method ExtractConferences is the loop as the script runs it. The
    function Scanned is the same state machine written as a fold over a
    datatype of states, and Extract is an independent description of the
    result (drop the noise, drop what precedes the first trigger line, cut
    at every trigger line); ScanMatchesExtract proves the two agree on every
    normalized input. Both are stated for any set of line tests; Script
    holds the script's own. */
module Extractor {
  import opened Text
  import opened Records
  import opened Keywords

  /** The five line tests the scan applies, and how a trigger line becomes
      a record's name. */
  datatype Tests = Tests(
    nameOf: string -> string,
    noise: string -> bool,
    trigger: string -> bool,
    date: string -> bool,
    location: string -> bool,
    status: string -> bool)

  const Script: Tests := Tests(Strip, IsNoise, IsTrigger, IsDateLine, IsLocationLine, IsStatusLine)

  // ---------------------------------------------------------------------
  // The state machine as a fold

  /** The two states of the scan: outside any conference section, or inside
      one with the record being built. Both carry the records emitted so far. */
  datatype Scan = Idle(emitted: seq<Record>) | InSection(emitted: seq<Record>, current: Record)

  function NewRecord(name: string): Record {
    Record(name, [], None, None, None)
  }

  /** A detail line is appended and overwrites each field whose test it passes. */
  function AddDetail(t: Tests, c: Record, line: string): Record {
    c.(details := c.details + [line],
       parsedDate := if t.date(line) then Some(line) else c.parsedDate,
       location := if t.location(line) then Some(line) else c.location,
       status := if t.status(line) then Some(line) else c.status)
  }

  /** Everything emitted, with the record still open appended. */
  function Output(s: Scan): seq<Record> {
    match s
    case Idle(e) => e
    case InSection(e, c) => e + [c]
  }

  function Step(t: Tests, s: Scan, line: string): Scan {
    if t.noise(line) then s
    else if t.trigger(line) then InSection(Output(s), NewRecord(t.nameOf(line)))
    else match s
      case Idle(_) => s
      case InSection(e, c) => if line != "" then InSection(e, AddDetail(t, c, line)) else Idle(e + [c])
  }

  function Run(t: Tests, s: Scan, lines: seq<string>): Scan
    decreases |lines|
  {
    if lines == [] then s else Run(t, Step(t, s, lines[0]), lines[1..])
  }

  function Scanned(t: Tests, lines: seq<string>): seq<Record> {
    Output(Run(t, Idle([]), lines))
  }

  // ---------------------------------------------------------------------
  // The loop of fetch_conferences

  /** The scan's state as the script keeps it: the emitted list and the
      optional record under construction. */
  function StateOf(emitted: seq<Record>, current: Option<Record>): Scan {
    match current
    case None => Idle(emitted)
    case Some(c) => InSection(emitted, c)
  }

  /** The extraction loop over the text lines, blank-line branch included.
      On normalized input (every line non-empty and stripped, as the page's
      line splitting guarantees) its result is Extract(Script, lines). */
  method ExtractConferences(lines: seq<string>) returns (conferences: seq<Record>)
    ensures conferences == Scanned(Script, lines)
    ensures Normalized(lines) ==> conferences == Extract(Script, lines)
  {
    conferences := [];
    var current: Option<Record> := None;
    var inConferenceSection := false;
    for i := 0 to |lines|
      invariant inConferenceSection <==> current.Some?
      invariant Output(Run(Script, StateOf(conferences, current), lines[i..])) == Scanned(Script, lines)
    {
      var line := lines[i];
      ghost var before := StateOf(conferences, current);
      assert lines[i..][1..] == lines[i + 1..];
      if IsNoise(line) {
        continue;
      }
      if IsTrigger(line) {
        if current.Some? {
          conferences := conferences + [current.value];
        }
        current := Some(NewRecord(Strip(line)));
        inConferenceSection := true;
      } else if inConferenceSection && line != "" {
        var c := current.value;
        c := c.(details := c.details + [line]);
        if IsDateLine(line) {
          c := c.(parsedDate := Some(line));
        }
        if IsLocationLine(line) {
          c := c.(location := Some(line));
        }
        if IsStatusLine(line) {
          c := c.(status := Some(line));
        }
        current := Some(c);
      } else if inConferenceSection && line == "" {
        if current.Some? {
          conferences := conferences + [current.value];
          current := None;
        }
        inConferenceSection := false;
      }
      assert StateOf(conferences, current) == Step(Script, before, line);
    }
    assert lines[|lines|..] == [];
    if current.Some? {
      conferences := conferences + [current.value];
    }
    if Normalized(lines) {
      NormalizedSelfNamed(lines);
      ScanMatchesExtract(Script, lines);
    }
  }

  // ---------------------------------------------------------------------
  // An independent description: group the lines at their trigger lines

  /** What the page's line splitting guarantees: every line is non-empty and
      carries no surrounding whitespace. */
  predicate Normalized(lines: seq<string>) {
    forall i :: 0 <= i < |lines| ==> lines[i] != "" && IsStripped(lines[i])
  }

  /** The lines that are not noise, in order. */
  function DropNoise(t: Tests, lines: seq<string>): (r: seq<string>)
    ensures |r| <= |lines|
  {
    if lines == [] then []
    else (if t.noise(lines[0]) then [] else [lines[0]]) + DropNoise(t, lines[1..])
  }

  /** DropNoise keeps exactly the lines that are not noise. */
  lemma {:induction false} DropNoiseKeeps(t: Tests, lines: seq<string>)
    ensures forall i :: 0 <= i < |DropNoise(t, lines)| ==>
      DropNoise(t, lines)[i] in lines && !t.noise(DropNoise(t, lines)[i])
    ensures forall i :: 0 <= i < |lines| && !t.noise(lines[i]) ==> lines[i] in DropNoise(t, lines)
    decreases |lines|
  {
    if lines != [] {
      DropNoiseKeeps(t, lines[1..]);
      var rest := DropNoise(t, lines[1..]);
      var head := if t.noise(lines[0]) then [] else [lines[0]];
      assert DropNoise(t, lines) == head + rest;
      forall i | 0 <= i < |lines| && !t.noise(lines[i])
        ensures lines[i] in DropNoise(t, lines)
      {
        if i > 0 {
          assert lines[i] == lines[1..][i - 1];
        }
      }
    }
  }

  /** The lines before the first trigger line are dropped. */
  function DropPreamble(t: Tests, ls: seq<string>): (r: seq<string>)
    ensures |r| <= |ls|
    decreases |ls|
  {
    if ls == [] || t.trigger(ls[0]) then ls else DropPreamble(t, ls[1..])
  }

  /** DropPreamble removes a prefix of non-trigger lines and stops at the
      first trigger line. */
  lemma {:induction false} DropPreambleDrops(t: Tests, ls: seq<string>)
    ensures DropPreamble(t, ls) == ls[|ls| - |DropPreamble(t, ls)|..]
    ensures forall i :: 0 <= i < |ls| - |DropPreamble(t, ls)| ==> !t.trigger(ls[i])
    ensures DropPreamble(t, ls) == [] || t.trigger(DropPreamble(t, ls)[0])
    decreases |ls|
  {
    if ls == [] || t.trigger(ls[0]) {
      assert ls[0..] == ls;
    } else {
      DropPreambleDrops(t, ls[1..]);
      assert ls[1..][|ls| - 1 - |DropPreamble(t, ls)|..] == ls[|ls| - |DropPreamble(t, ls)|..];
      forall i | 0 <= i < |ls| - |DropPreamble(t, ls)|
        ensures !t.trigger(ls[i])
      {
        if i > 0 {
          assert ls[i] == ls[1..][i - 1];
        }
      }
    }
  }

  /** How many lines at the front of ls are not trigger lines. */
  function LeadingDetails(t: Tests, ls: seq<string>): (n: nat)
    ensures n <= |ls|
    decreases |ls|
  {
    if ls == [] || t.trigger(ls[0]) then 0 else 1 + LeadingDetails(t, ls[1..])
  }

  /** The leading run of non-trigger lines ends at a trigger line or at the
      end of ls. */
  lemma {:induction false} LeadingDetailsRun(t: Tests, ls: seq<string>)
    ensures forall i :: 0 <= i < LeadingDetails(t, ls) ==> !t.trigger(ls[i])
    ensures LeadingDetails(t, ls) < |ls| ==> t.trigger(ls[LeadingDetails(t, ls)])
    decreases |ls|
  {
    if ls != [] && !t.trigger(ls[0]) {
      LeadingDetailsRun(t, ls[1..]);
      forall i | 0 <= i < LeadingDetails(t, ls)
        ensures !t.trigger(ls[i])
      {
        if i > 0 {
          assert ls[i] == ls[1..][i - 1];
        }
      }
    }
  }

  /** The last line of ds that passes the test, or None (LastMatchIsLast). */
  function LastMatch(ds: seq<string>, test: string -> bool): Option<string>
    decreases |ds|
  {
    if ds == [] then None
    else if test(ds[|ds| - 1]) then Some(ds[|ds| - 1])
    else LastMatch(ds[..|ds| - 1], test)
  }

  /** The field is None exactly when no detail line passes the test, and
      otherwise it is a passing line after which no line passes. */
  lemma {:induction false} LastMatchIsLast(ds: seq<string>, test: string -> bool)
    ensures LastMatch(ds, test).None? <==> forall i :: 0 <= i < |ds| ==> !test(ds[i])
    ensures LastMatch(ds, test).Some? ==>
      exists i :: 0 <= i < |ds| && ds[i] == LastMatch(ds, test).value && test(ds[i]) &&
        forall j :: i < j < |ds| ==> !test(ds[j])
    decreases |ds|
  {
    if ds != [] && !test(ds[|ds| - 1]) {
      var front := ds[..|ds| - 1];
      LastMatchIsLast(front, test);
      if LastMatch(front, test).Some? {
        var i :| 0 <= i < |front| && front[i] == LastMatch(front, test).value && test(front[i]) &&
          forall j :: i < j < |front| ==> !test(front[j]);
        assert ds[i] == front[i];
      } else {
        assert forall i :: 0 <= i < |front| ==> front[i] == ds[i];
      }
    }
  }

  /** A record whose three fields are the last matching detail lines. */
  predicate WellFormed(t: Tests, r: Record) {
    && r.parsedDate == LastMatch(r.details, t.date)
    && r.location == LastMatch(r.details, t.location)
    && r.status == LastMatch(r.details, t.status)
  }

  function MakeRecord(t: Tests, name: string, details: seq<string>): Record {
    Record(name, details, LastMatch(details, t.date), LastMatch(details, t.location), LastMatch(details, t.status))
  }

  /** Each line of ls taken as a name, with the non-trigger lines up to the
      next trigger line as its details. */
  function Sections(t: Tests, ls: seq<string>): seq<Record>
    decreases |ls|
  {
    if ls == [] then []
    else
      var n := LeadingDetails(t, ls[1..]);
      [MakeRecord(t, ls[0], ls[1..1 + n])] + Sections(t, ls[1 + n..])
  }

  function Extract(t: Tests, lines: seq<string>): seq<Record> {
    Sections(t, DropPreamble(t, DropNoise(t, lines)))
  }

  // ---------------------------------------------------------------------
  // The scan computes Extract

  lemma AddDetailWellFormed(t: Tests, c: Record, line: string)
    requires WellFormed(t, c)
    ensures WellFormed(t, AddDetail(t, c, line))
  {
    var ds := c.details + [line];
    assert ds[..|ds| - 1] == c.details;
  }

  /** Noise lines do not move the scan. */
  lemma {:induction false} RunSkipsNoise(t: Tests, s: Scan, lines: seq<string>)
    ensures Run(t, s, lines) == Run(t, s, DropNoise(t, lines))
    decreases |lines|
  {
    if lines != [] {
      var rest := DropNoise(t, lines[1..]);
      if t.noise(lines[0]) {
        RunSkipsNoise(t, s, lines[1..]);
        assert DropNoise(t, lines) == [] + rest == rest;
      } else {
        RunSkipsNoise(t, Step(t, s, lines[0]), lines[1..]);
        assert DropNoise(t, lines) == [lines[0]] + rest;
        assert DropNoise(t, lines)[1..] == rest;
      }
    }
  }

  /** A line the scan can meet once noise is filtered from normalized input. */
  predicate CleanLine(t: Tests, line: string) {
    line != "" && t.nameOf(line) == line && !t.noise(line)
  }

  predicate Clean(t: Tests, ls: seq<string>) {
    forall i :: 0 <= i < |ls| ==> CleanLine(t, ls[i])
  }

  /** One step of the scan on a line of clean input. */
  lemma StepClean(t: Tests, s: Scan, line: string)
    requires CleanLine(t, line)
    ensures t.trigger(line) ==> Step(t, s, line) == InSection(Output(s), NewRecord(line))
    ensures !t.trigger(line) && s.Idle? ==> Step(t, s, line) == s
    ensures !t.trigger(line) && s.InSection? ==> Step(t, s, line) == InSection(s.emitted, AddDetail(t, s.current, line))
  {
  }

  lemma RunCons(t: Tests, s: Scan, ls: seq<string>)
    requires ls != []
    ensures Run(t, s, ls) == Run(t, Step(t, s, ls[0]), ls[1..])
  {
  }

  /** Sections unfolded once, with the slices written as the scan meets them. */
  lemma SectionsCons(t: Tests, ls: seq<string>)
    requires ls != []
    ensures Sections(t, ls) ==
      [MakeRecord(t, ls[0], ls[1..][..LeadingDetails(t, ls[1..])])] + Sections(t, ls[1..][LeadingDetails(t, ls[1..])..])
  {
    var n := LeadingDetails(t, ls[1..]);
    assert ls[1..][..n] == ls[1..1 + n];
    assert ls[1..][n..] == ls[1 + n..];
  }

  lemma Splice<T>(prefix: seq<T>, ls: seq<T>, n: nat)
    requires 1 <= n <= |ls|
    ensures prefix + [ls[0]] + ls[1..][..n - 1] == prefix + ls[..n]
    ensures ls[1..][n - 1..] == ls[n..]
  {
    assert ls[..n] == [ls[0]] + ls[1..][..n - 1];
  }

  /** Inside a section, the scan closes the open record after the leading
      non-trigger lines and then emits the remaining sections. */
  lemma {:induction false} RunInSection(t: Tests, e: seq<Record>, c: Record, ls: seq<string>)
    requires WellFormed(t, c) && Clean(t, ls)
    ensures Output(Run(t, InSection(e, c), ls)) ==
      e + [MakeRecord(t, c.name, c.details + ls[..LeadingDetails(t, ls)])] + Sections(t, ls[LeadingDetails(t, ls)..])
    decreases |ls|, 1
  {
    if ls == [] {
      assert c.details + ls[..0] == c.details;
    } else if t.trigger(ls[0]) {
      RunInSectionTrigger(t, e, c, ls);
      assert c.details + ls[..0] == c.details;
      assert MakeRecord(t, c.name, c.details) == c;
      assert ls[0..] == ls;
    } else {
      RunInSectionDetail(t, e, c, ls);
    }
  }

  /** A trigger line closes the open record and opens the next one. */
  lemma {:induction false} RunInSectionTrigger(t: Tests, e: seq<Record>, c: Record, ls: seq<string>)
    requires WellFormed(t, c) && Clean(t, ls) && ls != [] && t.trigger(ls[0])
    ensures Output(Run(t, InSection(e, c), ls)) == e + [c] + Sections(t, ls)
    ensures LeadingDetails(t, ls) == 0
    decreases |ls|, 0
  {
    var name, m := ls[0], LeadingDetails(t, ls[1..]);
    var next := [MakeRecord(t, name, ls[1..][..m])] + Sections(t, ls[1..][m..]);
    assert Output(Run(t, InSection(e, c), ls)) == Output(Run(t, InSection(e + [c], NewRecord(name)), ls[1..])) by {
      RunCons(t, InSection(e, c), ls);
      StepClean(t, InSection(e, c), name);
    }
    assert Output(Run(t, InSection(e + [c], NewRecord(name)), ls[1..])) == (e + [c]) + next by {
      RunInSection(t, e + [c], NewRecord(name), ls[1..]);
      assert [] + ls[1..][..m] == ls[1..][..m];
    }
    assert Sections(t, ls) == next by {
      SectionsCons(t, ls);
    }
  }

  /** A detail line extends the open record. */
  lemma {:induction false} RunInSectionDetail(t: Tests, e: seq<Record>, c: Record, ls: seq<string>)
    requires WellFormed(t, c) && Clean(t, ls) && ls != [] && !t.trigger(ls[0])
    ensures Output(Run(t, InSection(e, c), ls)) ==
      e + [MakeRecord(t, c.name, c.details + ls[..LeadingDetails(t, ls)])] + Sections(t, ls[LeadingDetails(t, ls)..])
    decreases |ls|, 0
  {
    var n, d := LeadingDetails(t, ls), AddDetail(t, c, ls[0]);
    assert Output(Run(t, InSection(e, c), ls)) == Output(Run(t, InSection(e, d), ls[1..])) by {
      RunCons(t, InSection(e, c), ls);
      StepClean(t, InSection(e, c), ls[0]);
    }
    assert n == 1 + LeadingDetails(t, ls[1..]);
    assert Output(Run(t, InSection(e, d), ls[1..])) ==
      e + [MakeRecord(t, c.name, d.details + ls[1..][..n - 1])] + Sections(t, ls[1..][n - 1..]) by {
      AddDetailWellFormed(t, c, ls[0]);
      RunInSection(t, e, d, ls[1..]);
    }
    assert d.details == c.details + [ls[0]];
    Splice(c.details, ls, n);
  }

  /** From outside a section, a trigger line opens the first section. */
  lemma RunIdleTrigger(t: Tests, e: seq<Record>, ls: seq<string>)
    requires Clean(t, ls) && ls != [] && t.trigger(ls[0])
    ensures Output(Run(t, Idle(e), ls)) == e + Sections(t, ls)
  {
    IdleTriggerStep(t, e, ls);
    FreshSection(t, e, ls[0], ls[1..]);
    SectionsCons(t, ls);
  }

  /** A section opened on a name takes the detail lines up to the next
      trigger line. */
  lemma FreshSection(t: Tests, e: seq<Record>, name: string, ls: seq<string>)
    requires Clean(t, ls)
    ensures Output(Run(t, InSection(e, NewRecord(name)), ls))
         == e + [MakeRecord(t, name, ls[..LeadingDetails(t, ls)])] + Sections(t, ls[LeadingDetails(t, ls)..])
  {
    RunInSection(t, e, NewRecord(name), ls);
    assert [] + ls[..LeadingDetails(t, ls)] == ls[..LeadingDetails(t, ls)];
  }

  /** The trigger line itself: the scan enters a section named by it. */
  lemma IdleTriggerStep(t: Tests, e: seq<Record>, ls: seq<string>)
    requires Clean(t, ls) && ls != [] && t.trigger(ls[0])
    ensures Output(Run(t, Idle(e), ls)) == Output(Run(t, InSection(e, NewRecord(ls[0])), ls[1..]))
  {
    RunCons(t, Idle(e), ls);
    StepClean(t, Idle(e), ls[0]);
  }

  /** Outside a section, lines are ignored until a trigger line opens one. */
  lemma {:induction false} RunIdle(t: Tests, e: seq<Record>, ls: seq<string>)
    requires Clean(t, ls)
    ensures Output(Run(t, Idle(e), ls)) == e + Sections(t, DropPreamble(t, ls))
    decreases |ls|
  {
    if ls != [] {
      if t.trigger(ls[0]) {
        RunIdleTrigger(t, e, ls);
      } else {
        assert Run(t, Idle(e), ls) == Run(t, Idle(e), ls[1..]) by {
          RunCons(t, Idle(e), ls);
          StepClean(t, Idle(e), ls[0]);
        }
        assert Clean(t, ls[1..]);
        RunIdle(t, e, ls[1..]);
      }
    }
  }

  /** Lines that are non-empty and are their own name when they start a
      record. */
  predicate SelfNamed(t: Tests, lines: seq<string>) {
    forall i :: 0 <= i < |lines| ==> lines[i] != "" && t.nameOf(lines[i]) == lines[i]
  }

  /** Normalized lines are their own names under the script's str.strip(). */
  lemma NormalizedSelfNamed(lines: seq<string>)
    requires Normalized(lines)
    ensures SelfNamed(Script, lines)
  {
    forall i | 0 <= i < |lines|
      ensures Script.nameOf(lines[i]) == lines[i]
    {
      assert IsStripped(lines[i]);
    }
  }

  /** On such lines the state machine groups the lines exactly as Extract
      describes, whatever the line tests: the blank-line branch of the loop
      never fires. */
  lemma ScanMatchesExtract(t: Tests, lines: seq<string>)
    requires SelfNamed(t, lines)
    ensures Scanned(t, lines) == Extract(t, lines)
  {
    RunSkipsNoise(t, Idle([]), lines);
    var f := DropNoise(t, lines);
    assert Clean(t, f) by {
      DropNoiseKeeps(t, lines);
      forall i | 0 <= i < |f|
        ensures CleanLine(t, f[i])
      {
        var j :| 0 <= j < |lines| && lines[j] == f[i];
      }
    }
    RunIdle(t, [], f);
  }
}
