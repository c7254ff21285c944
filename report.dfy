/** create_issue_body (scripts/check_conferences.py:157-232): the issue text
    built from a set of changes and the current records. The text is modelled
    as a list of structured lines, one constructor per kind of line the
    script writes; the Markdown and emoji around them, and the blank
    separator lines, are left out. The detection time is a parameter. */
module Report {
  import opened Text
  import opened Records
  import opened Differ

  // ---------------------------------------------------------------------
  // Bucketing (scripts/check_conferences.py:186-203)

  datatype Bucket = CallForPapers | SchedulePublished | Active | Other

  /** The event words of the active bucket; "nordic pgday" is not among
      them, unlike the extractor's trigger words. */
  const ActiveWords: seq<string> := ["pgconf", "pgday", "postgresql conference"]

  /** Python's ' '.join(ds). */
  function Join(ds: seq<string>): string
    decreases |ds|
  {
    if ds == [] then "" else if |ds| == 1 then ds[0] else ds[0] + " " + Join(ds[1..])
  }

  predicate MentionsCallForPapers(c: Conference) {
    || Contains(Lower(c.record.name), "call for papers")
    || Contains(Lower(Join(c.record.details)), "call for papers")
  }

  predicate SchedulePosted(c: Conference) {
    var name := Lower(c.record.name);
    Contains(name, "schedule") && (Contains(name, "published") || Contains(name, "online"))
  }

  predicate NamesEvent(c: Conference) {
    ContainsAny(Lower(c.record.name), ActiveWords)
  }

  /** The first-match chain: call for papers, then schedule published, then
      an event name, else other. */
  function Classify(c: Conference): Bucket {
    if MentionsCallForPapers(c) then CallForPapers
    else if SchedulePosted(c) then SchedulePublished
    else if NamesEvent(c) then Active
    else Other
  }

  /** The records of cs that classify puts in bucket b, in the order of
      cs; the script's buckets are InBucket(cs, b, Classify). */
  function InBucket(cs: seq<Conference>, b: Bucket, classify: Conference -> Bucket): seq<Conference>
    decreases |cs|
  {
    if cs == [] then []
    else InBucket(cs[..|cs| - 1], b, classify) + (if classify(cs[|cs| - 1]) == b then [cs[|cs| - 1]] else [])
  }

  /** The loop at scripts/check_conferences.py:192-203. */
  method GroupConferences(allConferences: seq<Conference>)
    returns (callForPapers: seq<Conference>, schedulePublished: seq<Conference>,
             activeConferences: seq<Conference>, otherConferences: seq<Conference>)
    ensures callForPapers == InBucket(allConferences, CallForPapers, Classify)
    ensures schedulePublished == InBucket(allConferences, SchedulePublished, Classify)
    ensures activeConferences == InBucket(allConferences, Active, Classify)
    ensures otherConferences == InBucket(allConferences, Other, Classify)
  {
    callForPapers, schedulePublished, activeConferences, otherConferences := [], [], [], [];
    var i := 0;
    while i < |allConferences|
      invariant 0 <= i <= |allConferences|
      invariant callForPapers == InBucket(allConferences[..i], CallForPapers, Classify)
      invariant schedulePublished == InBucket(allConferences[..i], SchedulePublished, Classify)
      invariant activeConferences == InBucket(allConferences[..i], Active, Classify)
      invariant otherConferences == InBucket(allConferences[..i], Other, Classify)
    {
      var conf := allConferences[i];
      assert allConferences[..i + 1][..i] == allConferences[..i];
      if MentionsCallForPapers(conf) {
        callForPapers := callForPapers + [conf];
      } else if SchedulePosted(conf) {
        schedulePublished := schedulePublished + [conf];
      } else if NamesEvent(conf) {
        activeConferences := activeConferences + [conf];
      } else {
        otherConferences := otherConferences + [conf];
      }
      i := i + 1;
    }
    assert allConferences[..i] == allConferences;
  }

  /** A bucket holds exactly the records of cs that classify into it. */
  lemma {:induction false} InBucketMembers(cs: seq<Conference>, b: Bucket, classify: Conference -> Bucket)
    ensures forall c :: c in InBucket(cs, b, classify) <==> c in cs && classify(c) == b
    decreases |cs|
  {
    if cs != [] {
      InBucketMembers(cs[..|cs| - 1], b, classify);
      assert cs == cs[..|cs| - 1] + [cs[|cs| - 1]];
    }
  }

  /** Every record falls in exactly one bucket: the four buckets together
      hold each record of cs as often as cs does. */
  lemma {:induction false} BucketsPartition(cs: seq<Conference>, classify: Conference -> Bucket)
    ensures multiset(InBucket(cs, CallForPapers, classify)) + multiset(InBucket(cs, SchedulePublished, classify))
          + multiset(InBucket(cs, Active, classify)) + multiset(InBucket(cs, Other, classify)) == multiset(cs)
    decreases |cs|
  {
    if cs != [] {
      var front := cs[..|cs| - 1];
      var last := cs[|cs| - 1];
      var k := classify(last);
      var p := multiset(InBucket(front, CallForPapers, classify));
      var q := multiset(InBucket(front, SchedulePublished, classify));
      var r := multiset(InBucket(front, Active, classify));
      var t := multiset(InBucket(front, Other, classify));
      BucketsPartition(front, classify);
      assert multiset(InBucket(cs, CallForPapers, classify)) == p + (if k == CallForPapers then multiset{last} else multiset{}) by {
        InBucketStep(cs, CallForPapers, classify);
      }
      assert multiset(InBucket(cs, SchedulePublished, classify)) == q + (if k == SchedulePublished then multiset{last} else multiset{}) by {
        InBucketStep(cs, SchedulePublished, classify);
      }
      assert multiset(InBucket(cs, Active, classify)) == r + (if k == Active then multiset{last} else multiset{}) by {
        InBucketStep(cs, Active, classify);
      }
      assert multiset(InBucket(cs, Other, classify)) == t + (if k == Other then multiset{last} else multiset{}) by {
        InBucketStep(cs, Other, classify);
      }
      MultisetSnoc(cs);
      AddToOne(p, q, r, t, multiset(front), last, k);
    }
  }

  lemma MultisetSnoc(cs: seq<Conference>)
    requires cs != []
    ensures multiset(cs) == multiset(cs[..|cs| - 1]) + multiset{cs[|cs| - 1]}
  {
    assert cs == cs[..|cs| - 1] + [cs[|cs| - 1]];
  }

  /** The four buckets together are as long as cs. */
  lemma BucketsCount(cs: seq<Conference>, classify: Conference -> Bucket)
    ensures |InBucket(cs, CallForPapers, classify)| + |InBucket(cs, SchedulePublished, classify)|
          + |InBucket(cs, Active, classify)| + |InBucket(cs, Other, classify)| == |cs|
  {
    BucketsPartition(cs, classify);
    assert |multiset(cs)| == |cs|;
  }

  lemma InBucketStep(cs: seq<Conference>, b: Bucket, classify: Conference -> Bucket)
    requires cs != []
    ensures multiset(InBucket(cs, b, classify))
         == multiset(InBucket(cs[..|cs| - 1], b, classify)) + (if classify(cs[|cs| - 1]) == b then multiset{cs[|cs| - 1]} else multiset{})
  {
  }

  /** One more element, added to the one of four parts its bucket names. */
  lemma AddToOne(p: multiset<Conference>, q: multiset<Conference>, r: multiset<Conference>, t: multiset<Conference>,
                 whole: multiset<Conference>, x: Conference, k: Bucket)
    requires p + q + r + t == whole
    ensures (p + (if k == CallForPapers then multiset{x} else multiset{}))
          + (q + (if k == SchedulePublished then multiset{x} else multiset{}))
          + (r + (if k == Active then multiset{x} else multiset{}))
          + (t + (if k == Other then multiset{x} else multiset{})) == whole + multiset{x}
  {
  }

  /** Position o of s holds piece. */
  predicate Occurs(s: string, piece: string, o: nat) {
    o + |piece| <= |s| && s[o..o + |piece|] == piece
  }

  /** Every line of ds is a piece of ' '.join(ds). */
  lemma {:induction false} JoinHas(ds: seq<string>, k: nat)
    requires k < |ds|
    ensures exists o: nat :: Occurs(Join(ds), ds[k], o)
    decreases |ds|
  {
    if |ds| == 1 || k == 0 {
      assert Occurs(Join(ds), ds[k], 0);
    } else {
      JoinHas(ds[1..], k - 1);
      var rest := Join(ds[1..]);
      var o': nat :| Occurs(rest, ds[1..][k - 1], o');
      var o := |ds[0]| + 1 + o';
      assert Join(ds)[o..o + |ds[k]|] == rest[o'..o' + |ds[k]|];
      assert Occurs(Join(ds), ds[k], o);
    }
  }

  /** A word one line of ds contains, after lowering, is in the lowered
      joined lines. */
  lemma JoinedContains(ds: seq<string>, k: nat, w: string)
    requires k < |ds| && Contains(Lower(ds[k]), w)
    ensures Contains(Lower(Join(ds)), w)
  {
    var joined := Join(ds);
    JoinHas(ds, k);
    var o: nat :| Occurs(joined, ds[k], o);
    LowerSlice(joined, o, |ds[k]|);
    ContainsWithin(Lower(ds[k]), Lower(joined), o, w);
  }

  /** A single detail line mentioning a call for papers puts the record in
      that bucket, whatever its name says. */
  lemma DetailCallForPapers(c: Conference, k: nat)
    requires k < |c.record.details| && Contains(Lower(c.record.details[k]), "call for papers")
    ensures Classify(c) == CallForPapers
  {
    JoinedContains(c.record.details, k, "call for papers");
  }

  // ---------------------------------------------------------------------
  // The lines of the issue body

  datatype Line =
    | Title
    | DetectedAt(timestamp: string)
    | AddedHeading
    | AddedName(name: string)
    | Detail(text: string)
    | RemovedHeading
    | RemovedName(name: string)
    | UpdatesHeading
    | UpdatedName(name: string)
    | ChangeNote
    | CurrentHeading
    | Total(count: nat)
    | BucketHeading(bucket: Bucket)
    | Listed(name: string)
    | More(count: nat)
    | Footer

  function Min(a: nat, b: nat): nat {
    if a <= b then a else b
  }

  /** Python's xs[:n]. */
  function Take<T>(xs: seq<T>, n: nat): seq<T> {
    xs[..Min(n, |xs|)]
  }

  function DetailLines(ds: seq<string>): seq<Line>
    decreases |ds|
  {
    if ds == [] then [] else DetailLines(ds[..|ds| - 1]) + [Detail(ds[|ds| - 1])]
  }

  /** An added record: its name and at most its first five details. */
  function AddedEntry(c: Conference): seq<Line> {
    [AddedName(c.record.name)] + DetailLines(Take(c.record.details, 5))
  }

  function AddedEntries(cs: seq<Conference>): seq<Line>
    decreases |cs|
  {
    if cs == [] then [] else AddedEntries(cs[..|cs| - 1]) + AddedEntry(cs[|cs| - 1])
  }

  function AddedSection(cs: seq<Conference>): seq<Line> {
    if cs == [] then [] else [AddedHeading] + AddedEntries(cs)
  }

  function RemovedLines(cs: seq<Conference>): seq<Line>
    decreases |cs|
  {
    if cs == [] then [] else RemovedLines(cs[..|cs| - 1]) + [RemovedName(cs[|cs| - 1].record.name)]
  }

  function RemovedSection(cs: seq<Conference>): seq<Line> {
    if cs == [] then [] else [RemovedHeading] + RemovedLines(cs)
  }

  /** A modified record is shown by its new name. */
  function UpdateLines(ms: seq<Modification>): seq<Line>
    decreases |ms|
  {
    if ms == [] then []
    else UpdateLines(ms[..|ms| - 1]) + [UpdatedName(ms[|ms| - 1].after.record.name), ChangeNote]
  }

  function UpdatesSection(ms: seq<Modification>): seq<Line> {
    if ms == [] then [] else [UpdatesHeading] + UpdateLines(ms)
  }

  function NameLines(cs: seq<Conference>): seq<Line>
    decreases |cs|
  {
    if cs == [] then [] else NameLines(cs[..|cs| - 1]) + [Listed(cs[|cs| - 1].record.name)]
  }

  /** A rendered bucket: nothing when it is empty, else its heading, the
      names of its first cap records and, when some are cut off, one line
      counting them. */
  function BucketSection(b: Bucket, cs: seq<Conference>, cap: nat): seq<Line> {
    if cs == [] then []
    else [BucketHeading(b)] + NameLines(Take(cs, cap)) + (if |cs| > cap then [More(|cs| - cap)] else [])
  }

  function ChangeSections(changes: Changes): seq<Line> {
    AddedSection(changes.added) + RemovedSection(changes.removed) + UpdatesSection(changes.modified)
  }

  /** The three rendered buckets with their caps; the other bucket is
      grouped but never written. */
  function BucketSections(all: seq<Conference>): seq<Line> {
    BucketSection(CallForPapers, InBucket(all, CallForPapers, Classify), 10)
    + BucketSection(SchedulePublished, InBucket(all, SchedulePublished, Classify), 10)
    + BucketSection(Active, InBucket(all, Active, Classify), 15)
  }

  function Body(changes: Changes, all: seq<Conference>, detectedAt: string): seq<Line> {
    [Title, DetectedAt(detectedAt)] + ChangeSections(changes)
    + [CurrentHeading, Total(|all|)] + BucketSections(all) + [Footer]
  }

  // ---------------------------------------------------------------------
  // Writing the body line by line

  /** The loop at scripts/check_conferences.py:162-168. */
  method RenderAdded(added: seq<Conference>) returns (lines: seq<Line>)
    ensures lines == AddedSection(added)
  {
    lines := [];
    if added != [] {
      lines := [AddedHeading];
      var i := 0;
      while i < |added|
        invariant 0 <= i <= |added|
        invariant lines == [AddedHeading] + AddedEntries(added[..i])
      {
        var conf := added[i];
        var details := RenderDetails(Take(conf.record.details, 5));
        assert added[..i + 1][..i] == added[..i];
        lines := lines + ([AddedName(conf.record.name)] + details);
        i := i + 1;
      }
      assert added[..i] == added;
    }
  }

  /** The inner loop at scripts/check_conferences.py:166-167. */
  method RenderDetails(shown: seq<string>) returns (lines: seq<Line>)
    ensures lines == DetailLines(shown)
  {
    lines := [];
    var j := 0;
    while j < |shown|
      invariant 0 <= j <= |shown|
      invariant lines == DetailLines(shown[..j])
    {
      assert shown[..j + 1][..j] == shown[..j];
      lines := lines + [Detail(shown[j])];
      j := j + 1;
    }
    assert shown[..j] == shown;
  }

  /** The loop at scripts/check_conferences.py:170-174. */
  method RenderRemoved(removed: seq<Conference>) returns (lines: seq<Line>)
    ensures lines == RemovedSection(removed)
  {
    lines := [];
    if removed != [] {
      lines := [RemovedHeading];
      var i := 0;
      while i < |removed|
        invariant 0 <= i <= |removed|
        invariant lines == [RemovedHeading] + RemovedLines(removed[..i])
      {
        assert removed[..i + 1][..i] == removed[..i];
        lines := lines + [RemovedName(removed[i].record.name)];
        i := i + 1;
      }
      assert removed[..i] == removed;
    }
  }

  /** The loop at scripts/check_conferences.py:176-180. */
  method RenderUpdates(modified: seq<Modification>) returns (lines: seq<Line>)
    ensures lines == UpdatesSection(modified)
  {
    lines := [];
    if modified != [] {
      lines := [UpdatesHeading];
      var i := 0;
      while i < |modified|
        invariant 0 <= i <= |modified|
        invariant lines == [UpdatesHeading] + UpdateLines(modified[..i])
      {
        assert modified[..i + 1][..i] == modified[..i];
        lines := lines + [UpdatedName(modified[i].after.record.name), ChangeNote];
        i := i + 1;
      }
      assert modified[..i] == modified;
    }
  }

  /** One of the three listings at scripts/check_conferences.py:205-227. */
  method RenderBucket(b: Bucket, cs: seq<Conference>, cap: nat) returns (lines: seq<Line>)
    ensures lines == BucketSection(b, cs, cap)
  {
    lines := [];
    if cs != [] {
      lines := [BucketHeading(b)];
      var shown := Take(cs, cap);
      var i := 0;
      while i < |shown|
        invariant 0 <= i <= |shown|
        invariant lines == [BucketHeading(b)] + NameLines(shown[..i])
      {
        assert shown[..i + 1][..i] == shown[..i];
        lines := lines + [Listed(shown[i].record.name)];
        i := i + 1;
      }
      assert shown[..i] == shown;
      if |cs| > cap {
        lines := lines + [More(|cs| - cap)];
      }
    }
  }

  /** create_issue_body, with the detection time given. */
  method CreateIssueBody(changes: Changes, allConferences: seq<Conference>, detectedAt: string)
    returns (body: seq<Line>)
    ensures body == Body(changes, allConferences, detectedAt)
  {
    var added := RenderAdded(changes.added);
    var removed := RenderRemoved(changes.removed);
    var updates := RenderUpdates(changes.modified);
    var callForPapers, schedulePublished, activeConferences, _ := GroupConferences(allConferences);
    var cfpLines := RenderBucket(CallForPapers, callForPapers, 10);
    var scheduleLines := RenderBucket(SchedulePublished, schedulePublished, 10);
    var activeLines := RenderBucket(Active, activeConferences, 15);
    body := [Title, DetectedAt(detectedAt)] + (added + removed + updates)
      + [CurrentHeading, Total(|allConferences|)] + (cfpLines + scheduleLines + activeLines) + [Footer];
  }

  // ---------------------------------------------------------------------
  // What the body shows

  /** The lines of ls that f picks, each turned into what f gives. */
  function Select<X>(ls: seq<Line>, f: Line -> seq<X>): seq<X>
    decreases |ls|
  {
    if ls == [] then [] else Select(ls[..|ls| - 1], f) + f(ls[|ls| - 1])
  }

  function ListedOf(l: Line): seq<string> {
    if l.Listed? then [l.name] else []
  }

  function MoreOf(l: Line): seq<nat> {
    if l.More? then [l.count] else []
  }

  function HeadingOf(l: Line): seq<Bucket> {
    if l.BucketHeading? then [l.bucket] else []
  }

  function DetailOf(l: Line): seq<string> {
    if l.Detail? then [l.text] else []
  }

  /** The names of cs, in order. */
  function ConfNames(cs: seq<Conference>): seq<string>
    decreases |cs|
  {
    if cs == [] then [] else ConfNames(cs[..|cs| - 1]) + [cs[|cs| - 1].record.name]
  }

  lemma {:induction false} ConfNamesShape(cs: seq<Conference>)
    ensures |ConfNames(cs)| == |cs|
    ensures forall k :: 0 <= k < |cs| ==> ConfNames(cs)[k] == cs[k].record.name
    decreases |cs|
  {
    if cs != [] {
      ConfNamesShape(cs[..|cs| - 1]);
    }
  }

  lemma Snoc<T>(a: seq<T>, b: seq<T>)
    requires b != []
    ensures a + b == (a + b[..|b| - 1]) + [b[|b| - 1]]
  {
  }

  lemma {:induction false} SelectAppend<X>(a: seq<Line>, b: seq<Line>, f: Line -> seq<X>)
    ensures Select(a + b, f) == Select(a, f) + Select(b, f)
    decreases |b|
  {
    if b == [] {
      assert a + b == a;
    } else {
      var front, last := b[..|b| - 1], b[|b| - 1];
      assert Select(a + front, f) == Select(a, f) + Select(front, f) by {
        SelectAppend(a, front, f);
      }
      assert Select(a + b, f) == Select(a + front, f) + f(last) by {
        Snoc(a, b);
        SelectSnoc(a + front, last, f);
      }
      assert Select(b, f) == Select(front, f) + f(last);
    }
  }

  lemma SelectSnoc<X>(a: seq<Line>, l: Line, f: Line -> seq<X>)
    ensures Select(a + [l], f) == Select(a, f) + f(l)
  {
    assert (a + [l])[..|a + [l]| - 1] == a;
  }

  lemma SelectOne<X>(l: Line, f: Line -> seq<X>)
    ensures Select([l], f) == f(l)
  {
    SelectSnoc([], l, f);
    assert [] + [l] == [l];
  }

  lemma SelectTwo<X>(l: Line, m: Line, f: Line -> seq<X>)
    ensures Select([l, m], f) == f(l) + f(m)
  {
    SelectSnoc([l], m, f);
    SelectOne(l, f);
    assert [l] + [m] == [l, m];
  }

  lemma SelectThree<X>(a: seq<Line>, b: seq<Line>, c: seq<Line>, f: Line -> seq<X>)
    ensures Select(a + b + c, f) == Select(a, f) + Select(b, f) + Select(c, f)
  {
    SelectAppend(a, b, f);
    SelectAppend(a + b, c, f);
  }

  lemma {:induction false} NameLinesListed(cs: seq<Conference>)
    ensures Select(NameLines(cs), ListedOf) == ConfNames(cs)
    decreases |cs|
  {
    if cs != [] {
      var front := cs[..|cs| - 1];
      NameLinesListed(front);
      SelectSnoc(NameLines(front), Listed(cs[|cs| - 1].record.name), ListedOf);
    }
  }

  lemma {:induction false} NameLinesSilent<X>(cs: seq<Conference>, f: Line -> seq<X>)
    requires forall n :: f(Listed(n)) == []
    ensures Select(NameLines(cs), f) == []
    decreases |cs|
  {
    if cs != [] {
      NameLinesSilent(cs[..|cs| - 1], f);
      SelectSnoc(NameLines(cs[..|cs| - 1]), Listed(cs[|cs| - 1].record.name), f);
    }
  }

  /** The three kinds of lines a non-empty rendered bucket is made of. */
  lemma BucketParts<X>(b: Bucket, cs: seq<Conference>, cap: nat, f: Line -> seq<X>)
    requires cs != []
    ensures Select(BucketSection(b, cs, cap), f)
         == f(BucketHeading(b)) + Select(NameLines(Take(cs, cap)), f)
          + (if |cs| > cap then f(More(|cs| - cap)) else [])
  {
    SelectThree([BucketHeading(b)], NameLines(Take(cs, cap)), if |cs| > cap then [More(|cs| - cap)] else [], f);
    SelectOne(BucketHeading(b), f);
    if |cs| > cap {
      SelectOne(More(|cs| - cap), f);
    }
  }

  lemma BucketListed(b: Bucket, cs: seq<Conference>, cap: nat)
    ensures Select(BucketSection(b, cs, cap), ListedOf) == ConfNames(Take(cs, cap))
  {
    if cs != [] {
      NameLinesListed(Take(cs, cap));
      BucketParts(b, cs, cap, ListedOf);
    }
  }

  lemma BucketMore(b: Bucket, cs: seq<Conference>, cap: nat)
    ensures Select(BucketSection(b, cs, cap), MoreOf) == (if |cs| > cap then [|cs| - cap] else [])
  {
    if cs != [] {
      NameLinesSilent(Take(cs, cap), MoreOf);
      BucketParts(b, cs, cap, MoreOf);
    }
  }

  lemma BucketHeadingShown(b: Bucket, cs: seq<Conference>, cap: nat)
    ensures Select(BucketSection(b, cs, cap), HeadingOf) == (if cs == [] then [] else [b])
  {
    if cs != [] {
      NameLinesSilent(Take(cs, cap), HeadingOf);
      BucketParts(b, cs, cap, HeadingOf);
    }
  }

  /** A rendered bucket lists the names of its first min(len, cap) records,
      in order; it has one "and N more" line, with N = len - cap, exactly
      when len > cap, so the listed and the counted records are all of
      them; its heading appears exactly when the bucket is not empty. */
  lemma BucketListing(b: Bucket, cs: seq<Conference>, cap: nat)
    ensures Select(BucketSection(b, cs, cap), ListedOf) == ConfNames(Take(cs, cap))
    ensures |Select(BucketSection(b, cs, cap), ListedOf)| == Min(cap, |cs|)
    ensures Select(BucketSection(b, cs, cap), MoreOf) == (if |cs| > cap then [|cs| - cap] else [])
    ensures |Select(BucketSection(b, cs, cap), ListedOf)|
          + (if |cs| > cap then Select(BucketSection(b, cs, cap), MoreOf)[0] else 0) == |cs|
    ensures Select(BucketSection(b, cs, cap), HeadingOf) == (if cs == [] then [] else [b])
  {
    BucketListed(b, cs, cap);
    ConfNamesShape(Take(cs, cap));
    BucketMore(b, cs, cap);
    BucketHeadingShown(b, cs, cap);
  }

  lemma {:induction false} DetailLinesShow(ds: seq<string>)
    ensures Select(DetailLines(ds), DetailOf) == ds
    decreases |ds|
  {
    if ds != [] {
      var front := ds[..|ds| - 1];
      DetailLinesShow(front);
      SelectSnoc(DetailLines(front), Detail(ds[|ds| - 1]), DetailOf);
      assert ds == front + [ds[|ds| - 1]];
    }
  }

  /** An added record shows its first details, in order, and at most five
      of them. */
  lemma AddedDetailsCapped(c: Conference)
    ensures Select(AddedEntry(c), DetailOf) == Take(c.record.details, 5)
    ensures |Select(AddedEntry(c), DetailOf)| <= 5
  {
    DetailLinesShow(Take(c.record.details, 5));
    SelectAppend([AddedName(c.record.name)], DetailLines(Take(c.record.details, 5)), DetailOf);
    SelectOne(AddedName(c.record.name), DetailOf);
  }

  // The change sections show no bucket line.

  lemma {:induction false} DetailLinesSilent<X>(ds: seq<string>, f: Line -> seq<X>)
    requires forall t :: f(Detail(t)) == []
    ensures Select(DetailLines(ds), f) == []
    decreases |ds|
  {
    if ds != [] {
      DetailLinesSilent(ds[..|ds| - 1], f);
      SelectSnoc(DetailLines(ds[..|ds| - 1]), Detail(ds[|ds| - 1]), f);
    }
  }

  lemma {:induction false} AddedEntriesSilent<X>(cs: seq<Conference>, f: Line -> seq<X>)
    requires forall n :: f(AddedName(n)) == []
    requires forall t :: f(Detail(t)) == []
    ensures Select(AddedEntries(cs), f) == []
    decreases |cs|
  {
    if cs != [] {
      var c := cs[|cs| - 1];
      AddedEntriesSilent(cs[..|cs| - 1], f);
      DetailLinesSilent(Take(c.record.details, 5), f);
      SelectOne(AddedName(c.record.name), f);
      SelectAppend([AddedName(c.record.name)], DetailLines(Take(c.record.details, 5)), f);
      SelectAppend(AddedEntries(cs[..|cs| - 1]), AddedEntry(c), f);
    }
  }

  lemma {:induction false} RemovedLinesSilent<X>(cs: seq<Conference>, f: Line -> seq<X>)
    requires forall n :: f(RemovedName(n)) == []
    ensures Select(RemovedLines(cs), f) == []
    decreases |cs|
  {
    if cs != [] {
      RemovedLinesSilent(cs[..|cs| - 1], f);
      SelectSnoc(RemovedLines(cs[..|cs| - 1]), RemovedName(cs[|cs| - 1].record.name), f);
    }
  }

  lemma {:induction false} UpdateLinesSilent<X>(ms: seq<Modification>, f: Line -> seq<X>)
    requires forall n :: f(UpdatedName(n)) == []
    requires f(ChangeNote) == []
    ensures Select(UpdateLines(ms), f) == []
    decreases |ms|
  {
    if ms != [] {
      var m := ms[|ms| - 1];
      UpdateLinesSilent(ms[..|ms| - 1], f);
      SelectTwo(UpdatedName(m.after.record.name), ChangeNote, f);
      SelectAppend(UpdateLines(ms[..|ms| - 1]), [UpdatedName(m.after.record.name), ChangeNote], f);
    }
  }

  lemma AddedSectionSilent<X>(cs: seq<Conference>, f: Line -> seq<X>)
    requires f(AddedHeading) == []
    requires forall n :: f(AddedName(n)) == []
    requires forall t :: f(Detail(t)) == []
    ensures Select(AddedSection(cs), f) == []
  {
    if cs != [] {
      AddedEntriesSilent(cs, f);
      SelectOne(AddedHeading, f);
      SelectAppend([AddedHeading], AddedEntries(cs), f);
    }
  }

  lemma RemovedSectionSilent<X>(cs: seq<Conference>, f: Line -> seq<X>)
    requires f(RemovedHeading) == []
    requires forall n :: f(RemovedName(n)) == []
    ensures Select(RemovedSection(cs), f) == []
  {
    if cs != [] {
      RemovedLinesSilent(cs, f);
      SelectOne(RemovedHeading, f);
      SelectAppend([RemovedHeading], RemovedLines(cs), f);
    }
  }

  lemma UpdatesSectionSilent<X>(ms: seq<Modification>, f: Line -> seq<X>)
    requires f(UpdatesHeading) == [] && f(ChangeNote) == []
    requires forall n :: f(UpdatedName(n)) == []
    ensures Select(UpdatesSection(ms), f) == []
  {
    if ms != [] {
      UpdateLinesSilent(ms, f);
      SelectOne(UpdatesHeading, f);
      SelectAppend([UpdatesHeading], UpdateLines(ms), f);
    }
  }

  /** No line of the change sections is picked by a selection that picks
      none of their kinds of line. */
  lemma ChangeSectionsSilent<X>(changes: Changes, f: Line -> seq<X>)
    requires f(AddedHeading) == [] && f(RemovedHeading) == [] && f(UpdatesHeading) == [] && f(ChangeNote) == []
    requires forall n :: f(AddedName(n)) == [] && f(RemovedName(n)) == [] && f(UpdatedName(n)) == []
    requires forall t :: f(Detail(t)) == []
    ensures Select(ChangeSections(changes), f) == []
  {
    AddedSectionSilent(changes.added, f);
    RemovedSectionSilent(changes.removed, f);
    UpdatesSectionSilent(changes.modified, f);
    SelectThree(AddedSection(changes.added), RemovedSection(changes.removed), UpdatesSection(changes.modified), f);
  }

  // ---------------------------------------------------------------------
  // What the removed and updates sections show

  function RemovedNameOf(l: Line): seq<string> {
    if l.RemovedName? then [l.name] else []
  }

  function UpdatedNameOf(l: Line): seq<string> {
    if l.UpdatedName? then [l.name] else []
  }

  function NoteOf(l: Line): seq<Line> {
    if l.ChangeNote? then [l] else []
  }

  /** The new names of the changes, in order. */
  function NewNames(ms: seq<Modification>): seq<string>
    decreases |ms|
  {
    if ms == [] then [] else NewNames(ms[..|ms| - 1]) + [ms[|ms| - 1].after.record.name]
  }

  lemma {:induction false} NewNamesShape(ms: seq<Modification>)
    ensures |NewNames(ms)| == |ms|
    ensures forall k :: 0 <= k < |ms| ==> NewNames(ms)[k] == ms[k].after.record.name
    decreases |ms|
  {
    if ms != [] {
      NewNamesShape(ms[..|ms| - 1]);
    }
  }

  lemma {:induction false} RemovedLinesListed(cs: seq<Conference>)
    ensures Select(RemovedLines(cs), RemovedNameOf) == ConfNames(cs)
    decreases |cs|
  {
    if cs != [] {
      var front := cs[..|cs| - 1];
      RemovedLinesListed(front);
      SelectSnoc(RemovedLines(front), RemovedName(cs[|cs| - 1].record.name), RemovedNameOf);
    }
  }

  /** The removed section names every removed record once, in order. */
  lemma RemovedSectionListed(cs: seq<Conference>)
    ensures Select(RemovedSection(cs), RemovedNameOf) == ConfNames(cs)
    ensures |Select(RemovedSection(cs), RemovedNameOf)| == |cs|
  {
    if cs != [] {
      RemovedLinesListed(cs);
      SelectOne(RemovedHeading, RemovedNameOf);
      SelectAppend([RemovedHeading], RemovedLines(cs), RemovedNameOf);
    }
    ConfNamesShape(cs);
  }

  lemma {:induction false} UpdateLinesListed(ms: seq<Modification>)
    ensures Select(UpdateLines(ms), UpdatedNameOf) == NewNames(ms)
    decreases |ms|
  {
    if ms != [] {
      var m := ms[|ms| - 1];
      UpdateLinesListed(ms[..|ms| - 1]);
      SelectTwo(UpdatedName(m.after.record.name), ChangeNote, UpdatedNameOf);
      SelectAppend(UpdateLines(ms[..|ms| - 1]), [UpdatedName(m.after.record.name), ChangeNote], UpdatedNameOf);
    }
  }

  lemma {:induction false} UpdateLinesNotes(ms: seq<Modification>)
    ensures |Select(UpdateLines(ms), NoteOf)| == |ms|
    decreases |ms|
  {
    if ms != [] {
      var m := ms[|ms| - 1];
      UpdateLinesNotes(ms[..|ms| - 1]);
      SelectTwo(UpdatedName(m.after.record.name), ChangeNote, NoteOf);
      SelectAppend(UpdateLines(ms[..|ms| - 1]), [UpdatedName(m.after.record.name), ChangeNote], NoteOf);
    }
  }

  /** The updates section names each change by its new name, once and in
      order, and carries one change note per change. */
  lemma UpdatesSectionListed(ms: seq<Modification>)
    ensures Select(UpdatesSection(ms), UpdatedNameOf) == NewNames(ms)
    ensures |Select(UpdatesSection(ms), NoteOf)| == |ms|
  {
    if ms != [] {
      UpdateLinesListed(ms);
      UpdateLinesNotes(ms);
      SelectOne(UpdatesHeading, UpdatedNameOf);
      SelectOne(UpdatesHeading, NoteOf);
      SelectAppend([UpdatesHeading], UpdateLines(ms), UpdatedNameOf);
      SelectAppend([UpdatesHeading], UpdateLines(ms), NoteOf);
    }
  }

  lemma BucketSectionSilent<X>(b: Bucket, cs: seq<Conference>, cap: nat, f: Line -> seq<X>)
    requires forall k :: f(BucketHeading(k)) == []
    requires forall n :: f(Listed(n)) == []
    requires forall c :: f(More(c)) == []
    ensures Select(BucketSection(b, cs, cap), f) == []
  {
    if cs != [] {
      NameLinesSilent(Take(cs, cap), f);
      BucketParts(b, cs, cap, f);
    }
  }

  lemma BucketSectionsSilent<X>(all: seq<Conference>, f: Line -> seq<X>)
    requires forall k :: f(BucketHeading(k)) == []
    requires forall n :: f(Listed(n)) == []
    requires forall c :: f(More(c)) == []
    ensures Select(BucketSections(all), f) == []
  {
    BucketSectionSilent(CallForPapers, InBucket(all, CallForPapers, Classify), 10, f);
    BucketSectionSilent(SchedulePublished, InBucket(all, SchedulePublished, Classify), 10, f);
    BucketSectionSilent(Active, InBucket(all, Active, Classify), 15, f);
    SelectThree(BucketSection(CallForPapers, InBucket(all, CallForPapers, Classify), 10),
                BucketSection(SchedulePublished, InBucket(all, SchedulePublished, Classify), 10),
                BucketSection(Active, InBucket(all, Active, Classify), 15), f);
  }

  /** The buckets a body renders: each of the first three exactly when it
      is not empty, in the order call for papers, schedule published,
      active. */
  function Rendered(all: seq<Conference>): seq<Bucket> {
    (if InBucket(all, CallForPapers, Classify) == [] then [] else [CallForPapers])
    + (if InBucket(all, SchedulePublished, Classify) == [] then [] else [SchedulePublished])
    + (if InBucket(all, Active, Classify) == [] then [] else [Active])
  }

  lemma BucketSectionsHeadings(all: seq<Conference>)
    ensures Select(BucketSections(all), HeadingOf) == Rendered(all)
  {
    BucketHeadingShown(CallForPapers, InBucket(all, CallForPapers, Classify), 10);
    BucketHeadingShown(SchedulePublished, InBucket(all, SchedulePublished, Classify), 10);
    BucketHeadingShown(Active, InBucket(all, Active, Classify), 15);
    SelectThree(BucketSection(CallForPapers, InBucket(all, CallForPapers, Classify), 10),
                BucketSection(SchedulePublished, InBucket(all, SchedulePublished, Classify), 10),
                BucketSection(Active, InBucket(all, Active, Classify), 15), HeadingOf);
  }

  lemma BucketSectionsListed(all: seq<Conference>)
    ensures Select(BucketSections(all), ListedOf)
         == ConfNames(Take(InBucket(all, CallForPapers, Classify), 10))
          + ConfNames(Take(InBucket(all, SchedulePublished, Classify), 10))
          + ConfNames(Take(InBucket(all, Active, Classify), 15))
  {
    BucketListed(CallForPapers, InBucket(all, CallForPapers, Classify), 10);
    BucketListed(SchedulePublished, InBucket(all, SchedulePublished, Classify), 10);
    BucketListed(Active, InBucket(all, Active, Classify), 15);
    SelectThree(BucketSection(CallForPapers, InBucket(all, CallForPapers, Classify), 10),
                BucketSection(SchedulePublished, InBucket(all, SchedulePublished, Classify), 10),
                BucketSection(Active, InBucket(all, Active, Classify), 15), ListedOf);
  }

  /** Fixed lines around two runs of lines, none picked by f. */
  lemma SelectFrame<X>(a: Line, b: Line, middle: seq<Line>, c: Line, d: Line, tail: seq<Line>, e: Line, f: Line -> seq<X>)
    requires f(a) == [] && f(b) == [] && f(c) == [] && f(d) == [] && f(e) == []
    ensures Select([a, b] + middle + [c, d] + tail + [e], f) == Select(middle, f) + Select(tail, f)
  {
    var front := [a, b] + middle + [c, d];
    assert Select(front, f) == Select(middle, f) by {
      SelectThree([a, b], middle, [c, d], f);
      SelectTwo(a, b, f);
      SelectTwo(c, d, f);
    }
    SelectThree(front, tail, [e], f);
    SelectOne(e, f);
  }

  /** f picks none of the fixed lines of a body. */
  predicate SilentOnFixed<X>(f: Line -> seq<X>, detectedAt: string, total: nat) {
    && f(Title) == [] && f(DetectedAt(detectedAt)) == [] && f(CurrentHeading) == []
    && f(Total(total)) == [] && f(Footer) == []
  }

  lemma SelectorsSilentOnFixed(detectedAt: string, total: nat)
    ensures SilentOnFixed(HeadingOf, detectedAt, total) && SilentOnFixed(ListedOf, detectedAt, total)
    ensures SilentOnFixed(RemovedNameOf, detectedAt, total) && SilentOnFixed(UpdatedNameOf, detectedAt, total)
  {
  }

  /** The lines of a body by part, for a selection that picks none of the
      fixed lines. */
  lemma BodyParts<X>(changes: Changes, all: seq<Conference>, detectedAt: string, f: Line -> seq<X>)
    requires SilentOnFixed(f, detectedAt, |all|)
    ensures Select(Body(changes, all, detectedAt), f) == Select(ChangeSections(changes), f) + Select(BucketSections(all), f)
  {
    SelectFrame(Title, DetectedAt(detectedAt), ChangeSections(changes), CurrentHeading, Total(|all|),
                BucketSections(all), Footer, f);
  }

  /** The body renders a bucket heading for each non-empty bucket among
      the first three, in that order, and never one for the other bucket. */
  lemma BodyHeadings(changes: Changes, all: seq<Conference>, detectedAt: string)
    ensures Select(Body(changes, all, detectedAt), HeadingOf) == Rendered(all)
    ensures Other !in Select(Body(changes, all, detectedAt), HeadingOf)
  {
    assert Select(ChangeSections(changes), HeadingOf) == [] by {
      ChangeSectionsSilent(changes, HeadingOf);
    }
    assert Select(BucketSections(all), HeadingOf) == Rendered(all) by {
      BucketSectionsHeadings(all);
    }
    assert Select(Body(changes, all, detectedAt), HeadingOf)
        == Select(ChangeSections(changes), HeadingOf) + Select(BucketSections(all), HeadingOf) by {
      SelectorsSilentOnFixed(detectedAt, |all|);
      BodyParts(changes, all, detectedAt, HeadingOf);
    }
    RenderedNoOther(all);
  }

  lemma RenderedNoOther(all: seq<Conference>)
    ensures Other !in Rendered(all)
  {
  }

  /** The names the body lists under the bucket headings are the first 10
      calls for papers, the first 10 published schedules and the first 15
      active records, in the order of the current records. */
  lemma BodyListed(changes: Changes, all: seq<Conference>, detectedAt: string)
    ensures Select(Body(changes, all, detectedAt), ListedOf)
         == ConfNames(Take(InBucket(all, CallForPapers, Classify), 10))
          + ConfNames(Take(InBucket(all, SchedulePublished, Classify), 10))
          + ConfNames(Take(InBucket(all, Active, Classify), 15))
  {
    assert Select(ChangeSections(changes), ListedOf) == [] by {
      ChangeSectionsSilent(changes, ListedOf);
    }
    BucketSectionsListed(all);
    assert Select(Body(changes, all, detectedAt), ListedOf)
        == Select(ChangeSections(changes), ListedOf) + Select(BucketSections(all), ListedOf) by {
      SelectorsSilentOnFixed(detectedAt, |all|);
      BodyParts(changes, all, detectedAt, ListedOf);
    }
  }

  lemma ChangeSectionsRemoved(changes: Changes)
    ensures Select(ChangeSections(changes), RemovedNameOf) == ConfNames(changes.removed)
  {
    AddedSectionSilent(changes.added, RemovedNameOf);
    RemovedSectionListed(changes.removed);
    UpdatesSectionSilent(changes.modified, RemovedNameOf);
    SelectThree(AddedSection(changes.added), RemovedSection(changes.removed), UpdatesSection(changes.modified), RemovedNameOf);
  }

  lemma ChangeSectionsUpdated(changes: Changes)
    ensures Select(ChangeSections(changes), UpdatedNameOf) == NewNames(changes.modified)
  {
    AddedSectionSilent(changes.added, UpdatedNameOf);
    RemovedSectionSilent(changes.removed, UpdatedNameOf);
    UpdatesSectionListed(changes.modified);
    SelectThree(AddedSection(changes.added), RemovedSection(changes.removed), UpdatesSection(changes.modified), UpdatedNameOf);
  }

  lemma BucketSectionsNoRemoved(all: seq<Conference>)
    ensures Select(BucketSections(all), RemovedNameOf) == []
  {
    BucketSectionsSilent(all, RemovedNameOf);
  }

  lemma BucketSectionsNoUpdated(all: seq<Conference>)
    ensures Select(BucketSections(all), UpdatedNameOf) == []
  {
    BucketSectionsSilent(all, UpdatedNameOf);
  }

  /** The body names every removed record once, in order, and nowhere else. */
  lemma BodyRemoved(changes: Changes, all: seq<Conference>, detectedAt: string)
    ensures Select(Body(changes, all, detectedAt), RemovedNameOf) == ConfNames(changes.removed)
  {
    ChangeSectionsRemoved(changes);
    BucketSectionsNoRemoved(all);
    assert Select(Body(changes, all, detectedAt), RemovedNameOf)
        == Select(ChangeSections(changes), RemovedNameOf) + Select(BucketSections(all), RemovedNameOf) by {
      SelectorsSilentOnFixed(detectedAt, |all|);
      BodyParts(changes, all, detectedAt, RemovedNameOf);
    }
  }

  /** The body names every change once, by its new name, in order. */
  lemma BodyUpdated(changes: Changes, all: seq<Conference>, detectedAt: string)
    ensures Select(Body(changes, all, detectedAt), UpdatedNameOf) == NewNames(changes.modified)
  {
    ChangeSectionsUpdated(changes);
    BucketSectionsNoUpdated(all);
    assert Select(Body(changes, all, detectedAt), UpdatedNameOf)
        == Select(ChangeSections(changes), UpdatedNameOf) + Select(BucketSections(all), UpdatedNameOf) by {
      SelectorsSilentOnFixed(detectedAt, |all|);
      BodyParts(changes, all, detectedAt, UpdatedNameOf);
    }
  }
}
