/** compare_conferences (scripts/check_conferences.py:116-154): index both
    snapshots by id, then list the records whose id is only in the new
    snapshot, those whose id is only in the old one, and the pairs under a
    shared id whose compared fields differ. The script walks Python sets,
    whose order is unspecified; the loops here pick each next id with `:|`,
    and every property is stated about ids, not positions. */
module Differ {
  import opened Records

  /** A changed record: its id, the old record and the new one. */
  datatype Modification = Modification(id: string, before: Conference, after: Conference)

  datatype Changes = Changes(added: seq<Conference>, removed: seq<Conference>, modified: seq<Modification>)

  // ---------------------------------------------------------------------
  // Indexing a snapshot by id (scripts/check_conferences.py:118-122)

  /** {conf['id']: conf for conf in cs}: a later record with the same id
      replaces an earlier one. */
  function ById(cs: seq<Conference>): map<string, Conference>
    decreases |cs|
  {
    if cs == [] then map[] else ById(cs[..|cs| - 1])[cs[|cs| - 1].id := cs[|cs| - 1]]
  }

  /** The ids of a snapshot. */
  function Ids(cs: seq<Conference>): set<string> {
    ById(cs).Keys
  }

  /** Position j holds the last record of cs with the given id. */
  predicate LastWith(cs: seq<Conference>, id: string, j: int) {
    0 <= j < |cs| && cs[j].id == id && forall k :: j < k < |cs| ==> cs[k].id != id
  }

  /** The index has one key per id in the snapshot, and under each key the
      last record carrying that id. */
  lemma {:induction false} ByIdLastWins(cs: seq<Conference>)
    ensures Ids(cs) == set c | c in cs :: c.id
    ensures forall id :: id in Ids(cs) ==> exists j :: LastWith(cs, id, j) && ById(cs)[id] == cs[j]
    decreases |cs|
  {
    if cs != [] {
      var front := cs[..|cs| - 1];
      var last := cs[|cs| - 1];
      ByIdLastWins(front);
      assert cs == front + [last];
      forall id | id in Ids(cs)
        ensures exists j :: LastWith(cs, id, j) && ById(cs)[id] == cs[j]
      {
        if id == last.id {
          assert LastWith(cs, id, |cs| - 1);
        } else {
          var j :| LastWith(front, id, j) && ById(front)[id] == front[j];
          assert LastWith(cs, id, j);
        }
      }
    }
  }

  /** Every record stored under an id carries that id. */
  lemma {:induction false} ByIdKeys(cs: seq<Conference>)
    ensures forall id :: id in ById(cs) ==> ById(cs)[id].id == id
    decreases |cs|
  {
    if cs != [] {
      ByIdKeys(cs[..|cs| - 1]);
    }
  }

  // ---------------------------------------------------------------------
  // What the three lists hold

  /** The fields compared at scripts/check_conferences.py:144-147; the name
      is not one of them. */
  predicate Changed(a: Conference, b: Conference) {
    || a.record.details != b.record.details
    || a.record.parsedDate != b.record.parsedDate
    || a.record.location != b.record.location
    || a.record.status != b.record.status
  }

  function AddedIds(oldData: seq<Conference>, newData: seq<Conference>): set<string> {
    Ids(newData) - Ids(oldData)
  }

  function RemovedIds(oldData: seq<Conference>, newData: seq<Conference>): set<string> {
    Ids(oldData) - Ids(newData)
  }

  /** The ids among common whose records in om and nm differ. */
  function ChangedIn(common: set<string>, om: map<string, Conference>, nm: map<string, Conference>): set<string>
    requires common <= om.Keys && common <= nm.Keys
  {
    set id | id in common && Changed(om[id], nm[id])
  }

  function ModifiedIds(oldData: seq<Conference>, newData: seq<Conference>): set<string> {
    ChangedIn(Ids(oldData) * Ids(newData), ById(oldData), ById(newData))
  }

  /** The ids of a list of records. */
  function IdsOf(cs: seq<Conference>): set<string> {
    set c | c in cs :: c.id
  }

  function ModIds(ms: seq<Modification>): set<string> {
    set m | m in ms :: m.id
  }

  /** out lists, once each and in some order, the records m holds under ids. */
  predicate Lists(out: seq<Conference>, ids: set<string>, m: map<string, Conference>)
    requires ids <= m.Keys
  {
    && IdsOf(out) == ids
    && |out| == |ids|
    && (forall a, b :: 0 <= a < b < |out| ==> out[a].id != out[b].id)
    && (forall k :: 0 <= k < |out| ==> out[k].id in ids && out[k] == m[out[k].id])
  }

  // ---------------------------------------------------------------------
  // The differ

  lemma IdsOfSnoc(out: seq<Conference>, c: Conference)
    ensures IdsOf(out + [c]) == IdsOf(out) + {c.id}
  {
    assert forall x :: x in out + [c] <==> x in out || x == c;
  }

  lemma ModIdsSnoc(ms: seq<Modification>, m: Modification)
    ensures ModIds(ms + [m]) == ModIds(ms) + {m.id}
  {
    assert forall x :: x in ms + [m] <==> x in ms || x == m;
  }

  /** Appending the record under one more id keeps the listing exact. */
  lemma ListsSnoc(out: seq<Conference>, ids: set<string>, todo: set<string>, m: map<string, Conference>, id: string)
    requires ids <= m.Keys && todo <= ids && id in todo && m[id].id == id
    requires Lists(out, ids - todo, m)
    ensures Lists(out + [m[id]], ids - (todo - {id}), m)
  {
    var done := ids - todo;
    var out' := out + [m[id]];
    SetStep(ids, todo, id);
    assert IdsOf(out') == done + {id} by {
      IdsOfSnoc(out, m[id]);
    }
    assert |out'| == |done + {id}|;
    assert forall a, b :: 0 <= a < b < |out'| ==> out'[a].id != out'[b].id by {
      SnocDistinct(out, m[id], done);
    }
    assert forall k :: 0 <= k < |out'| ==> out'[k].id in done + {id} && out'[k] == m[out'[k].id] by {
      SnocStored(out, m, done, id);
    }
  }

  /** Appending the record stored under id keeps every entry the one
      stored under its id. */
  lemma SnocStored(out: seq<Conference>, m: map<string, Conference>, done: set<string>, id: string)
    requires id in m && m[id].id == id
    requires forall k :: 0 <= k < |out| ==> out[k].id in done && out[k].id in m && out[k] == m[out[k].id]
    ensures forall k :: 0 <= k < |out + [m[id]]| ==>
      (out + [m[id]])[k].id in done + {id} && (out + [m[id]])[k] == m[(out + [m[id]])[k].id]
  {
    var out' := out + [m[id]];
    forall k | 0 <= k < |out'|
      ensures out'[k].id in done + {id} && out'[k] == m[out'[k].id]
    {
      if k < |out| {
        assert out'[k] == out[k];
      }
    }
  }

  lemma SetStep(ids: set<string>, todo: set<string>, id: string)
    requires todo <= ids && id in todo
    ensures ids - (todo - {id}) == (ids - todo) + {id}
    ensures id !in ids - todo
  {
  }

  /** A record under an id not yet listed keeps the ids distinct. */
  lemma SnocDistinct(out: seq<Conference>, c: Conference, done: set<string>)
    requires forall k :: 0 <= k < |out| ==> out[k].id in done
    requires forall a, b :: 0 <= a < b < |out| ==> out[a].id != out[b].id
    requires c.id !in done
    ensures forall a, b :: 0 <= a < b < |out + [c]| ==> (out + [c])[a].id != (out + [c])[b].id
  {
    var out' := out + [c];
    forall a, b | 0 <= a < b < |out'|
      ensures out'[a].id != out'[b].id
    {
      if b == |out| {
        assert out[a].id in done;
      } else {
        assert out'[a] == out[a] && out'[b] == out[b];
      }
    }
  }

  /** One of the loops at scripts/check_conferences.py:131-136: the records
      under the given ids, each once, in an unspecified order. */
  method CollectIds(ids: set<string>, m: map<string, Conference>) returns (out: seq<Conference>)
    requires ids <= m.Keys
    requires forall id :: id in m ==> m[id].id == id
    ensures Lists(out, ids, m)
  {
    out := [];
    var todo := ids;
    while todo != {}
      invariant todo <= ids
      invariant Lists(out, ids - todo, m)
      decreases |todo|
    {
      var id :| id in todo;
      ListsSnoc(out, ids, todo, m, id);
      out := out + [m[id]];
      todo := todo - {id};
    }
    assert ids - todo == ids;
  }

  /** ms has one entry for each id of ChangedIn(done, om, nm), holding the
      two records under that id. */
  predicate ListsChanged(ms: seq<Modification>, done: set<string>, om: map<string, Conference>, nm: map<string, Conference>)
    requires done <= om.Keys && done <= nm.Keys
  {
    && ModIds(ms) == ChangedIn(done, om, nm)
    && |ms| == |ModIds(ms)|
    && forall k :: 0 <= k < |ms| ==> ms[k].id in done && ms[k].before == om[ms[k].id] && ms[k].after == nm[ms[k].id]
  }

  lemma ChangedInAdd(done: set<string>, om: map<string, Conference>, nm: map<string, Conference>, id: string)
    requires done <= om.Keys && done <= nm.Keys && id in om && id in nm
    ensures ChangedIn(done + {id}, om, nm) == ChangedIn(done, om, nm) + (if Changed(om[id], nm[id]) then {id} else {})
  {
  }

  /** A shared id whose records differ adds one entry. */
  lemma ListsChangedAdd(ms: seq<Modification>, done: set<string>, om: map<string, Conference>, nm: map<string, Conference>, id: string)
    requires done <= om.Keys && done <= nm.Keys && id in om && id in nm && id !in done
    requires Changed(om[id], nm[id]) && ListsChanged(ms, done, om, nm)
    ensures ListsChanged(ms + [Modification(id, om[id], nm[id])], done + {id}, om, nm)
  {
    ChangedInAdd(done, om, nm, id);
    ModIdsSnoc(ms, Modification(id, om[id], nm[id]));
  }

  /** A shared id whose records agree adds nothing. */
  lemma ListsChangedKeep(ms: seq<Modification>, done: set<string>, om: map<string, Conference>, nm: map<string, Conference>, id: string)
    requires done <= om.Keys && done <= nm.Keys && id in om && id in nm
    requires !Changed(om[id], nm[id]) && ListsChanged(ms, done, om, nm)
    ensures ListsChanged(ms, done + {id}, om, nm)
  {
    ChangedInAdd(done, om, nm, id);
  }

  /** The loop at scripts/check_conferences.py:139-152 over the shared ids:
      one entry per id whose compared fields differ, in an unspecified
      order. */
  method CollectChanged(common: set<string>, om: map<string, Conference>, nm: map<string, Conference>)
    returns (modified: seq<Modification>)
    requires common <= om.Keys && common <= nm.Keys
    ensures ListsChanged(modified, common, om, nm)
  {
    modified := [];
    var todo := common;
    while todo != {}
      invariant todo <= common
      invariant ListsChanged(modified, common - todo, om, nm)
      decreases |todo|
    {
      var confId :| confId in todo;
      var oldConf := om[confId];
      var newConf := nm[confId];
      ghost var done := common - todo;
      if Changed(oldConf, newConf) {
        ListsChangedAdd(modified, done, om, nm, confId);
        modified := modified + [Modification(confId, oldConf, newConf)];
      } else {
        ListsChangedKeep(modified, done, om, nm, confId);
      }
      todo := todo - {confId};
      assert common - todo == done + {confId};
    }
    assert common - todo == common;
  }

  /** compare_conferences. */
  method CompareConferences(oldData: seq<Conference>, newData: seq<Conference>) returns (changes: Changes)
    ensures Lists(changes.added, AddedIds(oldData, newData), ById(newData))
    ensures Lists(changes.removed, RemovedIds(oldData, newData), ById(oldData))
    ensures ListsChanged(changes.modified, Ids(oldData) * Ids(newData), ById(oldData), ById(newData))
  {
    var oldConferences := ById(oldData);
    var newConferences := ById(newData);
    ByIdKeys(oldData);
    ByIdKeys(newData);
    var oldIds := oldConferences.Keys;
    var newIds := newConferences.Keys;
    var added := CollectIds(newIds - oldIds, newConferences);
    var removed := CollectIds(oldIds - newIds, oldConferences);
    var modified := CollectChanged(oldIds * newIds, oldConferences, newConferences);
    changes := Changes(added, removed, modified);
  }

  // ---------------------------------------------------------------------
  // Properties of the differ

  /** A modification's ids are distinct: the set of its ids has as many
      elements as the list. */
  lemma ModIdsDistinct(ms: seq<Modification>)
    requires |ModIds(ms)| == |ms|
    ensures forall a, b :: 0 <= a < b < |ms| ==> ms[a].id != ms[b].id
  {
    forall a, b | 0 <= a < b < |ms|
      ensures ms[a].id != ms[b].id
    {
      if ms[a].id == ms[b].id {
        ModIdsBound(ms, a, b);
      }
    }
  }

  /** A list with two entries under one id has fewer ids than entries. */
  lemma {:induction false} ModIdsBound(ms: seq<Modification>, a: nat, b: nat)
    requires a < b < |ms| && ms[a].id == ms[b].id
    ensures |ModIds(ms)| < |ms|
  {
    var rest := ms[..b] + ms[b + 1..];
    assert ms == ms[..b] + [ms[b]] + ms[b + 1..];
    assert ModIds(ms) == ModIds(rest) by {
      assert ms[b].id == rest[a].id;
      forall id | id in ModIds(ms)
        ensures id in ModIds(rest)
      {
        var m :| m in ms && m.id == id;
        var i :| 0 <= i < |ms| && ms[i] == m;
        if i < b {
          assert rest[i] == m;
        } else if i > b {
          assert rest[i - 1] == m;
        }
      }
    }
    ModIdsSize(rest);
  }

  lemma {:induction false} ModIdsSize(ms: seq<Modification>)
    ensures |ModIds(ms)| <= |ms|
    decreases |ms|
  {
    if ms != [] {
      ModIdsSize(ms[1..]);
      assert ModIds(ms) == {ms[0].id} + ModIds(ms[1..]) by {
        assert ms == [ms[0]] + ms[1..];
      }
    }
  }

  /** Every entry of a modified list is under an id of both snapshots,
      holds the two records stored under it and they differ in a compared
      field; no id is listed twice, and every such id is listed. */
  lemma ModifiedEntries(ms: seq<Modification>, oldData: seq<Conference>, newData: seq<Conference>)
    requires ListsChanged(ms, Ids(oldData) * Ids(newData), ById(oldData), ById(newData))
    ensures forall k :: 0 <= k < |ms| ==>
      && ms[k].id in Ids(oldData) && ms[k].id in Ids(newData)
      && ms[k].before == ById(oldData)[ms[k].id] && ms[k].after == ById(newData)[ms[k].id]
      && Changed(ms[k].before, ms[k].after)
    ensures forall a, b :: 0 <= a < b < |ms| ==> ms[a].id != ms[b].id
    ensures ModIds(ms) == ModifiedIds(oldData, newData)
  {
    forall k | 0 <= k < |ms|
      ensures Changed(ms[k].before, ms[k].after)
    {
      assert ms[k] in ms;
      assert ms[k].id in ModIds(ms);
    }
    ModIdsDistinct(ms);
  }

  /** Identical snapshots: nothing added, removed or modified. */
  lemma IdenticalSnapshots(cs: seq<Conference>)
    ensures AddedIds(cs, cs) == {} && RemovedIds(cs, cs) == {} && ModifiedIds(cs, cs) == {}
  {
  }

  /** Swapping the snapshots swaps added and removed and keeps the modified
      ids. */
  lemma SwapSnapshots(a: seq<Conference>, b: seq<Conference>)
    ensures AddedIds(a, b) == RemovedIds(b, a)
    ensures RemovedIds(a, b) == AddedIds(b, a)
    ensures ModifiedIds(a, b) == ModifiedIds(b, a)
  {
  }

  /** A record that vanishes from a one-record snapshot is the only change. */
  lemma OnlyRemoved(c: Conference)
    ensures AddedIds([c], []) == {}
    ensures RemovedIds([c], []) == {c.id}
    ensures ModifiedIds([c], []) == {}
  {
    assert ById([c]) == map[c.id := c] by {
      assert [c][..0] == [];
    }
  }

  /** A renamed record under an unchanged id is not reported: the name is
      not compared. */
  lemma RenameNotModified(a: Conference, name: string)
    ensures !Changed(a, a.(record := a.record.(name := name)))
  {
  }
}
