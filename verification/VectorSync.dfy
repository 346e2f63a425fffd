/** Merging team memory between replicas: a join on (version, content hash). */
module VectorSync {
  import opened Text

  /** `contentHash` is the 256-bit digest read as a number; equal-length hex strings compare the same way. */
  datatype Record = Record(id: string, orgId: string, content: string, version: int, contentHash: nat)

  /** `None` is the error for records of two organizations. */
  function ResolveConflict(local: Record, remote: Record): Option<Record> {
    if local.orgId != remote.orgId then None
    else if remote.version != local.version then Some(if remote.version > local.version then remote else local)
    else Some(if remote.contentHash > local.contentHash then remote else local)
  }

  datatype Merged = Merged(records: map<string, Record>, conflicts: nat)

  function Step(m: Merged, item: Record): Option<Merged> {
    if item.id !in m.records then Some(m.(records := m.records[item.id := item]))
    else if m.records[item.id] == item then Some(m)
    else
      var winner := ResolveConflict(m.records[item.id], item);
      if winner.None? then None
      else Some(Merged(m.records[item.id := winner.value], m.conflicts + 1))
  }

  /** Merging the records of `remote` one after the other. */
  function MergeAll(records: map<string, Record>, remote: seq<Record>): Option<Merged> {
    if remote == [] then Some(Merged(records, 0)) else
      var before := MergeAll(records, remote[..|remote| - 1]);
      if before.None? then None else Step(before.value, remote[|remote| - 1])
  }

  /** `{item.id: item for item in local}`: the last record of each id. */
  function ById(local: seq<Record>): map<string, Record> {
    if local == [] then map[] else ById(local[..|local| - 1])[local[|local| - 1].id := local[|local| - 1]]
  }

  /** Record `i` is the last one of its id. */
  predicate LastOfId(local: seq<Record>, i: nat)
    requires i < |local|
  {
    forall j :: i < j < |local| ==> local[j].id != local[i].id
  }

  lemma {:induction false} ByIdExactly(local: seq<Record>, id: string)
    ensures id in ById(local) <==> exists i :: 0 <= i < |local| && local[i].id == id
    ensures forall i :: 0 <= i < |local| && local[i].id == id && LastOfId(local, i) ==> ById(local)[id] == local[i]
    decreases |local|
  {
    if local != [] {
      var rest, n := local[..|local| - 1], |local| - 1;
      ByIdExactly(rest, id);
      if id in ById(rest) {
        var i :| 0 <= i < |rest| && rest[i].id == id;
        assert local[i].id == id;
      }
      forall i | 0 <= i < |local| && local[i].id == id && LastOfId(local, i)
        ensures id in ById(local) && ById(local)[id] == local[i]
      {
        if i < n {
          assert rest[i] == local[i] && LastOfId(rest, i);
        }
      }
      assert forall i :: 0 <= i < |local| && local[i].id == id ==> i == n || rest[i].id == id;
    }
  }

  // ---------------------------------------------------------------- the program

  /** A dictionary with its insertion order. */
  ghost predicate Listing(keys: seq<string>, records: map<string, Record>) {
    (forall i, j :: 0 <= i < j < |keys| ==> keys[i] != keys[j]) &&
    (forall k :: k in keys <==> k in records) &&
    forall k :: k in records ==> records[k].id == k
  }

  lemma ListingUpdate(keys: seq<string>, records: map<string, Record>, item: Record)
    requires Listing(keys, records)
    ensures Listing(if item.id in records then keys else keys + [item.id], records[item.id := item])
  {
    var more := if item.id in records then keys else keys + [item.id];
    assert forall k :: k in more <==> k in keys || k == item.id;
  }

  lemma ListingKeys(keys: seq<string>, records: map<string, Record>)
    requires Listing(keys, records)
    ensures (forall j :: 0 <= j < |keys| ==> keys[j] in records) && forall k :: k in records ==> records[k].id == k
  {
  }

  lemma NoneMerged(records: map<string, Record>, remote: seq<Record>)
    ensures MergeAll(records, remote[..0]) == Some(Merged(records, 0))
  {
  }

  lemma MergeNext(records: map<string, Record>, remote: seq<Record>, i: nat)
    requires i < |remote|
    ensures MergeAll(records, remote[..i + 1]) ==
            if MergeAll(records, remote[..i]).None? then None else Step(MergeAll(records, remote[..i]).value, remote[i])
  {
    assert remote[..i + 1][..i] == remote[..i];
  }

  /** The merged records in dictionary order, with the number of conflicts resolved. */
  method MergeRecords(local: seq<Record>, remote: seq<Record>) returns (r: Result<(seq<Record>, nat)>)
    ensures r.Err? <==> MergeAll(ById(local), remote).None?
    ensures r.Ok? ==> var m := MergeAll(ById(local), remote).value;
                      r.value.1 == m.conflicts && |r.value.0| == |m.records| &&
                      (forall item :: item in r.value.0 <==> item.id in m.records && m.records[item.id] == item)
    ensures r.Ok? ==> forall i, j :: 0 <= i < j < |r.value.0| ==> r.value.0[i].id != r.value.0[j].id
  {
    hide MergeAll, ById, Listing;
    var keys, merged := ListById(local);
    var conflicts := 0;
    var i := 0;
    NoneMerged(ById(local), remote);
    while i < |remote|
      invariant i <= |remote| && Listing(keys, merged)
      invariant MergeAll(ById(local), remote[..i]) == Some(Merged(merged, conflicts))
    {
      var item := remote[i];
      MergeNext(ById(local), remote, i);
      ListingUpdate(keys, merged, item);
      ListingKeys(keys, merged);
      if item.id !in merged {
        keys := keys + [item.id];
        merged := merged[item.id := item];
      } else if merged[item.id] != item {
        conflicts := conflicts + 1;
        var winner := ResolveConflict(merged[item.id], item);
        if winner.None? {
          ErrorStays(ById(local), remote, i + 1);
          return Err("cross-organization memory merge is forbidden");
        }
        ListingUpdate(keys, merged, winner.value);
        merged := merged[item.id := winner.value];
      }
      i := i + 1;
    }
    assert remote[..i] == remote;
    ListingKeys(keys, merged);
    var values := seq(|keys|, j requires 0 <= j < |keys| => merged[keys[j]]);
    ListingSize(keys, merged);
    ListingValues(keys, merged, values);
    return Ok((values, conflicts));
  }

  method ListById(local: seq<Record>) returns (keys: seq<string>, merged: map<string, Record>)
    ensures merged == ById(local) && Listing(keys, merged)
  {
    keys, merged := [], map[];
    var i := 0;
    while i < |local|
      invariant i <= |local| && merged == ById(local[..i]) && Listing(keys, merged)
    {
      assert local[..i + 1][..i] == local[..i];
      if local[i].id !in merged {
        keys := keys + [local[i].id];
      }
      merged := merged[local[i].id := local[i]];
      i := i + 1;
    }
    assert local[..i] == local;
  }

  lemma {:induction false} ErrorStays(records: map<string, Record>, remote: seq<Record>, i: nat)
    requires i <= |remote| && MergeAll(records, remote[..i]).None?
    ensures MergeAll(records, remote).None?
    decreases |remote|
  {
    if i < |remote| {
      assert remote[..|remote| - 1][..i] == remote[..i];
      ErrorStays(records, remote[..|remote| - 1], i);
    } else {
      assert remote[..i] == remote;
    }
  }

  lemma ListingFewer(keys: seq<string>, records: map<string, Record>)
    requires Listing(keys, records) && keys != []
    ensures Listing(keys[..|keys| - 1], records - {keys[|keys| - 1]})
    ensures keys[|keys| - 1] in records
  {
    var last, fewer := keys[|keys| - 1], keys[..|keys| - 1];
    assert keys == fewer + [last];
  }

  lemma {:induction false} ListingSize(keys: seq<string>, records: map<string, Record>)
    requires Listing(keys, records)
    ensures |keys| == |records|
    decreases |keys|
  {
    if keys == [] {
      assert records == map[];
    } else {
      var last, fewer := keys[|keys| - 1], keys[..|keys| - 1];
      ListingFewer(keys, records);
      ListingSize(fewer, records - {last});
      assert records.Keys == (records - {last}).Keys + {last};
    }
  }

  lemma ListingValues(keys: seq<string>, records: map<string, Record>, values: seq<Record>)
    requires Listing(keys, records) && |values| == |keys| && forall j :: 0 <= j < |keys| ==> values[j] == records[keys[j]]
    ensures forall item :: item in values <==> item.id in records && records[item.id] == item
    ensures forall i, j :: 0 <= i < j < |values| ==> values[i].id != values[j].id
  {
    forall item: Record | item.id in records && records[item.id] == item
      ensures item in values
    {
      assert item.id in keys;
      var j :| 0 <= j < |keys| && keys[j] == item.id;
      assert values[j] == item;
    }
  }

  // ---------------------------------------------------------------- the join

  /** `a` loses against `b` or ties with it. */
  predicate AtMost(a: Record, b: Record) {
    a.version < b.version || (a.version == b.version && a.contentHash <= b.contentHash)
  }

  /** Each id has its greatest record among `seen`. */
  ghost predicate IsMaxOf(records: map<string, Record>, seen: set<Record>) {
    (forall id :: id in records ==> records[id] in seen && records[id].id == id) &&
    (forall r :: r in seen ==> r.id in records && AtMost(r, records[r.id]))
  }

  ghost predicate OneOrg(seen: set<Record>, org: string) {
    forall r :: r in seen ==> r.orgId == org
  }

  /** Different records of one id differ in version or hash: what a collision-free hash gives within one organization. */
  ghost predicate CollisionFree(seen: set<Record>) {
    forall a, b :: a in seen && b in seen && a.id == b.id && a.version == b.version && a.contentHash == b.contentHash
      ==> a == b
  }

  /** A digest without collisions, and `make`, give collision-free records. */
  lemma MadeCollisionFree(seen: set<Record>, org: string, digest: string -> nat)
    requires OneOrg(seen, org) && (forall r :: r in seen ==> r.contentHash == digest(r.content))
    requires forall r, q :: r in seen && q in seen && digest(r.content) == digest(q.content) ==> r.content == q.content
    ensures CollisionFree(seen)
  {
  }

  function Items(s: seq<Record>): set<Record> {
    set r | r in s
  }

  lemma StepIsMax(m: Merged, seen: set<Record>, item: Record, org: string)
    requires IsMaxOf(m.records, seen) && OneOrg(seen, org) && item.orgId == org
    ensures Step(m, item).Some? && IsMaxOf(Step(m, item).value.records, seen + {item})
  {
    if item.id in m.records {
      assert m.records[item.id] in seen;
    }
  }

  /** Within one organization merging never fails and keeps the pointwise maximum of everything seen. */
  lemma {:induction false} MergeIsMax(records: map<string, Record>, seen: set<Record>, remote: seq<Record>, org: string)
    requires IsMaxOf(records, seen) && OneOrg(seen, org) && OneOrg(Items(remote), org)
    ensures MergeAll(records, remote).Some? && IsMaxOf(MergeAll(records, remote).value.records, seen + Items(remote))
    decreases |remote|
  {
    if remote == [] {
      assert seen + Items(remote) == seen;
    } else {
      var rest, last := remote[..|remote| - 1], remote[|remote| - 1];
      assert remote == rest + [last] && Items(remote) == Items(rest) + {last};
      MergeIsMax(records, seen, rest, org);
      StepIsMax(MergeAll(records, rest).value, seen + Items(rest), last, org);
      assert seen + Items(remote) == seen + Items(rest) + {last};
    }
  }

  lemma UniqueMax(a: map<string, Record>, b: map<string, Record>, seen: set<Record>)
    requires IsMaxOf(a, seen) && IsMaxOf(b, seen) && CollisionFree(seen)
    ensures a == b
  {
    forall id | id in a
      ensures id in b && a[id] == b[id]
    {
      assert AtMost(b[id], a[id]) && AtMost(a[id], b[id]);
    }
    assert forall id :: id in b ==> b[id] in seen;
  }

  // ---------------------------------------------------------------- the laws of the join

  ghost predicate DistinctIds(s: seq<Record>) {
    forall i, j :: 0 <= i < j < |s| ==> s[i].id != s[j].id
  }

  lemma {:induction false} ByIdIsMax(s: seq<Record>)
    requires DistinctIds(s)
    ensures IsMaxOf(ById(s), Items(s))
    decreases |s|
  {
    if s != [] {
      hide IsMaxOf;
      var rest, last := s[..|s| - 1], s[|s| - 1];
      assert s == rest + [last] && Items(s) == Items(rest) + {last};
      ByIdIsMax(rest);
      AddNewId(ById(rest), Items(rest), last);
    }
  }

  lemma AddNewId(records: map<string, Record>, seen: set<Record>, item: Record)
    requires IsMaxOf(records, seen) && forall r :: r in seen ==> r.id != item.id
    ensures IsMaxOf(records[item.id := item], seen + {item})
  {
  }

  /** `m` merges the records of one list into another. */
  ghost predicate Merges(a: seq<Record>, b: seq<Record>, m: map<string, Record>) {
    MergeAll(ById(a), b).Some? && MergeAll(ById(a), b).value.records == m
  }

  lemma MergedIsMax(a: seq<Record>, b: seq<Record>, org: string)
    requires DistinctIds(a) && OneOrg(Items(a) + Items(b), org)
    ensures MergeAll(ById(a), b).Some? && IsMaxOf(MergeAll(ById(a), b).value.records, Items(a) + Items(b))
  {
    ByIdIsMax(a);
    assert forall r :: r in Items(a) || r in Items(b) ==> r in Items(a) + Items(b);
    MergeIsMax(ById(a), Items(a), b, org);
  }

  lemma MergeCommutes(a: seq<Record>, b: seq<Record>, org: string)
    requires DistinctIds(a) && DistinctIds(b) && OneOrg(Items(a) + Items(b), org) && CollisionFree(Items(a) + Items(b))
    ensures exists m :: Merges(a, b, m) && Merges(b, a, m)
  {
    MergedIsMax(a, b, org);
    assert Items(a) + Items(b) == Items(b) + Items(a);
    MergedIsMax(b, a, org);
    UniqueMax(MergeAll(ById(a), b).value.records, MergeAll(ById(b), a).value.records, Items(a) + Items(b));
    assert Merges(a, b, MergeAll(ById(a), b).value.records);
  }

  /** `listed` holds, in any order, the result of merging a and b. */
  ghost predicate Lists(listed: seq<Record>, a: seq<Record>, b: seq<Record>) {
    MergeAll(ById(a), b).Some? && Items(listed) == MergeAll(ById(a), b).value.records.Values
  }

  lemma ListedInBoth(listed: seq<Record>, a: seq<Record>, b: seq<Record>, org: string)
    requires DistinctIds(a) && OneOrg(Items(a) + Items(b), org) && Lists(listed, a, b)
    ensures Items(listed) <= Items(a) + Items(b)
  {
    hide MergeAll, ById, Items;
    MergedIsMax(a, b, org);
  }

  lemma MergeLeft(a: seq<Record>, b: seq<Record>, c: seq<Record>, ab: seq<Record>, org: string)
    requires DistinctIds(a) && DistinctIds(ab) && Lists(ab, a, b) && OneOrg(Items(a) + Items(b) + Items(c), org)
    ensures MergeAll(ById(ab), c).Some? &&
            IsMaxOf(MergeAll(ById(ab), c).value.records, Items(a) + Items(b) + Items(c))
  {
    hide MergeAll, ById, IsMaxOf, Items;
    ListedInBoth(ab, a, b, org);
    MergedIsMax(a, b, org);
    MergedIsMax(ab, c, org);
    var m, left := MergeAll(ById(a), b).value.records, MergeAll(ById(ab), c).value.records;
    assert Items(ab) + Items(c) == Items(c) + m.Values;
    AbsorbMax(left, Items(c), m, Items(a) + Items(b));
    assert Items(c) + (Items(a) + Items(b)) == Items(a) + Items(b) + Items(c);
  }

  lemma MergeRight(a: seq<Record>, b: seq<Record>, c: seq<Record>, bc: seq<Record>, org: string)
    requires DistinctIds(a) && DistinctIds(b) && Lists(bc, b, c) && OneOrg(Items(a) + Items(b) + Items(c), org)
    ensures MergeAll(ById(a), bc).Some? &&
            IsMaxOf(MergeAll(ById(a), bc).value.records, Items(a) + Items(b) + Items(c))
  {
    hide MergeAll, ById, IsMaxOf, Items;
    ListedInBoth(bc, b, c, org);
    MergedIsMax(b, c, org);
    MergedIsMax(a, bc, org);
    var m, right := MergeAll(ById(b), c).value.records, MergeAll(ById(a), bc).value.records;
    AbsorbMax(right, Items(a), m, Items(b) + Items(c));
    assert Items(a) + (Items(b) + Items(c)) == Items(a) + Items(b) + Items(c);
  }

  lemma MergeAssociates(a: seq<Record>, b: seq<Record>, c: seq<Record>, ab: seq<Record>, bc: seq<Record>, org: string)
    requires DistinctIds(a) && DistinctIds(b) && DistinctIds(ab) && Lists(ab, a, b) && Lists(bc, b, c)
    requires OneOrg(Items(a) + Items(b) + Items(c), org) && CollisionFree(Items(a) + Items(b) + Items(c))
    ensures exists m :: Merges(ab, c, m) && Merges(a, bc, m)
  {
    hide MergeAll, ById, IsMaxOf, Items, Lists;
    MergeLeft(a, b, c, ab, org);
    MergeRight(a, b, c, bc, org);
    var m := MergeAll(ById(ab), c).value.records;
    UniqueMax(m, MergeAll(ById(a), bc).value.records, Items(a) + Items(b) + Items(c));
    assert Merges(ab, c, m) && Merges(a, bc, m);
  }

  /** Merging what is already known changes nothing and reports no conflict, whatever the organizations. */
  lemma {:induction false} MergeIdempotent(records: map<string, Record>, remote: seq<Record>)
    requires forall r :: r in remote ==> r.id in records && records[r.id] == r
    ensures MergeAll(records, remote) == Some(Merged(records, 0))
    decreases |remote|
  {
    if remote != [] {
      assert remote[|remote| - 1] in remote && forall r :: r in remote[..|remote| - 1] ==> r in remote;
      MergeIdempotent(records, remote[..|remote| - 1]);
    }
  }

  // ---------------------------------------------------------------- how many conflicts

  /** When its turn comes, record `i` meets a different one with its id. */
  ghost predicate Conflicts(records: map<string, Record>, remote: seq<Record>, i: nat)
    requires i < |remote|
  {
    var before := MergeAll(records, remote[..i]);
    before.Some? && remote[i].id in before.value.records && before.value.records[remote[i].id] != remote[i]
  }

  ghost function ConflictPlaces(records: map<string, Record>, remote: seq<Record>): set<nat> {
    set i: nat | i < |remote| && Conflicts(records, remote, i)
  }

  lemma ConflictNext(records: map<string, Record>, remote: seq<Record>)
    requires remote != [] && MergeAll(records, remote).Some?
    ensures var rest := remote[..|remote| - 1];
            MergeAll(records, rest).Some? &&
            MergeAll(records, remote).value.conflicts ==
            MergeAll(records, rest).value.conflicts + if Conflicts(records, remote, |remote| - 1) then 1 else 0
  {
  }

  lemma PlacesNext(records: map<string, Record>, remote: seq<Record>)
    requires remote != []
    ensures |ConflictPlaces(records, remote)| ==
            |ConflictPlaces(records, remote[..|remote| - 1])| + if Conflicts(records, remote, |remote| - 1) then 1 else 0
  {
    var n := |remote| - 1;
    var rest := remote[..n];
    forall i: nat | i < n
      ensures Conflicts(records, rest, i) <==> Conflicts(records, remote, i)
    {
      assert rest[..i] == remote[..i];
    }
    hide Conflicts;
    var before := ConflictPlaces(records, rest);
    assert ConflictPlaces(records, remote) == if Conflicts(records, remote, n) then before + {n} else before;
    assert n !in before;
  }

  /** The number reported is the number of records that met a different one. */
  lemma {:induction false} ConflictsCounted(records: map<string, Record>, remote: seq<Record>)
    requires MergeAll(records, remote).Some?
    ensures MergeAll(records, remote).value.conflicts == |ConflictPlaces(records, remote)|
    decreases |remote|
  {
    if remote == [] {
      assert ConflictPlaces(records, remote) == {};
    } else {
      hide MergeAll, Conflicts, ConflictPlaces;
      ConflictNext(records, remote);
      PlacesNext(records, remote);
      ConflictsCounted(records, remote[..|remote| - 1]);
    }
  }

  /** Where no id repeats, these are the records whose id is known with other contents. */
  lemma ConflictsExactly(records: map<string, Record>, remote: seq<Record>)
    requires DistinctIds(remote) && MergeAll(records, remote).Some?
    ensures MergeAll(records, remote).value.conflicts ==
            |set i: nat | i < |remote| && remote[i].id in records && records[remote[i].id] != remote[i]|
  {
    ConflictsCounted(records, remote);
    forall i: nat | i < |remote|
      ensures Conflicts(records, remote, i) <==> remote[i].id in records && records[remote[i].id] != remote[i]
    {
      MergedSoFar(records, remote, i);
      Untouched(records, remote[..i], remote[i].id);
    }
    assert ConflictPlaces(records, remote) ==
           set i: nat | i < |remote| && remote[i].id in records && records[remote[i].id] != remote[i];
  }

  lemma {:induction false} MergedSoFar(records: map<string, Record>, remote: seq<Record>, i: nat)
    requires i <= |remote| && MergeAll(records, remote).Some?
    ensures MergeAll(records, remote[..i]).Some?
    decreases |remote| - i
  {
    if i < |remote| {
      MergedSoFar(records, remote, i + 1);
      MergeNext(records, remote, i);
    } else {
      assert remote[..i] == remote;
    }
  }

  lemma {:induction false} Untouched(records: map<string, Record>, remote: seq<Record>, id: string)
    requires MergeAll(records, remote).Some? && forall i :: 0 <= i < |remote| ==> remote[i].id != id
    ensures var m := MergeAll(records, remote).value.records;
            (id in m <==> id in records) && (id in records ==> m[id] == records[id])
    decreases |remote|
  {
    if remote != [] {
      Untouched(records, remote[..|remote| - 1], id);
    }
  }

  // ---------------------------------------------------------------- the tenant boundary

  /** Two records of one id, both local or remote, belong to different organizations. */
  ghost predicate Clash(records: map<string, Record>, remote: seq<Record>) {
    exists i :: 0 <= i < |remote| && ClashAt(records, remote, i)
  }

  ghost predicate ClashAt(records: map<string, Record>, remote: seq<Record>, i: nat)
    requires i < |remote|
  {
    (remote[i].id in records && records[remote[i].id].orgId != remote[i].orgId) ||
    exists j :: 0 <= j < i && remote[j].id == remote[i].id && remote[j].orgId != remote[i].orgId
  }

  ghost predicate OwnersKept(records: map<string, Record>, remote: seq<Record>, m: map<string, Record>) {
    (forall id :: id in records ==> id in m && m[id].orgId == records[id].orgId) &&
    (forall i :: 0 <= i < |remote| ==> remote[i].id in m && m[remote[i].id].orgId == remote[i].orgId) &&
    (forall id :: id in m ==> id in records || exists i :: 0 <= i < |remote| && remote[i].id == id)
  }

  lemma StepEffect(m: Merged, item: Record)
    requires Step(m, item).Some?
    ensures var after := Step(m, item).value.records;
            after.Keys == m.records.Keys + {item.id} && after[item.id].orgId == item.orgId &&
            (item.id in m.records ==> m.records[item.id].orgId == item.orgId) &&
            forall id :: id in m.records && id != item.id ==> after[id] == m.records[id]
  {
  }

  lemma OwnerStep(records: map<string, Record>, remote: seq<Record>, m: Merged, item: Record)
    requires OwnersKept(records, remote, m.records) && Step(m, item).Some?
    ensures OwnersKept(records, remote + [item], Step(m, item).value.records)
  {
    hide Step;
    StepEffect(m, item);
    var more, after := remote + [item], Step(m, item).value.records;
    forall id | id in after
      ensures id in records || exists i :: 0 <= i < |more| && more[i].id == id
    {
      if id == item.id {
        assert more[|remote|].id == id;
      } else if id !in records {
        var i :| 0 <= i < |remote| && remote[i].id == id;
        assert more[i].id == id;
      }
    }
  }

  lemma MergeLast(records: map<string, Record>, rest: seq<Record>, last: Record)
    requires MergeAll(records, rest + [last]).Some?
    ensures MergeAll(records, rest).Some? && Step(MergeAll(records, rest).value, last) == MergeAll(records, rest + [last])
  {
    assert (rest + [last])[..|rest|] == rest;
  }

  /** The organization of an id is that of the first record seen for it. */
  lemma {:induction false} OwnerStays(records: map<string, Record>, remote: seq<Record>)
    requires MergeAll(records, remote).Some?
    ensures OwnersKept(records, remote, MergeAll(records, remote).value.records)
    decreases |remote|
  {
    if remote != [] {
      hide OwnersKept, Step, MergeAll;
      var rest, last := remote[..|remote| - 1], remote[|remote| - 1];
      assert remote == rest + [last];
      MergeLast(records, rest, last);
      OwnerStays(records, rest);
      OwnerStep(records, rest, MergeAll(records, rest).value, last);
    }
  }

  /** The merge is refused exactly when some id would mix two organizations. */
  lemma {:induction false} RefusedExactlyOnClash(records: map<string, Record>, remote: seq<Record>)
    ensures MergeAll(records, remote).None? <==> Clash(records, remote)
    decreases |remote|
  {
    if MergeAll(records, remote).Some? {
      OwnerStays(records, remote);
    } else {
      var rest, n := remote[..|remote| - 1], |remote| - 1;
      RefusedExactlyOnClash(records, rest);
      if MergeAll(records, rest).None? {
        var i :| 0 <= i < |rest| && ClashAt(records, rest, i);
        assert ClashAt(records, remote, i);
      } else {
        OwnerStays(records, rest);
        assert ClashAt(records, remote, n);
      }
    }
  }

  /**
   The caller must check the remote records: an organization's memory stays its own exactly when all of them are its
   own, for a foreign record under a new id is taken over without an error.
   */
  lemma StaysOwnExactly(records: map<string, Record>, remote: seq<Record>, org: string)
    requires forall id :: id in records ==> records[id].orgId == org && records[id].id == id
    ensures (MergeAll(records, remote).Some? &&
             forall id :: id in MergeAll(records, remote).value.records ==>
                            MergeAll(records, remote).value.records[id].orgId == org)
            <==> forall i :: 0 <= i < |remote| ==> remote[i].orgId == org
  {
    RefusedExactlyOnClash(records, remote);
    if MergeAll(records, remote).Some? {
      OwnerStays(records, remote);
    }
  }

  // ---------------------------------------------------------------- replicas

  /** A record is written at a replica, or one replica merges what another one holds, listed in any order. */
  datatype Event = Write(at: nat, item: Record) | Sync(to: nat, listed: seq<Record>, from: nat)

  datatype Replica = Replica(records: map<string, Record>, seen: set<Record>)

  /** All replicas start empty; `seen` collects the updates a replica has received, directly or not. */
  function After(events: seq<Event>, replica: nat): Option<Replica> {
    if events == [] then Some(Replica(map[], {})) else
      var before, e := events[..|events| - 1], events[|events| - 1];
      var own := After(before, replica);
      if own.None? then None else
      match e
      case Write(at, item) => if at == replica then Receive(own.value, [item], {item}) else own
      case Sync(to, listed, from) =>
        if to != replica then own else
        var other := After(before, from);
        if other.None? then None else Receive(own.value, listed, other.value.seen)
  }

  function Receive(r: Replica, items: seq<Record>, more: set<Record>): Option<Replica> {
    var m := MergeAll(r.records, items);
    if m.None? then None else Some(Replica(m.value.records, r.seen + more))
  }

  /** Every sync sends exactly the records the sender holds, and all records are of one organization. */
  ghost predicate Fair(events: seq<Event>, org: string) {
    forall i :: 0 <= i < |events| ==>
      match events[i]
      case Write(_, item) => item.orgId == org
      case Sync(_, listed, from) =>
        After(events[..i], from).Some? && Items(listed) == After(events[..i], from).value.records.Values
  }

  lemma {:induction false} ReplicaInv(events: seq<Event>, org: string, replica: nat)
    requires Fair(events, org)
    ensures After(events, replica).Some?
    ensures var r := After(events, replica).value; IsMaxOf(r.records, r.seen) && OneOrg(r.seen, org)
    decreases |events|
  {
    if events != [] {
      var before, e := events[..|events| - 1], events[|events| - 1];
      assert forall i :: 0 <= i < |before| ==> before[..i] == events[..i];
      ReplicaInv(before, org, replica);
      var own := After(before, replica).value;
      if e.Write? && e.at == replica {
        MergeIsMax(own.records, own.seen, [e.item], org);
        assert Items([e.item]) == {e.item};
      } else if e.Sync? && e.to == replica {
        assert events[..|events| - 1] == before;
        ReplicaInv(before, org, e.from);
        var other := After(before, e.from).value;
        assert OneOrg(Items(e.listed), org);
        MergeIsMax(own.records, own.seen, e.listed, org);
        AbsorbMax(MergeAll(own.records, e.listed).value.records, own.seen, other.records, other.seen);
      }
    }
  }

  /** The maximum over a replica's records stands for everything that replica has seen. */
  lemma AbsorbMax(records: map<string, Record>, seen: set<Record>, other: map<string, Record>, otherSeen: set<Record>)
    requires IsMaxOf(records, seen + other.Values) && IsMaxOf(other, otherSeen)
    ensures IsMaxOf(records, seen + otherSeen)
  {
    forall r | r in otherSeen
      ensures r.id in records && AtMost(r, records[r.id])
    {
      assert other[r.id] in other.Values && AtMost(r, other[r.id]) && AtMost(other[r.id], records[r.id]);
    }
  }

  /**
   Replicas that have received the same updates hold the same records, whatever the order, the routes and the repeats
   of the syncs between them.
   */
  lemma ReplicasConverge(events: seq<Event>, org: string, a: nat, b: nat)
    requires Fair(events, org)
    requires After(events, a).Some? && After(events, b).Some? && After(events, a).value.seen == After(events, b).value.seen
    requires CollisionFree(After(events, a).value.seen)
    ensures After(events, a).value.records == After(events, b).value.records
  {
    ReplicaInv(events, org, a);
    ReplicaInv(events, org, b);
    UniqueMax(After(events, a).value.records, After(events, b).value.records, After(events, a).value.seen);
  }
}
