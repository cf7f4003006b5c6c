/**
 * The `resource_statuses` report: each resource of a run is classified as
 * up to date, updated or failed from its out-of-sync and change counts, and
 * the results are gathered in a collector map keyed by resource name.
 * Writing that map out as YAML is not part of this model.
 */
module ResourceStatuses {

  datatype Status = UpToDate | Updated | Failed

  /** The label written for each status. */
  function Label(s: Status): (r: string)
    ensures r == "Up to date" <==> s == UpToDate
    ensures r == "Updated" <==> s == Updated
    ensures r == "Failed" <==> s == Failed
  {
    match s
    case UpToDate => "Up to date"
    case Updated => "Updated"
    case Failed => "Failed"
  }

  /** The parts of a Puppet::Resource::Status the report reads. */
  datatype ResourceStatus = ResourceStatus(title: string, tags: seq<string>, outOfSyncCount: int, changeCount: int)

  /** One `resource_statuses` pair: the resource name and its status. */
  datatype Named = Named(name: string, resource: ResourceStatus)

  /** One value of the collector: `{'title' => …, 'status' => …, 'tags' => …}`. */
  datatype Entry = Entry(title: string, status: Status, tags: seq<string>)

  /**
   * Nothing out of sync is up to date, whatever the change count; something
   * out of sync and as many changes as out-of-sync properties is updated;
   * anything else failed.
   */
  function Classify(outOfSync: int, changes: int): (s: Status)
    ensures s == UpToDate <==> outOfSync == 0
    ensures s == Updated <==> outOfSync != 0 && outOfSync == changes
    ensures s == Failed <==> outOfSync != 0 && outOfSync != changes
  {
    if outOfSync == 0 then UpToDate
    else if outOfSync == changes then Updated
    else Failed
  }

  /** Distinct statuses have distinct labels, so the written label identifies the outcome. */
  lemma LabelsDistinct(a: Status, b: Status)
    ensures Label(a) == Label(b) <==> a == b
  {
  }

  function EntryFor(r: ResourceStatus): (e: Entry)
    ensures e.title == r.title && e.tags == r.tags
    ensures e.status == Classify(r.outOfSyncCount, r.changeCount)
  {
    Entry(r.title, Classify(r.outOfSyncCount, r.changeCount), r.tags)
  }

  /** The names occurring in `rs`. */
  function Names(rs: seq<Named>): set<string> {
    set i | 0 <= i < |rs| :: rs[i].name
  }

  /** No later pair in `rs[..n]` has the same name as `rs[i]`. */
  predicate LastWithName(rs: seq<Named>, i: nat, n: nat)
    requires i < n <= |rs|
  {
    forall j :: i < j < n ==> rs[j].name != rs[i].name
  }

  /** The collector after the assignments `stats[rname] = …` for the pairs of `rs`, in order. */
  function Collected(rs: seq<Named>): (r: map<string, Entry>)
    ensures forall i :: 0 <= i < |rs| ==> rs[i].name in r
    ensures |rs| > 0 ==> r[rs[|rs| - 1].name] == EntryFor(rs[|rs| - 1].resource)
  {
    if |rs| == 0 then map[]
    else Collected(rs[..|rs| - 1])[rs[|rs| - 1].name := EntryFor(rs[|rs| - 1].resource)]
  }

  lemma {:induction false} CollectedKeys(rs: seq<Named>)
    ensures Collected(rs).Keys == Names(rs)
  {
    if |rs| > 0 {
      var front := rs[..|rs| - 1];
      CollectedKeys(front);
      forall x | x in Names(rs) ensures x in Names(front) + {rs[|rs| - 1].name} {
        var i :| 0 <= i < |rs| && rs[i].name == x;
        if i < |rs| - 1 {
          assert front[i] == rs[i];
        }
      }
      forall x | x in Names(front) ensures x in Names(rs) {
        var i :| 0 <= i < |front| && front[i].name == x;
        assert rs[i] == front[i];
      }
    }
  }

  lemma {:induction false} CollectedEntry(rs: seq<Named>, i: nat)
    requires i < |rs| && LastWithName(rs, i, |rs|)
    ensures rs[i].name in Collected(rs) && Collected(rs)[rs[i].name] == EntryFor(rs[i].resource)
  {
    var last := |rs| - 1;
    if i < last {
      var front := rs[..last];
      assert front[i] == rs[i];
      assert LastWithName(front, i, |front|) by {
        forall j | i < j < |front| ensures front[j].name != front[i].name {
          assert front[j] == rs[j];
        }
      }
      CollectedEntry(front, i);
      assert rs[last].name != rs[i].name;
    }
  }

  /**
   * The collector loop of `process`: afterwards the keys are exactly the
   * resource names, and the entry under each name is built from the last
   * status with that name (in a Hash every name occurs once).
   */
  method Process(rs: seq<Named>) returns (stats: map<string, Entry>)
    ensures stats.Keys == Names(rs)
    ensures forall i :: 0 <= i < |rs| && LastWithName(rs, i, |rs|) ==> stats[rs[i].name] == EntryFor(rs[i].resource)
  {
    stats := map[];
    var n := 0;
    while n < |rs|
      invariant 0 <= n <= |rs|
      invariant stats == Collected(rs[..n])
    {
      var named := rs[n];
      assert rs[..n + 1][..n] == rs[..n];
      stats := stats[named.name := EntryFor(named.resource)];
      n := n + 1;
    }
    assert rs[..n] == rs;
    CollectedKeys(rs);
    forall i | 0 <= i < |rs| && LastWithName(rs, i, |rs|)
      ensures stats[rs[i].name] == EntryFor(rs[i].resource)
    {
      CollectedEntry(rs, i);
    }
  }

  /** With distinct names every resource's entry is its own. */
  lemma DistinctNamesEachOwnEntry(rs: seq<Named>, i: nat)
    requires forall a, b :: 0 <= a < b < |rs| ==> rs[a].name != rs[b].name
    requires i < |rs|
    ensures LastWithName(rs, i, |rs|)
  {
  }
}
