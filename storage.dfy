/**
 * The in-memory record store: two id-keyed tables, favicon sets and
 * processing jobs, each with its own auto-increment counter.
 */
module Storage {
  import opened Wrappers
  import opened Schema

  /** Strictly ascending: insertion order of ids handed out by a counter. */
  ghost predicate Ascending(s: seq<nat>) {
    forall i, j :: 0 <= i < j < |s| ==> s[i] < s[j]
  }

  /** The ids `from`, `from + 1`, ..., `from + n - 1`. */
  function Range(from: nat, n: nat): (r: seq<nat>)
    ensures |r| == n
    ensures Ascending(r)
    ensures forall x :: x in r ==> from <= x < from + n
  {
    seq(n, i requires 0 <= i < n => from + i)
  }

  /** Every id from `from` below `from + n` is in the range. */
  lemma RangeCovers(from: nat, n: nat)
    ensures forall x :: from <= x < from + n ==> x in Range(from, n)
  {
    forall x | from <= x < from + n ensures x in Range(from, n) {
      assert Range(from, n)[x - from] == x;
    }
  }

  /** The sequence with every occurrence of `x` removed (a JS Map's key order after `delete`). */
  function Without(s: seq<nat>, x: nat): (r: seq<nat>)
    ensures forall k :: k in r <==> k in s && k != x
    ensures |r| <= |s|
  {
    if s == [] then []
    else if s[0] == x then Without(s[1..], x)
    else [s[0]] + Without(s[1..], x)
  }

  /** Removing a key keeps the others in their order, so an ascending order stays ascending. */
  lemma {:induction false} WithoutAscending(s: seq<nat>, x: nat)
    requires Ascending(s)
    ensures Ascending(Without(s, x))
  {
    if s != [] {
      assert Ascending(s[1..]);
      WithoutAscending(s[1..], x);
      var rest := Without(s[1..], x);
      if s[0] != x {
        forall k | k in rest ensures s[0] < k {
          var j :| 0 <= j < |s[1..]| && s[1..][j] == k;
          assert s[j + 1] == k;
        }
        var r := [s[0]] + rest;
        forall i, j | 0 <= i < j < |r| ensures r[i] < r[j] {
          if i == 0 {
            assert r[j] == rest[j - 1] && rest[j - 1] in rest;
          } else {
            assert r[i] == rest[i - 1] && r[j] == rest[j - 1];
          }
        }
      }
    }
  }

  /** Appending an id above every id already present keeps the order ascending. */
  lemma AscendingAppend(s: seq<nat>, x: nat)
    requires Ascending(s)
    requires forall k :: k in s ==> k < x
    ensures Ascending(s + [x])
  {
    var r := s + [x];
    forall i, j | 0 <= i < j < |r| ensures r[i] < r[j] {
      if j == |s| {
        assert r[i] == s[i] && s[i] in s;
      }
    }
  }

  class MemStorage {
    var faviconSets: map<nat, FaviconSet>
    /** The keys of `faviconSets` in insertion order, the order a JS `Map` enumerates them in. */
    var faviconSetOrder: seq<nat>
    var processingJobs: map<nat, ProcessingJob>
    var faviconSetCurrentId: nat
    var processingJobCurrentId: nat

    /** Every id `createFaviconSet` / `createProcessingJob` has ever returned. */
    ghost var issuedSetIds: set<nat>
    ghost var issuedJobIds: set<nat>

    ghost predicate Valid()
      reads this
    {
      && 1 <= faviconSetCurrentId
      && 1 <= processingJobCurrentId
      // Every id handed out lies below the counter, so the counter never hands it out again.
      && (forall k :: k in issuedSetIds ==> 1 <= k < faviconSetCurrentId)
      && (forall k :: k in issuedJobIds ==> 1 <= k < processingJobCurrentId)
      && faviconSets.Keys <= issuedSetIds
      && processingJobs.Keys <= issuedJobIds
      // A favicon set is stored under its own id (nothing ever rewrites a set).
      && (forall k :: k in faviconSets ==> faviconSets[k].id == k)
      && Ascending(faviconSetOrder)
      && (forall k :: k in faviconSetOrder <==> k in faviconSets)
    }

    constructor ()
      ensures Valid()
      ensures faviconSets == map[] && faviconSetOrder == [] && processingJobs == map[]
      ensures faviconSetCurrentId == 1 && processingJobCurrentId == 1
      ensures issuedSetIds == {} && issuedJobIds == {}
    {
      faviconSets := map[];
      faviconSetOrder := [];
      processingJobs := map[];
      faviconSetCurrentId := 1;
      processingJobCurrentId := 1;
      issuedSetIds := {};
      issuedJobIds := {};
    }

    method GetFaviconSet(id: nat) returns (r: Option<FaviconSet>)
      requires Valid()
      ensures r.Some? <==> id in faviconSets
      ensures r.Some? ==> r.value == faviconSets[id] && r.value.id == id
    {
      if id in faviconSets {
        r := Some(faviconSets[id]);
      } else {
        r := None;
      }
    }

    method CreateFaviconSet(s: InsertFaviconSet) returns (r: FaviconSet)
      requires Valid()
      modifies this
      ensures Valid()
      ensures r == SetWithId(s, old(faviconSetCurrentId))
      ensures r.id !in old(issuedSetIds) && r.id !in old(faviconSets)
      ensures faviconSets == old(faviconSets)[r.id := r]
      ensures faviconSetOrder == old(faviconSetOrder) + [r.id]
      ensures faviconSetCurrentId == old(faviconSetCurrentId) + 1
      ensures issuedSetIds == old(issuedSetIds) + {r.id}
      ensures processingJobs == old(processingJobs)
      ensures processingJobCurrentId == old(processingJobCurrentId)
      ensures issuedJobIds == old(issuedJobIds)
    {
      var id := faviconSetCurrentId;
      faviconSetCurrentId := faviconSetCurrentId + 1;
      r := SetWithId(s, id);
      AscendingAppend(faviconSetOrder, id);
      faviconSets := faviconSets[id := r];
      faviconSetOrder := faviconSetOrder + [id];
      issuedSetIds := issuedSetIds + {id};
    }

    method GetAllFaviconSets() returns (r: seq<FaviconSet>)
      requires Valid()
      ensures |r| == |faviconSetOrder|
      ensures forall i :: 0 <= i < |r| ==> r[i] == faviconSets[faviconSetOrder[i]]
      ensures forall s :: s in r <==> s in faviconSets.Values
      ensures forall i, j :: 0 <= i < j < |r| ==> r[i].id < r[j].id
    {
      r := [];
      var i := 0;
      while i < |faviconSetOrder|
        invariant 0 <= i <= |faviconSetOrder|
        invariant |r| == i
        invariant forall k :: 0 <= k < i ==> r[k] == faviconSets[faviconSetOrder[k]]
      {
        r := r + [faviconSets[faviconSetOrder[i]]];
        i := i + 1;
      }
      forall s | s in faviconSets.Values ensures s in r {
        var k :| k in faviconSets && faviconSets[k] == s;
        var j :| 0 <= j < |faviconSetOrder| && faviconSetOrder[j] == k;
        assert r[j] == s;
      }
    }

    method DeleteFaviconSet(id: nat) returns (deleted: bool)
      requires Valid()
      modifies this
      ensures Valid()
      ensures deleted <==> id in old(faviconSets)
      ensures faviconSets == old(faviconSets) - {id}
      ensures faviconSetOrder == Without(old(faviconSetOrder), id)
      ensures faviconSetCurrentId == old(faviconSetCurrentId)
      ensures issuedSetIds == old(issuedSetIds)
      ensures processingJobs == old(processingJobs)
      ensures processingJobCurrentId == old(processingJobCurrentId)
      ensures issuedJobIds == old(issuedJobIds)
    {
      deleted := id in faviconSets;
      faviconSets := faviconSets - {id};
      WithoutAscending(faviconSetOrder, id);
      faviconSetOrder := Without(faviconSetOrder, id);
    }

    method GetProcessingJob(id: nat) returns (r: Option<ProcessingJob>)
      requires Valid()
      ensures r.Some? <==> id in processingJobs
      ensures r.Some? ==> r.value == processingJobs[id]
    {
      if id in processingJobs {
        r := Some(processingJobs[id]);
      } else {
        r := None;
      }
    }

    method CreateProcessingJob(j: InsertProcessingJob) returns (r: ProcessingJob)
      requires Valid()
      modifies this
      ensures Valid()
      ensures r == JobWithId(j, old(processingJobCurrentId))
      ensures r.id !in old(issuedJobIds) && r.id !in old(processingJobs)
      ensures processingJobs == old(processingJobs)[r.id := r]
      ensures processingJobCurrentId == old(processingJobCurrentId) + 1
      ensures issuedJobIds == old(issuedJobIds) + {r.id}
      ensures faviconSets == old(faviconSets) && faviconSetOrder == old(faviconSetOrder)
      ensures faviconSetCurrentId == old(faviconSetCurrentId)
      ensures issuedSetIds == old(issuedSetIds)
    {
      var id := processingJobCurrentId;
      processingJobCurrentId := processingJobCurrentId + 1;
      r := JobWithId(j, id);
      processingJobs := processingJobs[id := r];
      issuedJobIds := issuedJobIds + {id};
    }

    method UpdateProcessingJob(id: nat, updates: JobUpdate) returns (r: Option<ProcessingJob>)
      requires Valid()
      modifies this
      ensures Valid()
      ensures r.Some? <==> id in old(processingJobs)
      ensures r.Some? ==> r.value == Merge(old(processingJobs)[id], updates)
      ensures processingJobs == if r.Some? then old(processingJobs)[id := r.value] else old(processingJobs)
      ensures processingJobCurrentId == old(processingJobCurrentId)
      ensures issuedJobIds == old(issuedJobIds)
      ensures faviconSets == old(faviconSets) && faviconSetOrder == old(faviconSetOrder)
      ensures faviconSetCurrentId == old(faviconSetCurrentId)
      ensures issuedSetIds == old(issuedSetIds)
    {
      if id !in processingJobs {
        return None;
      }
      var updated := Merge(processingJobs[id], updates);
      processingJobs := processingJobs[id := updated];
      r := Some(updated);
    }

    method DeleteProcessingJob(id: nat) returns (deleted: bool)
      requires Valid()
      modifies this
      ensures Valid()
      ensures deleted <==> id in old(processingJobs)
      ensures processingJobs == old(processingJobs) - {id}
      ensures processingJobCurrentId == old(processingJobCurrentId)
      ensures issuedJobIds == old(issuedJobIds)
      ensures faviconSets == old(faviconSets) && faviconSetOrder == old(faviconSetOrder)
      ensures faviconSetCurrentId == old(faviconSetCurrentId)
      ensures issuedSetIds == old(issuedSetIds)
    {
      deleted := id in processingJobs;
      processingJobs := processingJobs - {id};
    }
  }

  /**
   * A client of the store: whatever happens in between, two creates hand
   * out distinct ids, a get right after a create returns the created record,
   * and deleting a set never makes its id available again.
   */
  method CreateDeleteCreate(store: MemStorage, a: InsertFaviconSet, b: InsertFaviconSet)
      returns (first: FaviconSet, second: FaviconSet)
    requires store.Valid()
    modifies store
    ensures store.Valid()
    ensures first.id != second.id && first.id < second.id
    ensures first.id !in store.faviconSets
    ensures second.id in store.faviconSets && store.faviconSets[second.id] == second
  {
    first := store.CreateFaviconSet(a);
    var got := store.GetFaviconSet(first.id);
    assert got == Some(first);
    var _ := store.DeleteFaviconSet(first.id);
    second := store.CreateFaviconSet(b);
  }
}
