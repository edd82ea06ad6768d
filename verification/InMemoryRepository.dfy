// The in-memory metadata repository: a map from id to the caller's own record objects.

module InMemoryRepository {
  import opened Domain
  import opened Records

  class Repository {
    var data: map<int, FileMetadata>
    var nextId: nat

    /** The ids in use are 1 .. nextId, and each record stored carries the id it is stored under. */
    ghost predicate Valid()
      reads this, data.Values
    {
      && (forall k :: k in data <==> 1 <= k <= nextId)
      && (forall k | k in data :: data[k].id == k)
    }

    /** The stored records in the order of their ids. */
    ghost function Contents(): (s: seq<FileMetadata>)
      requires Valid()
      reads this, data.Values
      ensures |s| == nextId && forall i | 0 <= i < |s| :: s[i] == data[i + 1]
    {
      var n, d := nextId, data;
      seq(n, i requires 0 <= i < n && i + 1 in d => d[i + 1])
    }

    constructor ()
      ensures Valid() && fresh(this) && Contents() == []
    {
      data, nextId := map[], 0;
    }

    /** The record object itself is stored and stamped.  The repository stays consistent exactly
        when that object was not in it before: storing an object twice renumbers the entry it
        already has. */
    method Create(f: FileMetadata, now: int)
      modifies this, f
      ensures nextId == old(nextId) + 1 && data == old(data)[nextId := f]
      ensures f.id == nextId && f.createdAt == f.updatedAt == now && f.Meta() == old(f.Meta())
      ensures old(Valid()) ==> (Valid() <==> forall k | k in old(data) :: old(data)[k] != f)
      ensures old(Valid()) && Valid() ==> Contents() == old(Contents()) + [f]
    {
      ghost var before := data;
      nextId := nextId + 1;
      f.id := nextId;
      f.createdAt, f.updatedAt := now, now;
      assert old(Valid()) ==> nextId !in data;
      data := data[nextId := f];
      if k :| k in before && before[k] == f {
        assert old(Valid()) ==> k in data && data[k].id == nextId != k;
      }
    }

    method FindByID(id: int) returns (r: FileMetadata?)
      ensures id in data ==> r == data[id]
      ensures id !in data ==> r == null
      ensures Valid() ==>
                && (r != null <==> 1 <= id <= nextId)
                && (r != null ==> r.id == id && r == Contents()[id - 1])
    {
      r := if id in data then data[id] else null;
    }

    /** The in-memory UpdateStatus reports success and changes nothing. */
    method UpdateStatus(id: int, status: TransferStatus) returns (ok: bool)
      ensures ok
    {
      ok := true;
    }

    /** The map is ranged over in whatever order the runtime takes, and the search is ignored:
        every entry is listed once, so with a consistent repository every record is. */
    method FindAll(order: seq<int>) returns (results: seq<FileMetadata>)
      requires forall k :: k in data <==> k in order
      requires forall i, j | 0 <= i < j < |order| :: order[i] != order[j]
      ensures |results| == |order|
      ensures forall i | 0 <= i < |order| :: order[i] in data && results[i] == data[order[i]]
      ensures forall k | k in data :: data[k] in results
      ensures Valid() ==> forall i, j | 0 <= i < j < |results| :: results[i] != results[j]
    {
      results := [];
      for i := 0 to |order|
        invariant |results| == i && forall j | 0 <= j < i :: order[j] in data && results[j] == data[order[j]]
      {
        assert order[i] in order;
        results := results + [data[order[i]]];
      }
      forall k | k in data
        ensures data[k] in results
      {
        assert k in order;
        var i :| 0 <= i < |order| && order[i] == k;
        assert results[i] == data[k];
      }
      assert Valid() ==> forall j | 0 <= j < |order| :: order[j] in data && results[j].id == order[j];
    }
  }

  /** Two Creates of one object: both entries then show it under its second id. */
  method StoreTwice(m: Metadata) returns (r: Repository, f: FileMetadata)
    ensures 1 in r.data && 2 in r.data && r.data[1] == r.data[2] == f && f.id == 2 && !r.Valid()
  {
    r := new Repository();
    f := new FileMetadata(m);
    r.Create(f, 0);
    assert r.data[1] == f;
    r.Create(f, 0);
  }

  predicate Distinct(records: seq<FileMetadata>) {
    forall i, j | 0 <= i < j < |records| :: records[i] != records[j]
  }

  /** A Create for each of these objects, one after another.  Every object stored before stays
      where it is, and only the new ones are written to. */
  method CreateAll(r: Repository, records: seq<FileMetadata>, now: int)
    requires r.Valid() && Distinct(records)
    requires forall i | 0 <= i < |records| :: records[i] !in r.Contents()
    modifies r, records
    ensures r.Valid() && r.Contents() == old(r.Contents()) + records
    ensures forall k | k in old(r.data) :: k in r.data && r.data[k] == old(r.data)[k]
    ensures forall i | 0 <= i < |records| ::
              records[i].Meta() == old(records[i].Meta()) && records[i].createdAt == records[i].updatedAt == now
  {
    for n := 0 to |records|
      invariant r.Valid() && r.Contents() == old(r.Contents()) + records[..n]
      invariant forall k | k in old(r.data) :: k in r.data && r.data[k] == old(r.data)[k]
      invariant forall i | n <= i < |records| :: records[i] !in r.Contents()
      invariant forall i | 0 <= i < |records| :: records[i].Meta() == old(records[i].Meta())
      invariant forall i | 0 <= i < n :: records[i].createdAt == records[i].updatedAt == now
    {
      forall k | k in r.data
        ensures r.data[k] != records[n]
      {
        assert r.data[k] == r.Contents()[k - 1];
      }
      r.Create(records[n], now);
      assert records[..n + 1] == records[..n] + [records[n]];
    }
    assert records[..|records|] == records;
  }

  /** Every stored object is listed once, whatever the order of the map. */
  method ListAll(r: Repository, order: seq<int>) returns (all: seq<FileMetadata>)
    requires r.Valid()
    requires forall k :: 1 <= k <= r.nextId <==> k in order
    requires forall i, j | 0 <= i < j < |order| :: order[i] != order[j]
    ensures Distinct(all) && forall f :: f in all <==> f in r.Contents()
  {
    all := r.FindAll(order);
    forall f | f in all
      ensures f in r.Contents()
    {
      var i :| 0 <= i < |all| && all[i] == f;
      assert f == r.data[order[i]] == r.Contents()[order[i] - 1];
    }
    forall f | f in r.Contents()
      ensures f in all
    {
      var i :| 0 <= i < |r.Contents()| && r.Contents()[i] == f;
      assert f == r.data[i + 1];
    }
  }

  /** Objects stored in a new repository and found by an id, before and after more are stored; and
      then all of them listed. */
  method StoreAndFind(first: seq<FileMetadata>, more: seq<FileMetadata>, now: int, id: int, order: seq<int>)
    returns (before: FileMetadata?, after: FileMetadata?, all: seq<FileMetadata>)
    requires Distinct(first) && Distinct(more) && forall i | 0 <= i < |more| :: more[i] !in first
    requires forall k :: 1 <= k <= |first + more| <==> k in order
    requires forall i, j | 0 <= i < j < |order| :: order[i] != order[j]
    modifies first, more
    ensures before == if 1 <= id <= |first| then first[id - 1] else null
    ensures after == if 1 <= id <= |first + more| then (first + more)[id - 1] else null
    ensures after != null ==> after.id == id
    ensures Distinct(all) && forall f :: f in all <==> f in first + more
  {
    var r := new Repository();
    CreateAll(r, first, now);
    assert r.Contents() == first;
    before := r.FindByID(id);
    CreateAll(r, more, now);
    after := r.FindByID(id);
    all := ListAll(r, order);
  }

  /** An update that reports success is forgotten: the record found afterwards is as it was stored. */
  method UpdateIsForgotten(m: Metadata, now: int, status: TransferStatus) returns (ok: bool, found: FileMetadata?)
    ensures ok && found != null && found.Meta() == m && found.updatedAt == now
  {
    var r := new Repository();
    var f := new FileMetadata(m);
    r.Create(f, now);
    ok := r.UpdateStatus(f.id, status);
    found := r.FindByID(f.id);
  }
}
