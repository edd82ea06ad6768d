// The SQL metadata repository: INSERT, UPDATE, and FindAll's query with numbered placeholders;
// and FetchMetadataList, which clamps the limit before calling it.

module MetadataQuery {
  import opened Domain
  import opened Records

  // ----------------------------------------------------------------------------- the query

  datatype Entry = Entry(id: int, row: Row)

  datatype Search = Search(tags: seq<string>, limit: int, offset: int)

  // The pieces of the statement text, with the numbers of their placeholders.
  datatype Clause = SelectAll | AndTagsContain(p: nat) | OrderByCreatedDesc | LimitOffset(l: nat, o: nat)

  datatype Arg = TextArray(items: seq<string>) | Int(value: int)

  function PlaceholdersOf(c: Clause): seq<nat> {
    match c
    case SelectAll => []
    case AndTagsContain(p) => [p]
    case OrderByCreatedDesc => []
    case LimitOffset(l, o) => [l, o]
  }

  function Placeholders(q: seq<Clause>): seq<nat> {
    if q == [] then [] else PlaceholdersOf(q[0]) + Placeholders(q[1..])
  }

  /** The operator @> with the column on its left; NULL contains nothing, not even {}. */
  predicate ContainsAll(have: Option<seq<string>>, want: seq<string>) {
    have.Some? && forall t | t in want :: t in have.value
  }

  function Filter(rows: seq<Entry>, want: seq<string>): seq<Entry> {
    if rows == [] then []
    else (if ContainsAll(rows[0].row.tags, want) then [rows[0]] else []) + Filter(rows[1..], want)
  }

  function InsertDesc(e: Entry, rows: seq<Entry>): seq<Entry> {
    if rows == [] || e.row.createdAt >= rows[0].row.createdAt then [e] + rows
    else [rows[0]] + InsertDesc(e, rows[1..])
  }

  function SortDesc(rows: seq<Entry>): seq<Entry> {
    if rows == [] then [] else InsertDesc(rows[0], SortDesc(rows[1..]))
  }

  /** limit rows from position offset on, as far as there are any. */
  function Window(rows: seq<Entry>, limit: nat, offset: nat): seq<Entry> {
    if offset >= |rows| then []
    else if offset + limit >= |rows| then rows[offset..]
    else rows[offset..offset + limit]
  }

  function Bound(args: seq<Arg>, p: nat): Option<Arg> {
    if 1 <= p <= |args| then Some(args[p - 1]) else None
  }

  /** One clause of the statement on the rows so far; None is an error of the server: an unbound
      placeholder, a value of the wrong type, a negative LIMIT or OFFSET. */
  function EvalClause(c: Clause, args: seq<Arg>, rows: seq<Entry>): Option<seq<Entry>> {
    match c
    case SelectAll => Some(rows)
    case AndTagsContain(p) =>
      (match Bound(args, p)
       case Some(TextArray(want)) => Some(Filter(rows, want))
       case _ => None)
    case OrderByCreatedDesc => Some(SortDesc(rows))
    case LimitOffset(l, o) =>
      match (Bound(args, l), Bound(args, o))
      case (Some(Int(limit)), Some(Int(offset))) =>
        if limit >= 0 && offset >= 0 then Some(Window(rows, limit, offset)) else None
      case _ => None
  }

  function EvalFrom(q: seq<Clause>, args: seq<Arg>, rows: seq<Entry>): Option<seq<Entry>> {
    if q == [] then Some(rows)
    else
      match EvalClause(q[0], args, rows)
      case None => None
      case Some(next) => EvalFrom(q[1..], args, next)
  }

  /** The statement with its arguments on a table scanned in the order of scan; the number of
      arguments must be the number of placeholders. */
  function Evaluate(q: seq<Clause>, args: seq<Arg>, scan: seq<Entry>): Option<seq<Entry>> {
    if |Placeholders(q)| != |args| then None else EvalFrom(q, args, scan)
  }

  // ------------------------------------------------------------------- what a search asks for

  /** The row carries every tag that was asked for. */
  predicate Matches(r: Row, tags: seq<string>) {
    forall t | t in tags :: r.tags.Some? && t in r.tags.value
  }

  predicate InTable(t: Table, e: Entry) {
    e.id in t && t[e.id] == e.row
  }

  /** scan lists every row of the table once. */
  ghost predicate Lists(scan: seq<Entry>, t: Table) {
    forall e :: multiset(scan)[e] == if InTable(t, e) then 1 else 0
  }

  ghost predicate SortedDesc(rows: seq<Entry>) {
    forall i, j | 0 <= i < j < |rows| :: rows[i].row.createdAt >= rows[j].row.createdAt
  }

  /** rows is an arrangement, newest first, of exactly the rows that match, each once. */
  ghost predicate Arrangement(rows: seq<Entry>, t: Table, tags: seq<string>) {
    && SortedDesc(rows)
    && forall e :: multiset(rows)[e] == if InTable(t, e) && Matches(e.row, tags) then 1 else 0
  }

  /** The arrangement that a table scanned in this order yields. */
  function Arranged(scan: seq<Entry>, tags: seq<string>): seq<Entry> {
    SortDesc(if tags == [] then scan else Filter(scan, tags))
  }

  lemma ConsSorted(h: Entry, rows: seq<Entry>)
    requires SortedDesc(rows) && (rows != [] ==> h.row.createdAt >= rows[0].row.createdAt)
    ensures SortedDesc([h] + rows)
  {
    var all := [h] + rows;
    forall i, j | 0 <= i < j < |all|
      ensures all[i].row.createdAt >= all[j].row.createdAt
    {
      assert all[j] == rows[j - 1];
      assert rows[0].row.createdAt >= rows[j - 1].row.createdAt;
    }
  }

  lemma {:induction false} InsertDescSorts(e: Entry, rows: seq<Entry>)
    requires SortedDesc(rows)
    ensures SortedDesc(InsertDesc(e, rows))
    ensures multiset(InsertDesc(e, rows)) == multiset(rows) + multiset{e}
    ensures var r := InsertDesc(e, rows); r != [] && (r[0] == e || (rows != [] && r[0] == rows[0]))
  {
    if rows == [] || e.row.createdAt >= rows[0].row.createdAt {
      ConsSorted(e, rows);
      assert multiset([e] + rows) == multiset{e} + multiset(rows);
    } else {
      var h, rest := rows[0], rows[1..];
      InsertDescSorts(e, rest);
      ConsSorted(h, InsertDesc(e, rest));
      assert rows == [h] + rest;
      assert multiset([h] + InsertDesc(e, rest)) == multiset{h} + multiset(InsertDesc(e, rest));
    }
  }

  lemma {:induction false} SortDescSorts(rows: seq<Entry>)
    ensures SortedDesc(SortDesc(rows)) && multiset(SortDesc(rows)) == multiset(rows)
  {
    if rows != [] {
      SortDescSorts(rows[1..]);
      InsertDescSorts(rows[0], SortDesc(rows[1..]));
      assert rows == [rows[0]] + rows[1..];
    }
  }

  lemma {:induction false} FilterCounts(rows: seq<Entry>, want: seq<string>, e: Entry)
    ensures multiset(Filter(rows, want))[e] == if ContainsAll(e.row.tags, want) then multiset(rows)[e] else 0
  {
    if rows != [] {
      FilterCounts(rows[1..], want, e);
      assert rows == [rows[0]] + rows[1..];
    }
  }

  /** Whatever order the table is scanned in, the result is an arrangement of the matches. */
  lemma ArrangedIsArrangement(scan: seq<Entry>, t: Table, tags: seq<string>)
    requires Lists(scan, t)
    ensures Arrangement(Arranged(scan, tags), t, tags)
  {
    var matching := if tags == [] then scan else Filter(scan, tags);
    SortDescSorts(matching);
    forall e
      ensures multiset(matching)[e] == if InTable(t, e) && Matches(e.row, tags) then 1 else 0
    {
      FilterCounts(scan, tags, e);
      if tags != [] {
        assert tags[0] in tags;
      }
    }
  }

  /** Every row arranged is one of the table and carries the tags asked for. */
  lemma ArrangedMatches(scan: seq<Entry>, t: Table, tags: seq<string>, i: nat)
    requires Lists(scan, t) && i < |Arranged(scan, tags)|
    ensures InTable(t, Arranged(scan, tags)[i]) && Matches(Arranged(scan, tags)[i].row, tags)
  {
    ArrangedIsArrangement(scan, t, tags);
    assert multiset(Arranged(scan, tags))[Arranged(scan, tags)[i]] > 0;
  }

  // ------------------------------------------------------------- what the statement means

  predicate Built(q: Search, query: seq<Clause>, args: seq<Arg>) {
    if |q.tags| > 0 then
      && query == [SelectAll, AndTagsContain(1), OrderByCreatedDesc, LimitOffset(2, 3)]
      && args == [TextArray(q.tags), Int(q.limit), Int(q.offset)]
    else
      && query == [SelectAll, OrderByCreatedDesc, LimitOffset(1, 2)]
      && args == [Int(q.limit), Int(q.offset)]
  }

  /** Each of $1 .. $n once, in order, n being the number of arguments. */
  lemma QueryPlaceholders(q: Search, query: seq<Clause>, args: seq<Arg>)
    requires Built(q, query, args)
    ensures Placeholders(query) == seq(|args|, i requires 0 <= i < |args| => i + 1)
  {
    var q1 := query[1..];
    var q2 := q1[1..];
    var q3 := q2[1..];
    if |q.tags| > 0 {
      assert q1 == [AndTagsContain(1), OrderByCreatedDesc, LimitOffset(2, 3)];
      assert q3 == [LimitOffset(2, 3)] && q3[1..] == [];
      assert Placeholders(q3) == [2, 3];
      assert q2[0] == OrderByCreatedDesc && Placeholders(q2) == [] + Placeholders(q3);
      assert q1[0] == AndTagsContain(1) && Placeholders(q1) == [1] + [2, 3];
    } else {
      assert q1 == [OrderByCreatedDesc, LimitOffset(1, 2)];
      assert q2 == [LimitOffset(1, 2)] && q3 == [];
      assert Placeholders(q2) == [1, 2] && Placeholders(q1) == [1, 2];
    }
  }

  function Answer(q: Search, scan: seq<Entry>): Option<seq<Entry>> {
    if q.limit >= 0 && q.offset >= 0 then Some(Window(Arranged(scan, q.tags), q.limit, q.offset)) else None
  }

  lemma LastClause(q: Search, query: seq<Clause>, args: seq<Arg>, rows: seq<Entry>)
    requires Built(q, query, args)
    ensures EvalFrom([query[|query| - 1]], args, rows) ==
            if q.limit >= 0 && q.offset >= 0 then Some(Window(rows, q.limit, q.offset)) else None
  {
    var last := [query[|query| - 1]];
    assert last[1..] == [];
  }

  /** The statement, run with its arguments, answers the search. */
  lemma QueryMeaning(q: Search, query: seq<Clause>, args: seq<Arg>, scan: seq<Entry>)
    requires Built(q, query, args)
    ensures Evaluate(query, args, scan) == Answer(q, scan)
  {
    QueryPlaceholders(q, query, args);
    LastClause(q, query, args, Arranged(scan, q.tags));
    var last := [query[|query| - 1]];
    var q1 := query[1..];
    var q2 := q1[1..];
    assert EvalFrom(query, args, scan) == EvalFrom(q1, args, scan);
    if |q.tags| > 0 {
      assert q2[1..] == last;
      assert EvalFrom(q1, args, scan) == EvalFrom(q2, args, Filter(scan, q.tags));
      assert EvalFrom(q2, args, Filter(scan, q.tags)) == EvalFrom(last, args, Arranged(scan, q.tags));
    } else {
      assert q2 == last;
      assert EvalFrom(q1, args, scan) == EvalFrom(last, args, Arranged(scan, q.tags));
    }
  }

  // ------------------------------------------------------------------------ the repository

  /** How a statement's reply reached the repository: answered, refused without effect, or
      carried out with the answer lost. */
  datatype Reply = Answered | Refused | Lost

  /** How the result of a query reached the repository.  refused: Query itself reports an error;
      late: an error of the server shows only while rows are read; cutAt: the connection breaks
      before that row; badRowAt: that row cannot be scanned. */
  datatype Delivery = Delivery(refused: bool, late: bool, cutAt: Option<nat>, badRowAt: Option<nat>)

  datatype FindResult = FindFailed | Found(rows: seq<Entry>)

  function Min(a: nat, b: Option<nat>): nat {
    if b.Some? && b.value < a then b.value else a
  }

  /** What FindAll makes of the rows the server found, or of its error. */
  function Delivered(found: Option<seq<Entry>>, d: Delivery): FindResult {
    if d.refused then FindFailed
    else
      match found
      case None => if d.late then Found([]) else FindFailed
      case Some(rows) =>
        var n := Min(|rows|, d.cutAt);
        if Min(n, d.badRowAt) < n then FindFailed else Found(rows[..n])
  }

  lemma WindowIs(rows: seq<Entry>, limit: nat, offset: nat)
    ensures var w := Window(rows, limit, offset);
            && |w| == (if offset >= |rows| then 0 else if offset + limit >= |rows| then |rows| - offset else limit)
            && forall i | 0 <= i < |w| :: w[i] == rows[offset + i]
  {
  }

  /** When what is delivered is an error, and which rows it is otherwise. */
  lemma DeliveredIs(q: Search, scan: seq<Entry>, d: Delivery)
    ensures var r := Delivered(Answer(q, scan), d);
            var all := Arranged(scan, q.tags);
            && (r.FindFailed? <==>
                  || d.refused
                  || (if q.limit < 0 || q.offset < 0 then !d.late
                      else d.badRowAt.Some? && d.badRowAt.value < q.limit && q.offset + d.badRowAt.value < |all|
                           && (d.cutAt.None? || d.badRowAt.value < d.cutAt.value)))
            && (r.Found? && (q.limit < 0 || q.offset < 0) ==> r.rows == [])
            && (r.Found? && q.limit >= 0 && q.offset >= 0 ==>
                  && |r.rows| <= q.limit && (r.rows != [] ==> q.offset + |r.rows| <= |all|)
                  && (forall i | 0 <= i < |r.rows| :: r.rows[i] == all[q.offset + i])
                  && (|r.rows| == q.limit || q.offset + |r.rows| >= |all| || d.cutAt == Some(|r.rows|))
                  && (d.cutAt.Some? ==> |r.rows| <= d.cutAt.value))
  {
    if q.limit >= 0 && q.offset >= 0 {
      WindowIs(Arranged(scan, q.tags), q.limit, q.offset);
    }
  }

  /** INSERT ... ON CONFLICT (id) DO UPDATE SET status, tags, updated_at. */
  function Upserted(t: Table, id: int, m: Metadata, now: int): Table {
    if id in t then t[id := t[id].(status := m.status, tags := Some(m.tags), updatedAt := now)]
    else t[id := NewRow(m, now)]
  }

  class Repository {
    var connected: bool
    var table: Table
    var lastId: int

    // BIGSERIAL hands out numbers that no row has.
    ghost predicate Valid()
      reads this
    {
      forall id | id in table :: id <= lastId
    }

    constructor (connected: bool)
      ensures Valid() && this.connected == connected && table == map[] && lastId == 0
    {
      this.connected, table, lastId := connected, map[], 0;
    }

    method Create(record: FileMetadata, reply: Reply, now: int) returns (ok: bool)
      requires Valid()
      modifies this, record
      ensures Valid() && connected == old(connected)
      ensures ok <==> connected && reply.Answered?
      ensures record.Meta() == old(record.Meta()) && record.updatedAt == old(record.updatedAt)
      ensures ok ==> record.id == lastId == old(lastId) + 1 && record.createdAt == now
      ensures !ok ==> record.id == old(record.id) && record.createdAt == old(record.createdAt)
      ensures if connected && !reply.Refused? then
                && lastId !in old(table) && table.Keys == old(table).Keys + {lastId}
                && (forall k | k in old(table) :: table[k] == old(table)[k])
                && table[lastId] == Row(record.fileName, record.fileSize, record.status, record.source,
                                        Some(record.tags), now, now)
              else table == old(table)
    {
      if !connected {
        return false;
      }
      lastId := lastId + 1;
      if reply.Refused? {
        return false;
      }
      table := table[lastId := NewRow(record.Meta(), now)];
      if reply.Lost? {
        return false;
      }
      record.id, record.createdAt := lastId, now;
      ok := true;
    }

    /** The statement names no id among the inserted columns, so the conflict clause never fires:
        saving a record again adds another row and leaves the row it had before as it was. */
    method SaveMetadata(record: FileMetadata, reply: Reply, now: int) returns (ok: bool)
      requires Valid()
      modifies this, record
      ensures Valid() && connected == old(connected)
      ensures ok <==> connected && reply.Answered?
      ensures record.Meta() == old(record.Meta())
      ensures ok ==> record.id == lastId && record.createdAt == now
      ensures !ok ==> record.id == old(record.id) && record.createdAt == old(record.createdAt)
      ensures if connected && !reply.Refused? then
                && lastId !in old(table) && table.Keys == old(table).Keys + {lastId}
                && (forall k | k in old(table) :: table[k] == old(table)[k])
                && table[lastId] == Row(record.fileName, record.fileSize, record.status, record.source,
                                        Some(record.tags), now, now)
              else table == old(table)
    {
      if !connected {
        return false;
      }
      lastId := lastId + 1;
      if reply.Refused? {
        return false;
      }
      table := Upserted(table, lastId, record.Meta(), now);
      if reply.Lost? {
        return false;
      }
      record.id, record.createdAt := lastId, now;
      ok := true;
    }

    method UpdateStatus(id: int, status: TransferStatus, reply: Reply, now: int) returns (ok: bool)
      requires Valid()
      modifies this
      ensures Valid() && connected == old(connected) && lastId == old(lastId)
      ensures ok <==> connected && reply.Answered?
      ensures table.Keys == old(table).Keys
      ensures forall k | k in table ::
                table[k] == if k == id && connected && !reply.Refused?
                            then old(table)[k].(status := status, updatedAt := now)
                            else old(table)[k]
    {
      if !connected {
        return false;
      }
      if !reply.Refused? && id in table {
        table := table[id := Restamped(table[id], status, now)];
      }
      ok := reply.Answered?;
    }

    /** The statement and its arguments, built step by step. */
    method BuildQuery(q: Search) returns (query: seq<Clause>, args: seq<Arg>)
      ensures Placeholders(query) == seq(|args|, i requires 0 <= i < |args| => i + 1)
      ensures forall scan :: Evaluate(query, args, scan) == Answer(q, scan)
    {
      query := [SelectAll];
      args := [];
      var argIdx := 1;
      if |q.tags| > 0 {
        query := query + [AndTagsContain(argIdx)];
        args := args + [TextArray(q.tags)];
        argIdx := argIdx + 1;
      }
      query := query + [OrderByCreatedDesc, LimitOffset(argIdx, argIdx + 1)];
      args := args + [Int(q.limit), Int(q.offset)];
      QueryPlaceholders(q, query, args);
      forall scan
        ensures Evaluate(query, args, scan) == Answer(q, scan)
      {
        QueryMeaning(q, query, args, scan);
      }
    }

    /** The rows are appended one by one; rows.Err is never asked, so a connection that breaks
        between rows ends the list without an error. */
    method ReadRows(found: Option<seq<Entry>>, d: Delivery) returns (r: FindResult)
      ensures r == Delivered(found, d)
    {
      if d.refused || (found.None? && !d.late) {
        return FindFailed;
      }
      var rows := if found.None? then [] else found.value;
      var results := [];
      var i := 0;
      while i < |rows| && d.cutAt != Some(i)
        invariant i <= |rows| && results == rows[..i]
        invariant (d.cutAt.Some? ==> i <= d.cutAt.value) && (d.badRowAt.Some? ==> i <= d.badRowAt.value)
      {
        if d.badRowAt == Some(i) {
          return FindFailed;
        }
        results := results + [rows[i]];
        i := i + 1;
      }
      r := Found(results);
    }

    /** A list without an error is the page of the search, short only where the connection broke. */
    method FindAll(q: Search, scan: seq<Entry>, d: Delivery) returns (r: FindResult)
      requires Lists(scan, table)
      ensures r.FindFailed? <==>
                || !connected || d.refused
                || (if q.limit < 0 || q.offset < 0 then !d.late
                    else d.badRowAt.Some? && d.badRowAt.value < q.limit
                         && q.offset + d.badRowAt.value < |Arranged(scan, q.tags)|
                         && (d.cutAt.None? || d.badRowAt.value < d.cutAt.value))
      ensures r.Found? && (q.limit < 0 || q.offset < 0) ==> r.rows == []
      ensures r.Found? && q.limit >= 0 && q.offset >= 0 ==>
                var all := Arranged(scan, q.tags);
                && |r.rows| <= q.limit && (r.rows != [] ==> q.offset + |r.rows| <= |all|)
                && (forall i | 0 <= i < |r.rows| :: r.rows[i] == all[q.offset + i])
                && (|r.rows| == q.limit || q.offset + |r.rows| >= |all| || d.cutAt == Some(|r.rows|))
                && (d.cutAt.Some? ==> |r.rows| <= d.cutAt.value)
      ensures connected ==> r == Delivered(Answer(q, scan), d)
    {
      if !connected {
        return FindFailed;
      }
      DeliveredIs(q, scan, d);
      var query, args := BuildQuery(q);
      r := ReadRows(Evaluate(query, args, scan), d);
    }
  }

  /** One row, a search that matches it, and a connection that breaks before it arrives: an empty
      list and no error. */
  method ListCutShort(m: Metadata, now: int) returns (table: Table, r: FindResult)
    ensures table == map[1 := NewRow(m, now)]
    ensures Matches(table[1], m.tags) && r == Found([])
  {
    var repo := new Repository(true);
    var record := new FileMetadata(m);
    var ok := repo.Create(record, Answered, now);
    table := repo.table;
    assert table.Keys == {1};
    var row := Entry(1, table[1]);
    assert forall e :: multiset([row])[e] == if InTable(table, e) then 1 else 0;
    r := repo.FindAll(Search(m.tags, 20, 0), [row], Delivery(false, false, Some(0), None));
  }

  // -------------------------------------------------------------------- limits and pages

  function ClampLimit(limit: int): (l: nat)
    ensures 1 <= l <= 100 && (1 <= limit <= 100 ==> l == limit)
    ensures (limit > 100 ==> l == 100) && (limit <= 0 ==> l == 10)
  {
    if limit > 100 then 100 else if limit <= 0 then 10 else limit
  }

  /** rows is the page of all at this offset, short only where the connection broke. */
  predicate IsPage(rows: seq<Entry>, all: seq<Entry>, limit: nat, offset: nat, d: Delivery) {
    && |rows| <= limit && (rows != [] ==> offset + |rows| <= |all|)
    && (forall i | 0 <= i < |rows| :: rows[i] == all[offset + i])
    && (|rows| == limit || offset + |rows| >= |all| || d.cutAt == Some(|rows|))
    && (d.cutAt.Some? ==> |rows| <= d.cutAt.value)
  }

  /** A row of that page cannot be scanned, and the connection does not break before it. */
  predicate BadRowIn(all: seq<Entry>, limit: nat, offset: nat, d: Delivery) {
    && d.badRowAt.Some? && d.badRowAt.value < limit && offset + d.badRowAt.value < |all|
    && (d.cutAt.None? || d.badRowAt.value < d.cutAt.value)
  }

  method FetchMetadataList(repo: Repository, tags: seq<string>, limit: int, offset: int, scan: seq<Entry>, d: Delivery)
    returns (r: FindResult)
    requires Lists(scan, repo.table)
    ensures r.FindFailed? <==>
              || !repo.connected || d.refused
              || (if offset < 0 then !d.late
                  else
                    var lim := if limit > 100 then 100 else if limit <= 0 then 10 else limit;
                    BadRowIn(Arranged(scan, tags), lim, offset, d))
    ensures r.Found? && offset < 0 ==> r.rows == []
    ensures r.Found? && offset >= 0 ==>
              var lim := if limit > 100 then 100 else if limit <= 0 then 10 else limit;
              IsPage(r.rows, Arranged(scan, tags), lim, offset, d)
    ensures r.Found? ==> |r.rows| <= 100
    ensures repo.connected && offset >= 0 ==>
              r == Delivered(Some(Window(Arranged(scan, tags), ClampLimit(limit), offset)), d)
  {
    var lim := limit;
    if lim > 100 {
      lim := 100;
    }
    if lim <= 0 {
      lim := 10;
    }
    r := repo.FindAll(Search(tags, lim, offset), scan, d);
  }

  /** The first n pages of size limit, one after another. */
  function Pages(rows: seq<Entry>, limit: nat, n: nat): seq<Entry> {
    if n == 0 then [] else Pages(rows, limit, n - 1) + Window(rows, limit, (n - 1) * limit)
  }

  lemma {:induction false} PagesArePrefix(rows: seq<Entry>, limit: nat, n: nat)
    ensures Pages(rows, limit, n) == if n * limit <= |rows| then rows[..n * limit] else rows
  {
    if n > 0 {
      PagesArePrefix(rows, limit, n - 1);
      assert n * limit == (n - 1) * limit + limit;
    }
  }

  lemma PagesCover(rows: seq<Entry>, limit: nat, n: nat)
    requires n * limit >= |rows|
    ensures Pages(rows, limit, n) == rows
  {
    PagesArePrefix(rows, limit, n);
    if n * limit == |rows| {
      assert rows[..n * limit] == rows;
    }
  }

  /** Asking for page after page of a fixed table, with whatever limit was requested, gives every
      matching row exactly once, newest first. */
  lemma PagesCoverTheSearch(scan: seq<Entry>, t: Table, tags: seq<string>, limit: int, n: nat)
    requires Lists(scan, t)
    requires n * ClampLimit(limit) >= |Arranged(scan, tags)|
    ensures Arrangement(Pages(Arranged(scan, tags), ClampLimit(limit), n), t, tags)
  {
    ArrangedIsArrangement(scan, t, tags);
    PagesCover(Arranged(scan, tags), ClampLimit(limit), n);
  }
}
