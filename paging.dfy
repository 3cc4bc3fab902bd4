/** The paginated process list of cotacoes.py: processes newest first,
    `LIMIT page_size OFFSET page * page_size`, and the total count. */
module Paging {
  import opened Processes

  /** Opening times never increase along the sequence. */
  predicate NewestFirst(rows: seq<Process>) {
    forall i, j | 0 <= i < j < |rows| :: rows[i].dataAbertura >= rows[j].dataAbertura
  }

  /** Where `row` goes among rows already newest first: after every row
      opened no earlier than it. */
  function Position(row: Process, sorted: seq<Process>): (k: nat)
    ensures k <= |sorted|
    ensures forall i | 0 <= i < k :: sorted[i].dataAbertura >= row.dataAbertura
    ensures k < |sorted| ==> sorted[k].dataAbertura < row.dataAbertura
  {
    if sorted == [] || sorted[0].dataAbertura < row.dataAbertura then 0
    else 1 + Position(row, sorted[1..])
  }

  /** `row` placed at its position among rows already newest first. */
  function Insert(row: Process, sorted: seq<Process>): (r: seq<Process>)
    requires NewestFirst(sorted)
    ensures |r| == |sorted| + 1
    ensures NewestFirst(r)
    ensures multiset(r) == multiset(sorted) + multiset{row}
  {
    var k := Position(row, sorted);
    InsertAt(row, sorted, k);
    sorted[..k] + [row] + sorted[k..]
  }

  /** Putting `row` after the rows opened no earlier and before the rows
      opened earlier keeps the order and adds exactly that row. */
  lemma InsertAt(row: Process, sorted: seq<Process>, k: nat)
    requires NewestFirst(sorted) && k <= |sorted|
    requires forall i | 0 <= i < k :: sorted[i].dataAbertura >= row.dataAbertura
    requires k < |sorted| ==> sorted[k].dataAbertura < row.dataAbertura
    ensures NewestFirst(sorted[..k] + [row] + sorted[k..])
    ensures multiset(sorted[..k] + [row] + sorted[k..]) == multiset(sorted) + multiset{row}
  {
    InsertAtOrder(row, sorted, k);
    assert sorted == sorted[..k] + sorted[k..];
  }

  lemma InsertAtOrder(row: Process, sorted: seq<Process>, k: nat)
    requires NewestFirst(sorted) && k <= |sorted|
    requires forall i | 0 <= i < k :: sorted[i].dataAbertura >= row.dataAbertura
    requires k < |sorted| ==> sorted[k].dataAbertura < row.dataAbertura
    ensures NewestFirst(sorted[..k] + [row] + sorted[k..])
  {
    var r := sorted[..k] + [row] + sorted[k..];
    assert forall i | 0 <= i < k :: r[i] == sorted[i];
    assert r[k] == row;
    assert forall i | k < i < |r| :: r[i] == sorted[i - 1];
  }

  /** `ORDER BY data_abertura DESC`: the rows newest first. The order of rows
      opened at the same time is left to the database; this model keeps a
      fixed one. */
  function ByDateDesc(rows: seq<Process>): (r: seq<Process>)
    ensures |r| == |rows|
    ensures NewestFirst(r)
    ensures multiset(r) == multiset(rows)
  {
    if rows == [] then []
    else
      var init := rows[..|rows| - 1];
      assert rows == init + [rows[|rows| - 1]];
      Insert(rows[|rows| - 1], ByDateDesc(init))
  }

  /** `x` cut into `0 ..= n`. */
  function Clamp(x: int, n: nat): (r: nat)
    ensures r <= n
    ensures 0 <= x <= n ==> r == x
  {
    if x < 0 then 0 else if x > n then n else x
  }

  /** `LIMIT limit OFFSET offset` in SQLite: a negative offset skips nothing,
      a negative limit returns every remaining row, and a non-negative limit
      returns that many rows or as many as remain. */
  function LimitOffset<T>(rows: seq<T>, limit: int, offset: int): (r: seq<T>)
    ensures Clamp(offset, |rows|) + |r| <= |rows|
    ensures r == rows[Clamp(offset, |rows|)..Clamp(offset, |rows|) + |r|]
    ensures limit < 0 ==> Clamp(offset, |rows|) + |r| == |rows|
    ensures limit >= 0 ==> |r| == (if Clamp(offset, |rows|) + limit <= |rows| then limit else |rows| - Clamp(offset, |rows|))
  {
    var start := Clamp(offset, |rows|);
    var end := if limit < 0 || start + limit > |rows| then |rows| else start + limit;
    rows[start..end]
  }

  /** `listar_processos(page, page_size)`: one page of the processes, newest
      first, and the number of all processes. */
  function ListProcesses(rows: seq<Process>, page: int, pageSize: int): (r: (seq<Process>, nat))
    ensures r.1 == |rows|
    ensures pageSize >= 0 ==> |r.0| <= pageSize
  {
    (LimitOffset(ByDateDesc(rows), pageSize, Offset(page, pageSize)), |rows|)
  }

  /** A page is newest first and lists only processes of the table. */
  lemma PageFromTable(rows: seq<Process>, page: int, pageSize: int)
    ensures NewestFirst(ListProcesses(rows, page, pageSize).0)
    ensures forall x | x in ListProcesses(rows, page, pageSize).0 :: x in rows
  {
    var sorted := ByDateDesc(rows);
    var slice := LimitOffset(sorted, pageSize, Offset(page, pageSize));
    SliceFacts(rows, sorted, slice, Clamp(Offset(page, pageSize), |sorted|));
  }

  /** A window of the sorted rows is itself newest first and holds only rows
      of the table. */
  lemma SliceFacts(rows: seq<Process>, sorted: seq<Process>, slice: seq<Process>, start: nat)
    requires NewestFirst(sorted) && multiset(sorted) == multiset(rows)
    requires start + |slice| <= |sorted| && slice == sorted[start..start + |slice|]
    ensures NewestFirst(slice)
    ensures forall x | x in slice :: x in rows
  {
    forall i, j | 0 <= i < j < |slice| ensures slice[i].dataAbertura >= slice[j].dataAbertura {
      assert slice[i] == sorted[start + i] && slice[j] == sorted[start + j];
    }
    forall x | x in slice ensures x in rows {
      var i :| 0 <= i < |slice| && slice[i] == x;
      assert sorted[start + i] == x;
      assert x in multiset(sorted);
    }
  }

  /** `page * page_size`, counted one page at a time. */
  function Offset(page: int, size: int): (r: int)
    ensures page >= 0 && size >= 0 ==> r >= 0
    decreases if page >= 0 then page else -page
  {
    if page == 0 then 0
    else if page > 0 then Offset(page - 1, size) + size
    else Offset(page + 1, size) - size
  }

  /** The offset is the product of the page and the page size, for negative
      pages too. */
  lemma {:induction false} OffsetIsProduct(page: int, size: int)
    ensures Offset(page, size) == page * size
    decreases if page >= 0 then page else -page
  {
    if page > 0 {
      OffsetIsProduct(page - 1, size);
      assert page * size == (page - 1) * size + size;
    } else if page < 0 {
      OffsetIsProduct(page + 1, size);
      assert page * size == (page + 1) * size - size;
    }
  }

  /** A non-negative limit and offset select the rows from the offset up to
      the offset plus the limit, cut at the end. */
  lemma Window<T>(rows: seq<T>, offset: nat, limit: nat)
    ensures LimitOffset(rows, limit, offset) == rows[Clamp(offset, |rows|)..Clamp(offset + limit, |rows|)]
  {
  }

  /** With non-negative page and size, page `p` is the rows at positions
      `p * size .. p * size + size` of the newest-first order, cut at its
      end. */
  lemma PageWindow(rows: seq<Process>, sorted: seq<Process>, page: nat, size: nat)
    requires sorted == ByDateDesc(rows)
    ensures ListProcesses(rows, page, size).0 ==
      sorted[Clamp(Offset(page, size), |rows|)..Clamp(Offset(page, size) + size, |rows|)]
  {
    Window(sorted, Offset(page, size), size);
  }

  /** Every position of a sequence with distinct ids holds a different id. */
  predicate UniqueIds(rows: seq<Process>) {
    forall i, j | 0 <= i < j < |rows| :: rows[i].id != rows[j].id
  }

  lemma {:induction false} InsertKeepsUniqueIds(row: Process, sorted: seq<Process>)
    requires NewestFirst(sorted) && UniqueIds(sorted)
    requires forall i | 0 <= i < |sorted| :: sorted[i].id != row.id
    ensures UniqueIds(Insert(row, sorted))
  {
    UniqueIdsAt(row, sorted, Position(row, sorted));
  }

  lemma UniqueIdsAt(row: Process, sorted: seq<Process>, k: nat)
    requires k <= |sorted| && UniqueIds(sorted)
    requires forall i | 0 <= i < |sorted| :: sorted[i].id != row.id
    ensures UniqueIds(sorted[..k] + [row] + sorted[k..])
  {
    var r := sorted[..k] + [row] + sorted[k..];
    assert forall i | 0 <= i < k :: r[i] == sorted[i];
    assert r[k] == row;
    assert forall i | k < i < |r| :: r[i] == sorted[i - 1];
  }

  /** Sorting keeps ids distinct: it only reorders the rows. */
  lemma {:induction false} ByDateKeepsUniqueIds(rows: seq<Process>)
    requires UniqueIds(rows)
    ensures UniqueIds(ByDateDesc(rows))
  {
    if rows != [] {
      var init := rows[..|rows| - 1];
      var last := rows[|rows| - 1];
      assert forall i | 0 <= i < |init| :: init[i] == rows[i];
      ByDateKeepsUniqueIds(init);
      var sorted := ByDateDesc(init);
      forall i | 0 <= i < |sorted| ensures sorted[i].id != last.id {
        assert sorted[i] in multiset(init);
        var j :| 0 <= j < |init| && init[j] == sorted[i];
      }
      InsertKeepsUniqueIds(last, sorted);
    }
  }

  /** No two positions hold processes opened at the same time. */
  predicate DistinctDates(rows: seq<Process>) {
    forall i, j | 0 <= i < j < |rows| :: rows[i].dataAbertura != rows[j].dataAbertura
  }

  lemma DistinctDatesAt(row: Process, sorted: seq<Process>, k: nat)
    requires k <= |sorted| && DistinctDates(sorted)
    requires forall i | 0 <= i < |sorted| :: sorted[i].dataAbertura != row.dataAbertura
    ensures DistinctDates(sorted[..k] + [row] + sorted[k..])
  {
    var r := sorted[..k] + [row] + sorted[k..];
    assert forall i | 0 <= i < k :: r[i] == sorted[i];
    assert r[k] == row;
    assert forall i | k < i < |r| :: r[i] == sorted[i - 1];
  }

  /** Sorting keeps opening times distinct. */
  lemma {:induction false} ByDateKeepsDistinctDates(rows: seq<Process>)
    requires DistinctDates(rows)
    ensures DistinctDates(ByDateDesc(rows))
  {
    if rows != [] {
      var init := rows[..|rows| - 1];
      var last := rows[|rows| - 1];
      assert forall i | 0 <= i < |init| :: init[i] == rows[i];
      ByDateKeepsDistinctDates(init);
      var sorted := ByDateDesc(init);
      forall i | 0 <= i < |sorted| ensures sorted[i].dataAbertura != last.dataAbertura {
        assert sorted[i] in multiset(init);
        var j :| 0 <= j < |init| && init[j] == sorted[i];
      }
      DistinctDatesAt(last, sorted, Position(last, sorted));
    }
  }

  /** Without ties there is only one newest-first arrangement of a set of
      rows: two of them holding the same rows are equal. */
  lemma {:induction false} NewestFirstUnique(a: seq<Process>, b: seq<Process>)
    requires NewestFirst(a) && NewestFirst(b) && DistinctDates(a)
    requires multiset(a) == multiset(b)
    ensures a == b
  {
    if a == [] {
      assert |b| == |multiset(b)| == 0;
    } else {
      assert |b| == |multiset(b)| == |a|;
      SameHead(a, b);
      TailKeepsOrder(a);
      TailKeepsOrder(b);
      SameTail(a, b);
      NewestFirstUnique(a[1..], b[1..]);
      assert a == [a[0]] + a[1..] && b == [b[0]] + b[1..];
    }
  }

  /** Two newest-first arrangements of the same rows, without ties in the
      first, start with the same row. */
  lemma SameHead(a: seq<Process>, b: seq<Process>)
    requires a != [] && |a| == |b|
    requires NewestFirst(a) && NewestFirst(b) && DistinctDates(a)
    requires multiset(a) == multiset(b)
    ensures a[0] == b[0]
  {
    assert a[0] in multiset(b);
    assert b[0] in multiset(a);
    var k :| 0 <= k < |b| && b[k] == a[0];
    var m :| 0 <= m < |a| && a[m] == b[0];
    assert b[0].dataAbertura >= b[k].dataAbertura;
    if m != 0 {
      assert false;
    }
  }

  /** Dropping the first row keeps the order and the absence of ties. */
  lemma TailKeepsOrder(a: seq<Process>)
    requires a != [] && NewestFirst(a)
    ensures NewestFirst(a[1..])
    ensures DistinctDates(a) ==> DistinctDates(a[1..])
  {
    assert forall i | 0 <= i < |a| - 1 :: a[1..][i] == a[i + 1];
  }

  /** Equal collections with equal first rows have equal rests. */
  lemma SameTail(a: seq<Process>, b: seq<Process>)
    requires a != [] && b != [] && a[0] == b[0]
    requires multiset(a) == multiset(b)
    ensures multiset(a[1..]) == multiset(b[1..])
  {
    assert a == [a[0]] + a[1..];
    assert b == [b[0]] + b[1..];
    var ma, mb := multiset(a[1..]), multiset(b[1..]);
    assert multiset(a) == multiset{a[0]} + ma;
    assert multiset(b) == multiset{a[0]} + mb;
    forall x ensures ma[x] == mb[x] {
      assert multiset(a)[x] == multiset{a[0]}[x] + ma[x];
      assert multiset(b)[x] == multiset{a[0]}[x] + mb[x];
    }
  }

  /** With distinct opening times, any newest-first arrangement of the table
      the database may return is the model's `ByDateDesc`, so the tie order
      the model fixes decides nothing and every page is determined. */
  lemma OrderForced(rows: seq<Process>, other: seq<Process>)
    requires DistinctDates(rows)
    requires NewestFirst(other) && multiset(other) == multiset(rows)
    ensures other == ByDateDesc(rows)
  {
    ByDateKeepsDistinctDates(rows);
    NewestFirstUnique(ByDateDesc(rows), other);
  }

  /** With distinct ids (the table's primary key) and a positive size, two
      different pages share no process, given one order of the table for
      both queries (see `OrderForced`). */
  lemma PagesDisjoint(rows: seq<Process>, p1: nat, p2: nat, size: nat)
    requires UniqueIds(rows) && size > 0 && p1 < p2
    ensures forall a, b | a in ListProcesses(rows, p1, size).0 && b in ListProcesses(rows, p2, size).0 :: a.id != b.id
  {
    ByDateKeepsUniqueIds(rows);
    PageWindow(rows, ByDateDesc(rows), p1, size);
    PageWindow(rows, ByDateDesc(rows), p2, size);
    LaterPageStartsLater(p1, p2, size);
    WindowsDisjoint(ByDateDesc(rows), Offset(p1, size), Offset(p1, size) + size, Offset(p2, size), Offset(p2, size) + size);
  }

  lemma {:induction false} LaterPageStartsLater(p1: nat, p2: nat, size: nat)
    requires p1 < p2
    ensures Offset(p1, size) + size <= Offset(p2, size)
  {
    if p2 - 1 > p1 {
      LaterPageStartsLater(p1, p2 - 1, size);
    }
  }

  /** Two windows that do not overlap, of a sequence with distinct ids, share
      no id. */
  lemma WindowsDisjoint(sorted: seq<Process>, from1: nat, to1: nat, from2: nat, to2: nat)
    requires UniqueIds(sorted) && from1 <= to1 <= from2 <= to2
    ensures var n := |sorted|;
      forall a, b | a in sorted[Clamp(from1, n)..Clamp(to1, n)] && b in sorted[Clamp(from2, n)..Clamp(to2, n)] :: a.id != b.id
  {
    var n := |sorted|;
    var lo1, hi1, lo2, hi2 := Clamp(from1, n), Clamp(to1, n), Clamp(from2, n), Clamp(to2, n);
    forall a, b | a in sorted[lo1..hi1] && b in sorted[lo2..hi2] ensures a.id != b.id {
      var i :| 0 <= i < hi1 - lo1 && sorted[lo1..hi1][i] == a;
      var j :| 0 <= j < hi2 - lo2 && sorted[lo2..hi2][j] == b;
      assert sorted[lo1 + i] == a && sorted[lo2 + j] == b;
    }
  }

  /** Every process is on the page its position calls for. */
  lemma EveryProcessListed(rows: seq<Process>, size: nat, x: Process)
    requires size > 0 && x in rows
    ensures exists p: nat :: x in ListProcesses(rows, p, size).0
  {
    var sorted := ByDateDesc(rows);
    var i := SortedPosition(rows, sorted, x);
    var p := PageOfPosition(i, size);
    ListedAt(rows, sorted, size, p, i, Offset(p, size));
  }

  /** A row of the table has a position in the newest-first order. */
  lemma SortedPosition(rows: seq<Process>, sorted: seq<Process>, x: Process) returns (i: nat)
    requires sorted == ByDateDesc(rows) && x in rows
    ensures i < |rows| && sorted[i] == x
  {
    assert x in multiset(rows);
    assert x in multiset(sorted);
    i :| 0 <= i < |sorted| && sorted[i] == x;
  }

  /** The process at position `i` of the newest-first order is on the page
      whose window holds `i`. */
  lemma ListedAt(rows: seq<Process>, sorted: seq<Process>, size: nat, p: nat, i: nat, o: nat)
    requires sorted == ByDateDesc(rows) && i < |rows|
    requires o == Offset(p, size) && o <= i < o + size
    ensures sorted[i] in ListProcesses(rows, p, size).0
  {
    PageWindow(rows, sorted, p, size);
    InPageWindow(ListProcesses(rows, p, size).0, sorted, i, o, size);
  }

  lemma InPageWindow<T>(page: seq<T>, s: seq<T>, i: nat, o: nat, size: nat)
    requires i < |s| && o <= i < o + size
    requires page == s[Clamp(o, |s|)..Clamp(o + size, |s|)]
    ensures s[i] in page
  {
    assert page[i - o] == s[i];
  }

  /** The page that holds position `i`. */
  lemma PageOfPosition(i: nat, size: nat) returns (p: nat)
    requires size > 0
    ensures Offset(p, size) <= i < Offset(p, size) + size
  {
    p := i / size;
    OffsetIsProduct(p, size);
    assert i == p * size + i % size;
  }

  /** Twenty-five processes in pages of ten: two full pages and one of five,
      with the total twenty-five on each. */
  lemma TwentyFiveInPagesOfTen(rows: seq<Process>)
    requires |rows| == 25
    ensures |ListProcesses(rows, 0, 10).0| == 10
    ensures |ListProcesses(rows, 1, 10).0| == 10
    ensures |ListProcesses(rows, 2, 10).0| == 5
    ensures |ListProcesses(rows, 3, 10).0| == 0
    ensures ListProcesses(rows, 2, 10).1 == 25
  {
    PageWindow(rows, ByDateDesc(rows), 0, 10);
    PageWindow(rows, ByDateDesc(rows), 1, 10);
    PageWindow(rows, ByDateDesc(rows), 2, 10);
    PageWindow(rows, ByDateDesc(rows), 3, 10);
  }
}
