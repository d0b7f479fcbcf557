/** Stitching tables across pages, and merging continuations of one table. */
module TableMerging {
  import opened Common
  import opened Text

  /** A header cell may be missing. */
  type Header = Option<string>

  datatype PageNumber = Missing | Page(number: int) | NotAnInt

  type Row = seq<string>

  datatype TableData = TableData(
    headers: seq<Header>, rows: seq<Row>, pageNumber: PageNumber, pageRange: Option<set<int>>, multiPage: bool)

  function RowsOf(ts: seq<TableData>): seq<Row> {
    if ts == [] then [] else RowsOf(Init(ts)) + Last(ts).rows
  }

  /** The headers that are neither missing nor empty, stripped and lowered. */
  function Norm(headers: seq<Header>): seq<string> {
    if headers == [] then []
    else Norm(Init(headers))
         + if Last(headers).Some? && Last(headers).value != "" then [Lower(Strip(Last(headers).value))] else []
  }

  /** A page range is the set whose sorted list the source stores; an absent one lists no page. */
  function Listed(pages: Option<set<int>>): set<int> {
    if pages.None? then {} else pages.value
  }

  // ---- Stitching ----

  /** The page a table is on: absent counts as page zero, anything but an integer as unknown. */
  function PageOf(t: TableData): Option<int> {
    match t.pageNumber
    case Missing => Some(0)
    case Page(n) => Some(n)
    case NotAnInt => None
  }

  /** The next table is on the page after (when both pages are known) and has the same non-empty headers. */
  predicate Adjoins(current: TableData, next: TableData) {
    && (PageOf(current).Some? && PageOf(next).Some? ==> PageOf(next).value == PageOf(current).value + 1)
    && current.headers != [] && next.headers == current.headers
  }

  function PagesCovered(t: TableData): set<int> {
    if t.pageRange.Some? then Listed(t.pageRange)
    else if t.pageNumber.Page? then {t.pageNumber.number} else {}
  }

  function Joined(current: TableData, next: TableData): TableData {
    current.(rows := current.rows + next.rows,
             pageRange := Some(PagesCovered(current) + PagesCovered(next)),
             multiPage := true)
  }

  /** `current` with the run of adjoining tables from index `j` on joined to it. */
  function StitchRun(current: TableData, ts: seq<TableData>, j: nat): TableData
    decreases |ts| - j
  {
    if j < |ts| && Adjoins(current, ts[j]) then StitchRun(Joined(current, ts[j]), ts, j + 1) else current
  }

  /** Where that run ends. */
  function RunEnd(current: TableData, ts: seq<TableData>, j: nat): (end: nat)
    requires j <= |ts|
    ensures j <= end <= |ts|
    decreases |ts| - j
  {
    if j < |ts| && Adjoins(current, ts[j]) then RunEnd(Joined(current, ts[j]), ts, j + 1) else j
  }

  function StitchedFrom(ts: seq<TableData>, i: nat): seq<TableData>
    decreases |ts| - i
  {
    if i >= |ts| then []
    else [StitchRun(ts[i], ts, i + 1)] + StitchedFrom(ts, RunEnd(ts[i], ts, i + 1))
  }

  function Stitched(ts: seq<TableData>): seq<TableData> {
    StitchedFrom(ts, 0)
  }

  // ---- Continuations ----

  predicate Continues(prev: TableData, curr: TableData) {
    Norm(curr.headers) == Norm(prev.headers) && curr.headers != []
  }

  function Absorb(prev: TableData, curr: TableData): TableData {
    prev.(rows := prev.rows + curr.rows,
          pageRange := Some(Listed(prev.pageRange) + Listed(curr.pageRange)))
  }

  /** One more table: absorbed by the last one it continues, or added. */
  function Extend(out: seq<TableData>, t: TableData): seq<TableData> {
    if out != [] && Continues(Last(out), t) then Init(out) + [Absorb(Last(out), t)] else out + [t]
  }

  /** The first `k` tables merged. */
  function ContinuedTo(ts: seq<TableData>, k: nat): seq<TableData>
    requires k <= |ts|
  {
    if k == 0 then [] else Extend(ContinuedTo(ts, k - 1), ts[k - 1])
  }

  function Continued(ts: seq<TableData>): seq<TableData> {
    ContinuedTo(ts, |ts|)
  }

  /** No table is a continuation of the one before it. */
  predicate Settled(ts: seq<TableData>) {
    forall i :: 0 < i < |ts| ==> !Continues(ts[i - 1], ts[i])
  }

  // ---- Conservation ----

  lemma RowsSnoc(ts: seq<TableData>, t: TableData)
    ensures RowsOf(ts + [t]) == RowsOf(ts) + t.rows
  {
    assert Init(ts + [t]) == ts;
  }

  lemma {:induction false} RowsAppend(a: seq<TableData>, b: seq<TableData>)
    ensures RowsOf(a + b) == RowsOf(a) + RowsOf(b)
  {
    if b == [] {
      assert a + b == a && RowsOf(a) + [] == RowsOf(a);
    } else {
      hide RowsOf;
      var init, last := Init(b), Last(b);
      RowsAppend(a, init);
      assert b == init + [last];
      ConcatAssociates(a, init, [last]);
      RowsSnoc(a + init, last);
      RowsSnoc(init, last);
      ConcatAssociates(RowsOf(a), RowsOf(init), last.rows);
    }
  }

  lemma RowsCons(t: TableData, ts: seq<TableData>)
    ensures RowsOf([t] + ts) == t.rows + RowsOf(ts)
  {
    RowsAppend([t], ts);
    RowsSnoc([], t);
    assert [] + [t] == [t];
  }

  lemma RowsFrom(ts: seq<TableData>, i: nat)
    requires i < |ts|
    ensures RowsOf(ts[i..]) == ts[i].rows + RowsOf(ts[i + 1..])
  {
    assert ts[i..] == [ts[i]] + ts[i + 1..];
    RowsCons(ts[i], ts[i + 1..]);
  }

  /** A run holds its tables' rows; the rest of the document follows. */
  lemma {:induction false} RunRows(current: TableData, ts: seq<TableData>, j: nat)
    requires j <= |ts|
    ensures StitchRun(current, ts, j).rows + RowsOf(ts[RunEnd(current, ts, j)..]) == current.rows + RowsOf(ts[j..])
    decreases |ts| - j
  {
    if j < |ts| && Adjoins(current, ts[j]) {
      RunRows(Joined(current, ts[j]), ts, j + 1);
      RowsFrom(ts, j);
      ConcatAssociates(current.rows, ts[j].rows, RowsOf(ts[j + 1..]));
    }
  }

  lemma {:induction false} StitchedFromRows(ts: seq<TableData>, i: nat)
    requires i <= |ts|
    ensures RowsOf(StitchedFrom(ts, i)) == RowsOf(ts[i..])
    decreases |ts| - i
  {
    if i < |ts| {
      var end := RunEnd(ts[i], ts, i + 1);
      StitchedFromRows(ts, end);
      RowsCons(StitchRun(ts[i], ts, i + 1), StitchedFrom(ts, end));
      RunRows(ts[i], ts, i + 1);
      RowsFrom(ts, i);
    }
  }

  /** Stitching keeps the document's row sequence. */
  lemma StitchingConservesRows(ts: seq<TableData>)
    ensures RowsOf(Stitched(ts)) == RowsOf(ts)
  {
    StitchedFromRows(ts, 0);
    assert ts[0..] == ts;
  }

  lemma ExtendRows(out: seq<TableData>, t: TableData)
    ensures RowsOf(Extend(out, t)) == RowsOf(out) + t.rows
  {
    if out != [] && Continues(Last(out), t) {
      RowsSnoc(Init(out), Absorb(Last(out), t));
    } else {
      RowsSnoc(out, t);
    }
  }

  lemma {:induction false} ContinuedToRows(ts: seq<TableData>, k: nat)
    requires k <= |ts|
    ensures RowsOf(ContinuedTo(ts, k)) == RowsOf(ts[..k])
  {
    if k > 0 {
      ContinuedToRows(ts, k - 1);
      ExtendRows(ContinuedTo(ts, k - 1), ts[k - 1]);
      assert Init(ts[..k]) == ts[..k - 1];
    }
  }

  /** Merging continuations keeps the row sequence. */
  lemma ContinuationConservesRows(ts: seq<TableData>)
    ensures RowsOf(Continued(ts)) == RowsOf(ts)
  {
    ContinuedToRows(ts, |ts|);
    assert ts[..|ts|] == ts;
  }

  lemma ExtendSettled(out: seq<TableData>, t: TableData)
    requires Settled(out)
    ensures Settled(Extend(out, t))
  {
    var after := Extend(out, t);
    forall i | 0 < i < |after| ensures !Continues(after[i - 1], after[i]) {
      if i < |out| {
        assert !Continues(out[i - 1], out[i]);
      }
    }
  }

  lemma {:induction false} ContinuedToSettles(ts: seq<TableData>, k: nat)
    requires k <= |ts|
    ensures Settled(ContinuedTo(ts, k))
  {
    if k > 0 {
      ContinuedToSettles(ts, k - 1);
      ExtendSettled(ContinuedTo(ts, k - 1), ts[k - 1]);
    }
  }

  /** It leaves nothing more to merge. */
  lemma ContinuationSettles(ts: seq<TableData>)
    ensures Settled(Continued(ts))
  {
    ContinuedToSettles(ts, |ts|);
  }

  lemma {:induction false} SettledToUnchanged(ts: seq<TableData>, k: nat)
    requires k <= |ts| && Settled(ts)
    ensures ContinuedTo(ts, k) == ts[..k]
  {
    if k > 0 {
      SettledToUnchanged(ts, k - 1);
      assert k > 1 ==> !Continues(ts[k - 2], ts[k - 1]);
      PrefixSnoc(ts, k - 1);
    }
  }

  lemma SettledUnchanged(ts: seq<TableData>)
    requires Settled(ts)
    ensures Continued(ts) == ts
  {
    SettledToUnchanged(ts, |ts|);
    assert ts[..|ts|] == ts;
  }

  /** A pass changes nothing exactly when no table continues the one before; so a second pass never does. */
  lemma ContinuationIsIdempotent(ts: seq<TableData>)
    ensures Continued(ts) == ts <==> Settled(ts)
    ensures Continued(Continued(ts)) == Continued(ts)
  {
    ContinuationSettles(ts);
    SettledUnchanged(Continued(ts));
    if Settled(ts) {
      SettledUnchanged(ts);
    }
  }

  // ---- What is compared ----

  /** Headers are compared by their cells that are neither missing nor empty, without case and outer blanks. */
  lemma NormMeaning(a: seq<Header>, b: seq<Header>, cell: string)
    ensures Norm(a + b) == Norm(a) + Norm(b)
    ensures Norm([None]) == [] && Norm([Some("")]) == []
    ensures cell != "" ==> Norm([Some(cell)]) == [Lower(Strip(cell))]
  {
    var none: seq<Header> := [None];
    assert Init(none) == [] && Init([Some("")]) == [] && Init([Some(cell)]) == [];
    NormAppend(a, b);
  }

  lemma NormSnoc(a: seq<Header>, h: Header)
    ensures Norm(a + [h]) == Norm(a) + if h.Some? && h.value != "" then [Lower(Strip(h.value))] else []
  {
    assert Init(a + [h]) == a;
  }

  lemma {:induction false} NormAppend(a: seq<Header>, b: seq<Header>)
    ensures Norm(a + b) == Norm(a) + Norm(b)
  {
    if b == [] {
      assert a + b == a;
    } else {
      var init, last := Init(b), Last(b);
      assert b == init + [last] && a + b == (a + init) + [last];
      NormAppend(a, init);
      NormSnoc(a + init, last);
      NormSnoc(init, last);
      hide Norm;
    }
  }

  /** A table continues another when it has headers, be they all empty, and they agree with the other's. */
  lemma ContinuesIff(prev: TableData, curr: TableData)
    ensures Continues(prev, curr) <==> curr.headers != [] && Norm(prev.headers) == Norm(curr.headers)
    ensures Continues(curr, curr) <==> curr.headers != []
  {
  }

  /** A table without page number counts as page zero, and one whose page is no number stands on any page. */
  lemma AdjoinsMeaning(current: TableData, next: TableData)
    requires current.headers != [] && next.headers == current.headers
    ensures current.pageNumber.NotAnInt? || next.pageNumber.NotAnInt? ==> Adjoins(current, next)
    ensures current.pageNumber.Page? && next.pageNumber.Page? ==>
              (Adjoins(current, next) <==> next.pageNumber.number == current.pageNumber.number + 1)
    ensures current.pageNumber.Missing? && next.pageNumber.Page? ==>
              (Adjoins(current, next) <==> next.pageNumber.number == 1)
    ensures current.pageNumber.Page? && next.pageNumber.Missing? ==>
              (Adjoins(current, next) <==> current.pageNumber.number == -1)
    ensures current.pageNumber.Missing? && next.pageNumber.Missing? ==> !Adjoins(current, next)
    ensures forall headers :: headers != next.headers ==> !Adjoins(current.(headers := headers), next)
    ensures !Adjoins(current.(headers := []), next.(headers := []))
  {
  }

  // ---- What becomes of the pages ----

  /** A table covers the pages it lists, and without a list the page it is on. */
  lemma PagesCoveredMeaning(t: TableData, p: int)
    ensures p in PagesCovered(t)
            <==> || (t.pageRange.Some? && p in t.pageRange.value)
                 || (t.pageRange.None? && t.pageNumber == Page(p))
  {
  }

  function AllPages(ts: seq<TableData>): set<int> {
    if ts == [] then {} else AllPages(Init(ts)) + PagesCovered(Last(ts))
  }

  lemma AllPagesSnoc(ts: seq<TableData>, t: TableData)
    ensures AllPages(ts + [t]) == AllPages(ts) + PagesCovered(t)
  {
    assert Init(ts + [t]) == ts;
  }

  lemma {:induction false} AllPagesAppend(a: seq<TableData>, b: seq<TableData>)
    ensures AllPages(a + b) == AllPages(a) + AllPages(b)
  {
    if b == [] {
      assert a + b == a;
    } else {
      AllPagesAppend(a, Init(b));
      assert a + b == (a + Init(b)) + [Last(b)] && b == Init(b) + [Last(b)];
      AllPagesSnoc(a + Init(b), Last(b));
    }
  }

  lemma AllPagesFrom(ts: seq<TableData>, i: nat)
    requires i < |ts|
    ensures AllPages(ts[i..]) == PagesCovered(ts[i]) + AllPages(ts[i + 1..])
  {
    assert ts[i..] == [ts[i]] + ts[i + 1..];
    AllPagesAppend([ts[i]], ts[i + 1..]);
    AllPagesSnoc([], ts[i]);
    assert [] + [ts[i]] == [ts[i]];
  }

  lemma {:induction false} RunPages(current: TableData, ts: seq<TableData>, j: nat)
    requires j <= |ts|
    ensures PagesCovered(StitchRun(current, ts, j)) + AllPages(ts[RunEnd(current, ts, j)..])
         == PagesCovered(current) + AllPages(ts[j..])
    ensures StitchRun(current, ts, j).multiPage <==> current.multiPage || RunEnd(current, ts, j) > j
    ensures StitchRun(current, ts, j).pageNumber == current.pageNumber
    decreases |ts| - j
  {
    if j < |ts| && Adjoins(current, ts[j]) {
      RunPages(Joined(current, ts[j]), ts, j + 1);
      AllPagesFrom(ts, j);
      assert PagesCovered(Joined(current, ts[j])) == PagesCovered(current) + PagesCovered(ts[j]);
      hide AllPages, PagesCovered;
    }
  }

  lemma {:induction false} StitchedFromPages(ts: seq<TableData>, i: nat)
    requires i <= |ts|
    ensures AllPages(StitchedFrom(ts, i)) == AllPages(ts[i..])
    decreases |ts| - i
  {
    if i < |ts| {
      var run, end := StitchRun(ts[i], ts, i + 1), RunEnd(ts[i], ts, i + 1);
      StitchedFromPages(ts, end);
      RunPages(ts[i], ts, i + 1);
      AllPagesFrom(ts, i);
      AllPagesAppend([run], StitchedFrom(ts, end));
      AllPagesSnoc([], run);
      assert [] + [run] == [run];
      hide AllPages, PagesCovered, StitchRun, RunEnd;
    }
  }

  /** Stitching keeps the pages the tables cover; a table is marked as spanning pages exactly when parts were joined. */
  lemma StitchingKeepsPages(ts: seq<TableData>)
    ensures AllPages(Stitched(ts)) == AllPages(ts)
    ensures ts != [] ==> (Stitched(ts)[0].multiPage <==> ts[0].multiPage || RunEnd(ts[0], ts, 1) > 1)
  {
    StitchedFromPages(ts, 0);
    assert ts[0..] == ts;
    if ts != [] {
      RunPages(ts[0], ts, 1);
    }
  }

  /** A table that absorbs another has the rows and listed pages of both, and otherwise stays itself. */
  lemma AbsorbMeaning(prev: TableData, curr: TableData, p: int)
    ensures var t := Absorb(prev, curr);
      && t.rows == prev.rows + curr.rows && t.headers == prev.headers && t.pageNumber == prev.pageNumber
      && t.multiPage == prev.multiPage && t.pageRange.Some?
      && (p in t.pageRange.value <==> (prev.pageRange.Some? && p in prev.pageRange.value)
                                      || (curr.pageRange.Some? && p in curr.pageRange.value))
  {
  }

  // ---- Which tables are stitched ----

  /**
   * A joined table keeps the page number and headers of its first part, so all of a run is measured against that
   * part: the run from `current` is the following tables that adjoin it, up to the first that does not.
   */
  lemma {:induction false} RunMeaning(current: TableData, ts: seq<TableData>, j: nat)
    requires j <= |ts|
    ensures forall k :: j <= k < RunEnd(current, ts, j) ==> Adjoins(current, ts[k])
    ensures RunEnd(current, ts, j) < |ts| ==> !Adjoins(current, ts[RunEnd(current, ts, j)])
    decreases |ts| - j
  {
    if j < |ts| && Adjoins(current, ts[j]) {
      RunMeaning(Joined(current, ts[j]), ts, j + 1);
      assert forall t :: Adjoins(Joined(current, ts[j]), t) <==> Adjoins(current, t);
    }
  }

  /**
   * A document's tables are stitched into one exactly when all the others adjoin the first; for known pages, when
   * they are all on the page after it and have its headers.
   */
  lemma StitchedIntoOneIff(ts: seq<TableData>)
    requires ts != []
    ensures |Stitched(ts)| == 1 <==> forall k :: 0 < k < |ts| ==> Adjoins(ts[0], ts[k])
    ensures (forall k :: 0 <= k < |ts| ==> ts[k].pageNumber.Page? && ts[k].headers != []) ==>
              (|Stitched(ts)| == 1 <==>
                forall k :: 0 < k < |ts| ==>
                  && ts[k].pageNumber.number == ts[0].pageNumber.number + 1
                  && ts[k].headers == ts[0].headers)
  {
    var end := RunEnd(ts[0], ts, 1);
    RunMeaning(ts[0], ts, 1);
    assert Stitched(ts) == [StitchRun(ts[0], ts, 1)] + StitchedFrom(ts, end);
    assert StitchedFrom(ts, end) == [] <==> end == |ts|;
  }

  /** One table continued page by page. */
  predicate OnConsecutivePages(ts: seq<TableData>) {
    && (forall k :: 0 <= k < |ts| ==> ts[k].pageNumber.Page? && ts[k].headers != [] && ts[k].headers == ts[0].headers)
    && (forall k :: 0 <= k < |ts| ==> ts[k].pageNumber.number == ts[0].pageNumber.number + k)
  }

  /** So a table continued over n pages is stitched in pairs only, into half as many pieces. */
  lemma {:induction false} StitchedInPairs(ts: seq<TableData>, i: nat)
    requires OnConsecutivePages(ts) && i <= |ts|
    ensures |StitchedFrom(ts, i)| == (|ts| - i + 1) / 2
    ensures forall k :: 0 <= k < |StitchedFrom(ts, i)| ==> StitchedFrom(ts, i)[k].headers == ts[0].headers
    decreases |ts| - i
  {
    if i < |ts| {
      RunMeaning(ts[i], ts, i + 1);
      var end := RunEnd(ts[i], ts, i + 1);
      assert end == Min(i + 2, |ts|);
      RunHeaders(ts[i], ts, i + 1);
      StitchedInPairs(ts, end);
    }
  }

  lemma {:induction false} RunHeaders(current: TableData, ts: seq<TableData>, j: nat)
    ensures StitchRun(current, ts, j).headers == current.headers
    decreases |ts| - j
  {
    if j < |ts| && Adjoins(current, ts[j]) {
      RunHeaders(Joined(current, ts[j]), ts, j + 1);
    }
  }

  lemma {:induction false} SameHeadersFuse(ts: seq<TableData>, k: nat)
    requires 1 <= k <= |ts| && ts[0].headers != []
    requires forall i :: 0 <= i < |ts| ==> ts[i].headers == ts[0].headers
    ensures |ContinuedTo(ts, k)| == 1 && ContinuedTo(ts, k)[0].headers == ts[0].headers
  {
    if k == 1 {
      assert ContinuedTo(ts, 0) == [];
    } else {
      SameHeadersFuse(ts, k - 1);
    }
  }

  /** From three pages on it stays in several pieces; the continuation pass puts them together. */
  lemma LongTablesNeedContinuation(ts: seq<TableData>)
    requires ts != [] && OnConsecutivePages(ts)
    ensures |Stitched(ts)| == (|ts| + 1) / 2
    ensures |Stitched(ts)| == 1 <==> |ts| <= 2
    ensures |Continued(Stitched(ts))| == 1
  {
    StitchedInPairs(ts, 0);
    SameHeadersFuse(Stitched(ts), |Stitched(ts)|);
  }

  /** For three pages: the first two tables are joined, the third is left, and the continuation pass joins it. */
  lemma ThreePageTableStaysSplit(a: TableData, b: TableData, c: TableData, page: int)
    requires a.headers != [] && a.headers == b.headers == c.headers
    requires a.pageNumber == Page(page) && b.pageNumber == Page(page + 1) && c.pageNumber == Page(page + 2)
    ensures Stitched([a, b, c]) == [Joined(a, b), c]
    ensures Continued(Stitched([a, b, c])) == [Absorb(Joined(a, b), c)]
  {
    var ts := [a, b, c];
    RunMeaning(a, ts, 1);
    assert RunEnd(a, ts, 1) == 2 && StitchRun(a, ts, 1) == Joined(a, b);
    assert StitchedFrom(ts, 3) == [];
    assert StitchedFrom(ts, 2) == [c];
    var out := Stitched(ts);
    assert ContinuedTo(out, 1) == [Joined(a, b)];
    assert ContinuedTo(out, 2) == Extend([Joined(a, b)], c);
  }

  // ---- The tables as the assembler holds them: dictionaries updated in place ----

  class Table {
    var headers: seq<Header>
    var rows: seq<Row>
    var pageNumber: PageNumber
    var pageRange: Option<set<int>>
    var multiPage: bool

    function Data(): TableData
      reads this
    {
      TableData(headers, rows, pageNumber, pageRange, multiPage)
    }

    constructor (d: TableData)
      ensures Data() == d
    {
      headers, rows, pageNumber, pageRange, multiPage := d.headers, d.rows, d.pageNumber, d.pageRange, d.multiPage;
    }

    /** Takes over another table's rows and pages. */
    method TakeOver(other: Table)
      modifies this
      ensures Data() == Absorb(old(Data()), old(other.Data()))
    {
      rows := rows + other.rows;
      pageRange := Some(Listed(pageRange) + Listed(other.pageRange));
    }
  }

  function DataOf(ts: seq<Table>): (ds: seq<TableData>)
    reads ts
    ensures |ds| == |ts|
  {
    seq(|ts|, i requires 0 <= i < |ts| reads ts => ts[i].Data())
  }

  predicate Distinct(ts: seq<Table>) {
    forall i, j :: 0 <= i < j < |ts| ==> ts[i] != ts[j]
  }

  lemma DataSnoc(ts: seq<Table>, t: Table)
    ensures DataOf(ts + [t]) == DataOf(ts) + [t.Data()]
  {
  }

  /** What each of the tables holds; a table that is in the list twice is one object with one content. */
  ghost function StoreOf(ts: seq<Table>): (store: map<Table, TableData>)
    reads ts
    ensures store.Keys == set t | t in ts
  {
    map t | t in ts :: t.Data()
  }

  /** The tables kept so far, and what every table holds. */
  datatype Kept = Kept(out: seq<Table>, store: map<Table, TableData>)

  ghost function KeepNext(s: Kept, t: Table): Kept
    requires t in s.store && forall x :: x in s.out ==> x in s.store
  {
    if s.out != [] && Continues(s.store[Last(s.out)], s.store[t])
    then s.(store := s.store[Last(s.out) := Absorb(s.store[Last(s.out)], s.store[t])])
    else s.(out := s.out + [t])
  }

  ghost function KeptTo(tables: seq<Table>, store: map<Table, TableData>, k: nat): (s: Kept)
    requires k <= |tables| && forall t :: t in tables ==> t in store
    ensures s.store.Keys == store.Keys
    ensures forall t :: t in s.out ==> t in tables
  {
    if k == 0 then Kept([], store) else KeepNext(KeptTo(tables, store, k - 1), tables[k - 1])
  }

  lemma KeptStart(tables: seq<Table>, store: map<Table, TableData>)
    requires forall t :: t in tables ==> t in store
    ensures |tables| < 2 ==> KeptTo(tables, store, |tables|) == Kept(tables, store)
    ensures |tables| >= 1 ==> KeptTo(tables, store, 1) == Kept([tables[0]], store)
  {
    assert KeptTo(tables, store, 0) == Kept([], store);
    assert |tables| == 1 ==> tables == [tables[0]];
  }

  lemma KeptStep(tables: seq<Table>, store: map<Table, TableData>, k: nat)
    requires k < |tables| && forall t :: t in tables ==> t in store
    ensures KeptTo(tables, store, k + 1) == KeepNext(KeptTo(tables, store, k), tables[k])
  {
  }

  ghost function Contents(s: Kept): (ds: seq<TableData>)
    requires forall t :: t in s.out ==> t in s.store
  {
    seq(|s.out|, i requires 0 <= i < |s.out| => s.store[s.out[i]])
  }

  /** The kept tables are distinct, and those still to come are not among them and as they were. */
  ghost predicate Apart(tables: seq<Table>, store: map<Table, TableData>, s: Kept, k: nat)
    requires forall t :: t in tables ==> t in store && t in s.store
  {
    Distinct(s.out) && forall j :: k <= j < |tables| ==> tables[j] !in s.out && s.store[tables[j]] == store[tables[j]]
  }

  lemma ApartNext(tables: seq<Table>, store: map<Table, TableData>, s: Kept, k: nat)
    requires Distinct(tables) && k < |tables| && (forall t :: t in tables ==> t in store && t in s.store)
    requires (forall t :: t in s.out ==> t in s.store) && Apart(tables, store, s, k)
    ensures forall t :: t in tables ==> t in KeepNext(s, tables[k]).store
    ensures Apart(tables, store, KeepNext(s, tables[k]), k + 1)
  {
    hide Continues, Absorb;
  }

  lemma KeepNextContents(s: Kept, t: Table)
    requires t in s.store && (forall x :: x in s.out ==> x in s.store) && Distinct(s.out) && t !in s.out
    ensures forall x :: x in KeepNext(s, t).out ==> x in KeepNext(s, t).store
    ensures Contents(KeepNext(s, t)) == Extend(Contents(s), s.store[t])
  {
    hide Continues, Absorb;
  }

  /** When no table is in the list twice, the kept tables hold what the merge of their contents gives. */
  lemma {:induction false} KeptHoldsContinued(
    tables: seq<Table>, store: map<Table, TableData>, ds: seq<TableData>, k: nat)
    requires Distinct(tables) && |ds| == |tables| && k <= |tables|
    requires forall t :: t in tables ==> t in store
    requires forall i :: 0 <= i < |tables| ==> store[tables[i]] == ds[i]
    ensures Apart(tables, store, KeptTo(tables, store, k), k)
    ensures Contents(KeptTo(tables, store, k)) == ContinuedTo(ds, k)
  {
    hide KeptTo, Apart, KeepNext, Contents, Distinct, Extend;
    if k == 0 {
      NothingKept(tables, store);
    } else {
      KeptHoldsContinued(tables, store, ds, k - 1);
      KeptStep(tables, store, k - 1);
      var s := KeptTo(tables, store, k - 1);
      ApartNext(tables, store, s, k - 1);
      ApartContents(tables, store, s, k - 1);
      assert store[tables[k - 1]] == ds[k - 1];
    }
  }

  lemma NothingKept(tables: seq<Table>, store: map<Table, TableData>)
    requires forall t :: t in tables ==> t in store
    ensures Apart(tables, store, KeptTo(tables, store, 0), 0) && Contents(KeptTo(tables, store, 0)) == []
  {
  }

  lemma ApartContents(tables: seq<Table>, store: map<Table, TableData>, s: Kept, k: nat)
    requires k < |tables| && (forall t :: t in tables ==> t in store && t in s.store)
    requires (forall t :: t in s.out ==> t in s.store) && Apart(tables, store, s, k)
    ensures forall x :: x in KeepNext(s, tables[k]).out ==> x in KeepNext(s, tables[k]).store
    ensures Contents(KeepNext(s, tables[k])) == Extend(Contents(s), store[tables[k]])
  {
    assert tables[k] !in s.out && s.store[tables[k]] == store[tables[k]];
    KeepNextContents(s, tables[k]);
  }

  /** Merges `table` into the last of `merged`, in place, or adds it. */
  method MergeNext(tables: seq<Table>, merged: seq<Table>, table: Table) returns (merged': seq<Table>)
    requires table in tables && merged != [] && forall t :: t in merged ==> t in tables
    modifies Last(merged)
    ensures Kept(merged', StoreOf(tables)) == KeepNext(Kept(merged, old(StoreOf(tables))), table) && merged' != []
  {
    var prev := Last(merged);
    assert prev in merged;
    if Continues(prev.Data(), table.Data()) {
      prev.TakeOver(table);
      merged' := merged;
    } else {
      merged' := merged + [table];
    }
  }

  /** The loop, whatever objects the list repeats. */
  method MergeAll(tables: seq<Table>) returns (merged: seq<Table>)
    modifies tables
    ensures Kept(merged, StoreOf(tables)) == KeptTo(tables, old(StoreOf(tables)), |tables|)
  {
    hide KeptTo, KeepNext, StoreOf;
    ghost var store := StoreOf(tables);
    KeptStart(tables, store);
    if |tables| < 2 {
      return tables;
    }
    merged := [tables[0]];
    for i := 1 to |tables|
      invariant merged != [] && Kept(merged, StoreOf(tables)) == KeptTo(tables, store, i)
    {
      ghost var s := KeptTo(tables, store, i);
      assert merged == s.out;
      assert Last(merged) in merged;
      KeptStep(tables, store, i);
      merged := MergeNext(tables, merged, tables[i]);
    }
  }

  /**
   * Rewrites the rows and page range of the tables it keeps. For any list the result is the fold over what the
   * objects hold; when no object is in the list twice, it holds the merge of the tables' contents.
   */
  method MergeContinuationTables(tables: seq<Table>) returns (merged: seq<Table>)
    modifies tables
    ensures Kept(merged, StoreOf(tables)) == KeptTo(tables, old(StoreOf(tables)), |tables|)
    ensures forall t :: t in merged ==> t in tables
    ensures Distinct(tables) ==> Distinct(merged) && DataOf(merged) == Continued(old(DataOf(tables)))
  {
    ghost var store, ds := StoreOf(tables), DataOf(tables);
    merged := MergeAll(tables);
    ghost var s := KeptTo(tables, store, |tables|);
    assert s.out == merged && s.store == StoreOf(tables);
    if Distinct(tables) {
      KeptHoldsContinued(tables, store, ds, |tables|);
      assert Distinct(s.out);
      ContentsAreData(tables, merged);
    }
  }

  lemma ContentsAreData(tables: seq<Table>, merged: seq<Table>)
    requires forall t :: t in merged ==> t in tables
    ensures forall t :: t in merged ==> t in StoreOf(tables)
    ensures Contents(Kept(merged, StoreOf(tables))) == DataOf(merged)
  {
  }

  /** The look-ahead from table `i`: joins the run that follows it and notes which tables to skip. */
  method StitchFrom(tables: seq<Table>, i: nat, skip: set<nat>) returns (current: Table, skip': set<nat>)
    requires i < |tables|
    ensures var ds := old(DataOf(tables));
            && current.Data() == StitchRun(ds[i], ds, i + 1)
            && forall j :: j in skip' <==> j in skip || i < j < RunEnd(ds[i], ds, i + 1)
    ensures current == tables[i] || fresh(current)
  {
    ghost var ds := DataOf(tables);
    current, skip' := tables[i], skip;
    var j: nat := i + 1;
    while j < |tables|
      invariant i < j <= |tables|
      invariant current == tables[i] || fresh(current)
      invariant StitchRun(ds[i], ds, i + 1) == StitchRun(current.Data(), ds, j)
      invariant RunEnd(ds[i], ds, i + 1) == RunEnd(current.Data(), ds, j)
      invariant forall k :: k in skip' <==> k in skip || i < k < j
    {
      assert tables[j].Data() == ds[j];
      if !Adjoins(current.Data(), tables[j].Data()) {
        return;
      }
      current := new Table(Joined(current.Data(), tables[j].Data()));
      skip' := skip' + {j};
      j := j + 1;
    }
  }

  lemma StitchEnds(ds: seq<TableData>)
    ensures StitchedFrom(ds, |ds|) == [] && [] + StitchedFrom(ds, 0) == Stitched(ds)
    ensures |ds| <= 1 ==> Stitched(ds) == ds
  {
    if |ds| == 1 {
      assert StitchedFrom(ds, 1) == [];
    }
  }

  lemma StitchOn(out: seq<TableData>, ds: seq<TableData>, i: nat)
    requires i < |ds|
    ensures out + StitchedFrom(ds, i)
         == out + [StitchRun(ds[i], ds, i + 1)] + StitchedFrom(ds, RunEnd(ds[i], ds, i + 1))
  {
    ConcatAssociates(out, [StitchRun(ds[i], ds, i + 1)], StitchedFrom(ds, RunEnd(ds[i], ds, i + 1)));
  }

  /** The tables still to come are not among those handed out. */
  predicate Unused(tables: seq<Table>, i: nat, stitched: seq<Table>) {
    forall j :: i <= j < |tables| ==> tables[j] !in stitched
  }

  lemma UnusedAfter(tables: seq<Table>, stitched: seq<Table>, i: nat)
    ensures Unused(tables, i, stitched) ==> Unused(tables, i + 1, stitched)
    ensures Distinct([]) && Unused(tables, i, [])
  {
  }

  lemma AddedStaysDistinct(tables: seq<Table>, stitched: seq<Table>, i: nat, t: Table)
    requires i < |tables| && Distinct(tables) && Distinct(stitched) && Unused(tables, i, stitched)
    requires t == tables[i] || (t !in tables && t !in stitched)
    ensures Distinct(stitched + [t]) && Unused(tables, i + 1, stitched + [t])
  {
  }

  /** Builds new tables for the runs it joins and leaves the given ones untouched. */
  method StitchMultiPageTables(tables: seq<Table>) returns (stitched: seq<Table>)
    ensures DataOf(stitched) == Stitched(old(DataOf(tables)))
    ensures forall k :: 0 <= k < |stitched| ==> stitched[k] in tables || fresh(stitched[k])
    ensures Distinct(tables) ==> Distinct(stitched)
  {
    ghost var ds := DataOf(tables);
    StitchEnds(ds);
    if |tables| <= 1 {
      return tables;
    }
    hide StitchRun, RunEnd, StitchedFrom, DataOf, Distinct, Unused;
    stitched := [];
    var skip: set<nat> := {};
    ghost var resume: nat := 0;
    UnusedAfter(tables, stitched, 0);
    for i := 0 to |tables|
      invariant i <= resume <= |tables|
      invariant forall j :: i <= j < |tables| ==> (j in skip <==> j < resume)
      invariant DataOf(tables) == ds
      invariant Stitched(ds) == DataOf(stitched) + StitchedFrom(ds, resume)
      invariant forall k :: 0 <= k < |stitched| ==> stitched[k] in tables || fresh(stitched[k])
      invariant Distinct(tables) ==> Distinct(stitched) && Unused(tables, i, stitched)
    {
      UnusedAfter(tables, stitched, i);
      if i in skip {
        continue;
      }
      var current: Table;
      current, skip := StitchFrom(tables, i, skip);
      resume := RunEnd(ds[i], ds, i + 1);
      StitchOn(DataOf(stitched), ds, i);
      DataSnoc(stitched, current);
      if Distinct(tables) {
        AddedStaysDistinct(tables, stitched, i, current);
      }
      stitched := stitched + [current];
    }
  }

  /** Both passes together. */
  lemma TablePath(ts: seq<TableData>)
    ensures RowsOf(Continued(Stitched(ts))) == RowsOf(ts)
    ensures Settled(Continued(Stitched(ts)))
  {
    StitchingConservesRows(ts);
    ContinuationConservesRows(Stitched(ts));
    ContinuationSettles(Stitched(ts));
  }

  /**
   * The assembler's table path: stitch, then merge continuations. For any list the tables in between hold what
   * stitching gives, and the result is the fold over what they hold. When no object is in the list twice, the
   * document's row sequence is what it was, and no table left continues the one before it.
   */
  method AssembleTables(tables: seq<Table>)
    returns (out: seq<Table>, ghost between: seq<Table>, ghost store: map<Table, TableData>)
    modifies tables
    ensures store.Keys == set t | t in between
    ensures Contents(Kept(between, store)) == Stitched(old(DataOf(tables)))
    ensures Kept(out, StoreOf(between)) == KeptTo(between, store, |between|)
    ensures Distinct(tables) ==>
              && DataOf(out) == Continued(Stitched(old(DataOf(tables))))
              && RowsOf(DataOf(out)) == old(RowsOf(DataOf(tables)))
              && Settled(DataOf(out))
  {
    TablePath(DataOf(tables));
    var stitched := StitchMultiPageTables(tables);
    assert forall k :: 0 <= k < |stitched| ==> stitched[k] in stitched;
    between, store := stitched, StoreOf(stitched);
    ContentsAreData(stitched, stitched);
    out := MergeContinuationTables(stitched);
  }
}
