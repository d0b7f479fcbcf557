/** The whole-document LLM extraction: page windows, and merging the tables of all windows by their headers. */
module LlmExtractor {
  import opened Common
  import opened TableMerging
  import Text

  const WINDOW_SIZE := 3

  // ---- Page windows ----

  /** Pages are numbered from one; `end` is the last page of the window. */
  datatype Window = Window(start: int, end: int, text: string)

  /** The 0-based pages of a window, as a slice of the document. */
  function PagesIn(pages: seq<string>, w: Window): seq<string>
    requires 1 <= w.start <= w.end + 1 && w.end <= |pages|
  {
    pages[w.start - 1..w.end]
  }

  predicate Inside(w: Window, n: nat) {
    1 <= w.start <= w.end <= n && w.end - w.start < WINDOW_SIZE
  }

  /** The windows follow each other from page one to page `n` without gap or overlap. */
  ghost predicate Tiles(ws: seq<Window>, n: nat) {
    && (forall i :: 0 <= i < |ws| ==> Inside(ws[i], n))
    && (forall i :: 0 < i < |ws| ==> ws[i].start == ws[i - 1].end + 1)
    && (if ws == [] then n == 0 else ws[0].start == 1 && Last(ws).end == n)
  }

  /** The window holds the text of its pages. */
  ghost predicate Holds(pages: seq<string>, w: Window) {
    1 <= w.start <= w.end <= |pages| && w.text == Text.Join("\n\n", PagesIn(pages, w))
  }

  lemma TilesExtended(ws: seq<Window>, n: nat, w: Window)
    requires Tiles(ws, n) && w.start == n + 1 && n < w.end && w.end - w.start < WINDOW_SIZE
    ensures Tiles(ws + [w], w.end)
  {
    var after := ws + [w];
    assert forall i :: 0 <= i < |ws| ==> Inside(after[i], n);
    assert Last(after) == w;
  }

  method CreateWindows(pages: seq<string>) returns (ws: seq<Window>)
    ensures Tiles(ws, |pages|)
    ensures forall w :: w in ws ==> Holds(pages, w)
    ensures forall i :: 0 <= i < |ws| - 1 ==> ws[i].end - ws[i].start + 1 == 3
  {
    ws := [];
    var i: nat := 0;
    while i < |pages|
      invariant Tiles(ws, Min(i, |pages|))
      invariant forall w :: w in ws ==> Holds(pages, w)
      invariant forall k :: 0 <= k < |ws| && (i < |pages| || k < |ws| - 1) ==>
                  ws[k].end - ws[k].start == WINDOW_SIZE - 1
    {
      var end := Min(i + WINDOW_SIZE, |pages|);
      var w := Window(i + 1, end, Text.Join("\n\n", pages[i..end]));
      TilesExtended(ws, i, w);
      ws := ws + [w];
      i := i + WINDOW_SIZE;
    }
  }

  lemma {:induction false} TilesInOrder(ws: seq<Window>, n: nat, i: nat, j: nat)
    requires Tiles(ws, n) && i < j < |ws|
    ensures ws[i].end < ws[j].start
  {
    if i < j - 1 {
      TilesInOrder(ws, n, i, j - 1);
      assert Inside(ws[j - 1], n);
    }
  }

  lemma {:induction false} TilesReach(ws: seq<Window>, n: nat, page: int, i: nat) returns (at: nat)
    requires Tiles(ws, n) && i < |ws| && 1 <= page <= ws[i].end
    ensures at <= i && ws[at].start <= page <= ws[at].end
  {
    if ws[i].start <= page || i == 0 {
      at := i;
    } else {
      at := TilesReach(ws, n, page, i - 1);
    }
  }

  /** Every page is in exactly one window. */
  lemma WindowsPartitionPages(ws: seq<Window>, n: nat, page: int)
    requires Tiles(ws, n) && 1 <= page <= n
    ensures exists i :: 0 <= i < |ws| && ws[i].start <= page <= ws[i].end
                     && forall j :: 0 <= j < |ws| && ws[j].start <= page <= ws[j].end ==> j == i
  {
    var at := TilesReach(ws, n, page, |ws| - 1);
    forall j | 0 <= j < |ws| && ws[j].start <= page <= ws[j].end
      ensures j == at
    {
      if j < at {
        TilesInOrder(ws, n, j, at);
      } else if at < j {
        TilesInOrder(ws, n, at, j);
      }
    }
  }

  // ---- Collecting the tables of all windows ----

  /** A window either failed or answered; an entry of its table list that is not an object is None. */
  datatype WindowResult = Failed | Answered(start: int, end: int, tables: seq<Option<TableData>>)

  function PagesBetween(start: int, end: int): (pages: set<int>)
    ensures forall p :: p in pages <==> start <= p <= end
    decreases end - start
  {
    if start > end then {} else {start} + PagesBetween(start + 1, end)
  }

  function Paged(t: TableData, start: int, end: int): TableData {
    t.(pageRange := Some(PagesBetween(start, end)))
  }

  function TablesUpTo(r: WindowResult, k: nat): seq<TableData>
    requires r.Answered? && k <= |r.tables|
  {
    if k == 0 then []
    else TablesUpTo(r, k - 1)
         + if r.tables[k - 1].Some? then [Paged(r.tables[k - 1].value, r.start, r.end)] else []
  }

  function TablesIn(r: WindowResult): seq<TableData> {
    if r.Failed? then [] else TablesUpTo(r, |r.tables|)
  }

  function AllTables(results: seq<WindowResult>): seq<TableData> {
    if results == [] then [] else AllTables(Init(results)) + TablesIn(Last(results))
  }

  method CollectTables(results: seq<WindowResult>) returns (all: seq<TableData>)
    ensures all == AllTables(results)
  {
    all := [];
    for i := 0 to |results|
      invariant all == AllTables(results[..i])
    {
      var r := results[i];
      assert Init(results[..i + 1]) == results[..i];
      if r.Answered? {
        ghost var before := all;
        for k := 0 to |r.tables|
          invariant all == before + TablesUpTo(r, k)
        {
          if r.tables[k].Some? {
            all := all + [Paged(r.tables[k].value, r.start, r.end)];
          }
        }
      }
    }
    assert results[..|results|] == results;
  }

  lemma TablesSnoc(start: int, end: int, tables: seq<Option<TableData>>, t: Option<TableData>)
    ensures TablesIn(Answered(start, end, tables + [t]))
         == TablesIn(Answered(start, end, tables)) + if t.Some? then [Paged(t.value, start, end)] else []
  {
    TablesPrefix(Answered(start, end, tables + [t]), Answered(start, end, tables), |tables|);
  }

  lemma {:induction false} TablesPrefix(r: WindowResult, s: WindowResult, k: nat)
    requires r.Answered? && s.Answered? && r.start == s.start && r.end == s.end
    requires k <= |s.tables| && s.tables <= r.tables
    ensures TablesUpTo(r, k) == TablesUpTo(s, k)
  {
    if k > 0 {
      TablesPrefix(r, s, k - 1);
    }
  }

  /**
   * What a window brings: each of its tables that is an object, in order, with its rows and headers, on exactly the
   * pages of the window. A failed window brings nothing, and the windows' tables follow each other.
   */
  lemma CollectedMeaning(results: seq<WindowResult>, start: int, end: int, tables: seq<Option<TableData>>, t: TableData)
    ensures AllTables([]) == [] && AllTables(results + [Failed]) == AllTables(results)
    ensures TablesIn(Answered(start, end, [])) == []
    ensures TablesIn(Answered(start, end, tables + [None])) == TablesIn(Answered(start, end, tables))
    ensures var all := TablesIn(Answered(start, end, tables + [Some(t)]));
      && |all| == |TablesIn(Answered(start, end, tables))| + 1 && TablesIn(Answered(start, end, tables)) <= all
      && Last(all).rows == t.rows && Last(all).headers == t.headers && Last(all).pageRange.Some?
      && (forall p :: p in Last(all).pageRange.value <==> start <= p <= end)
    ensures AllTables(results + [Answered(start, end, tables)])
         == AllTables(results) + TablesIn(Answered(start, end, tables))
  {
    assert Init(results + [Failed]) == results && Init(results + [Answered(start, end, tables)]) == results;
    assert AllTables(results) + [] == AllTables(results);
    TablesSnoc(start, end, tables, None);
    TablesSnoc(start, end, tables, Some(t));
  }

  // ---- Merging by header ----

  /** The same normalised header, and not an empty one. */
  predicate SameHeader(existing: TableData, t: TableData) {
    Norm(existing.headers) == Norm(t.headers) && Norm(t.headers) != []
  }

  /** The first table from index `k` on with the same header; one past the end when there is none. */
  function SlotFrom(out: seq<TableData>, t: TableData, k: nat): (slot: nat)
    requires k <= |out|
    ensures k <= slot <= |out|
    ensures slot < |out| ==> SameHeader(out[slot], t)
    ensures forall j :: k <= j < slot ==> !SameHeader(out[j], t)
    decreases |out| - k
  {
    if k == |out| || SameHeader(out[k], t) then k else SlotFrom(out, t, k + 1)
  }

  function Place(out: seq<TableData>, t: TableData): seq<TableData> {
    var slot := SlotFrom(out, t, 0);
    if slot < |out| then out[slot := Absorb(out[slot], t)] else out + [t]
  }

  function Placed(ts: seq<TableData>): seq<TableData> {
    if ts == [] then [] else Place(Placed(Init(ts)), Last(ts))
  }

  /** No two tables share a non-empty normalised header. */
  predicate HeadersDistinct(ts: seq<TableData>) {
    forall i, j :: 0 <= i < j < |ts| ==> !SameHeader(ts[i], ts[j])
  }

  /** The rows of the tables with the given normalised header, in order. */
  function RowsUnder(ts: seq<TableData>, header: seq<string>): seq<Row> {
    if ts == [] then []
    else RowsUnder(Init(ts), header) + RowsIf(Last(ts), header)
  }

  lemma PlaceKeepsDistinct(out: seq<TableData>, t: TableData)
    requires HeadersDistinct(out)
    ensures HeadersDistinct(Place(out, t))
  {
    var after := Place(out, t);
    forall i, j | 0 <= i < j < |after| ensures !SameHeader(after[i], after[j]) {
      if j < |out| {
        assert after[i].headers == out[i].headers && after[j].headers == out[j].headers;
        assert !SameHeader(out[i], out[j]);
      }
    }
  }

  /** A table's own rows, when it has the given header. */
  function RowsIf(t: TableData, header: seq<string>): seq<Row> {
    if Norm(t.headers) == header then t.rows else []
  }

  lemma AbsorbRowsIf(existing: TableData, t: TableData, header: seq<string>)
    requires SameHeader(existing, t)
    ensures RowsIf(Absorb(existing, t), header) == RowsIf(existing, header) + RowsIf(t, header)
  {
  }

  lemma RowsUnderLast(out: seq<TableData>, header: seq<string>)
    requires out != []
    ensures RowsUnder(out, header) == RowsUnder(Init(out), header) + RowsIf(Last(out), header)
  {
  }

  lemma OneHeaderOnly(first: TableData, t: TableData, other: TableData, header: seq<string>)
    requires SameHeader(first, t) && !SameHeader(first, other)
    ensures RowsIf(t, header) == [] || RowsIf(other, header) == []
  {
  }

  lemma OneIsEmpty<T>(before: seq<T>, a: seq<T>, b: seq<T>)
    requires a == [] || b == []
    ensures before + a + b == before + b + a
  {
  }

  lemma {:induction false} UpdateRowsUnder(out: seq<TableData>, i: nat, t: TableData, header: seq<string>)
    requires i < |out| && SameHeader(out[i], t)
    requires forall j :: i < j < |out| ==> !SameHeader(out[i], out[j])
    ensures RowsUnder(out[i := Absorb(out[i], t)], header) == RowsUnder(out, header) + RowsIf(t, header)
  {
    var after := out[i := Absorb(out[i], t)];
    RowsUnderLast(out, header);
    RowsUnderLast(after, header);
    hide RowsUnder, RowsIf, Absorb;
    if i == |out| - 1 {
      assert Init(after) == Init(out) && Last(after) == Absorb(Last(out), t);
      AbsorbRowsIf(Last(out), t, header);
      ConcatAssociates(RowsUnder(Init(out), header), RowsIf(Last(out), header), RowsIf(t, header));
    } else {
      assert Init(after) == Init(out)[i := Absorb(out[i], t)] && Last(after) == Last(out);
      UpdateRowsUnder(Init(out), i, t, header);
      OneHeaderOnly(out[i], t, Last(out), header);
      OneIsEmpty(RowsUnder(Init(out), header), RowsIf(t, header), RowsIf(Last(out), header));
    }
  }

  lemma PlaceRowsUnder(out: seq<TableData>, t: TableData, header: seq<string>)
    requires HeadersDistinct(out)
    ensures RowsUnder(Place(out, t), header) == RowsUnder(out, header) + RowsIf(t, header)
  {
    var slot := SlotFrom(out, t, 0);
    if slot < |out| {
      UpdateRowsUnder(out, slot, t, header);
    } else {
      assert Init(out + [t]) == out;
    }
  }

  lemma RowBagLast(out: seq<TableData>)
    requires out != []
    ensures multiset(RowsOf(out)) == multiset(RowsOf(Init(out))) + multiset(Last(out).rows)
  {
  }

  lemma {:induction false} UpdateRowBag(out: seq<TableData>, i: nat, t: TableData)
    requires i < |out|
    ensures multiset(RowsOf(out[i := Absorb(out[i], t)])) == multiset(RowsOf(out)) + multiset(t.rows)
  {
    var after := out[i := Absorb(out[i], t)];
    RowBagLast(out);
    RowBagLast(after);
    hide RowsOf;
    if i == |out| - 1 {
      assert Init(after) == Init(out);
      BagsAssociate(multiset(RowsOf(Init(out))), out[i].rows, t.rows);
    } else {
      assert Init(after) == Init(out)[i := Absorb(out[i], t)];
      UpdateRowBag(Init(out), i, t);
      BagsCommute(multiset(RowsOf(Init(out))), multiset(t.rows), multiset(Last(out).rows));
    }
  }

  lemma PlaceRowBag(out: seq<TableData>, t: TableData)
    ensures multiset(RowsOf(Place(out, t))) == multiset(RowsOf(out)) + multiset(t.rows)
  {
    var slot := SlotFrom(out, t, 0);
    if slot < |out| {
      UpdateRowBag(out, slot, t);
    } else {
      RowsSnoc(out, t);
    }
  }

  /** Rows with one header stay together and in order; headers end up distinct; no row is lost or repeated. */
  lemma {:induction false} HeaderMergeConservesRows(ts: seq<TableData>)
    ensures HeadersDistinct(Placed(ts))
    ensures forall h :: RowsUnder(Placed(ts), h) == RowsUnder(ts, h)
    ensures multiset(RowsOf(Placed(ts))) == multiset(RowsOf(ts))
  {
    if ts != [] {
      HeaderMergeConservesRows(Init(ts));
      PlaceKeepsDistinct(Placed(Init(ts)), Last(ts));
      PlaceRowBag(Placed(Init(ts)), Last(ts));
      forall h ensures RowsUnder(Placed(ts), h) == RowsUnder(ts, h) {
        PlaceRowsUnder(Placed(Init(ts)), Last(ts), h);
      }
    }
  }

  /**
   * Where a table goes: to the first that has its header, which keeps its place and takes its rows and pages; with a
   * new header, or none, to the end.
   */
  lemma PlaceMeaning(ts: seq<TableData>, t: TableData)
    ensures Placed([]) == []
    ensures var before, after := Placed(ts), Placed(ts + [t]);
      && (forall i :: 0 <= i < |before| ==> i < |after| && after[i].headers == before[i].headers)
      && (if Norm(t.headers) != [] && exists e :: e in before && Norm(e.headers) == Norm(t.headers)
          then && |after| == |before|
               && exists i :: 0 <= i < |before| && Norm(before[i].headers) == Norm(t.headers)
                    && (forall j :: 0 <= j < i ==> Norm(before[j].headers) != Norm(t.headers))
                    && after[i] == Absorb(before[i], t)
                    && (forall j :: 0 <= j < |before| && j != i ==> after[j] == before[j])
          else after == before + [t])
  {
    assert Init(ts + [t]) == ts;
    var before := Placed(ts);
    var slot := SlotFrom(before, t, 0);
    hide Norm, Placed, Absorb;
    if slot < |before| {
      assert before[slot] in before;
    } else {
      forall e | e in before ensures !(Norm(t.headers) != [] && Norm(e.headers) == Norm(t.headers)) {
        var i :| 0 <= i < |before| && before[i] == e;
        assert !SameHeader(before[i], t);
      }
    }
  }

  // ---- The continuation pass that follows ----

  /** Two neighbours with nothing but empty header cells, the second one with at least one cell. */
  predicate BlankPair(prev: TableData, curr: TableData) {
    Norm(prev.headers) == [] && Norm(curr.headers) == [] && curr.headers != []
  }

  /** After the header merge the continuation pass changes nothing, except exactly on such neighbours. */
  lemma ContinuationIsNoOpIff(ts: seq<TableData>)
    ensures var out := Placed(ts);
            Continued(out) == out <==> forall i :: 0 < i < |out| ==> !BlankPair(out[i - 1], out[i])
  {
    var out := Placed(ts);
    HeaderMergeConservesRows(ts);
    ContinuationIsIdempotent(out);
    forall i | 0 < i < |out|
      ensures Continues(out[i - 1], out[i]) <==> BlankPair(out[i - 1], out[i])
    {
      assert !SameHeader(out[i - 1], out[i]);
    }
  }

  /** The tables whose header is not empty. */
  function Named(ts: seq<TableData>): seq<TableData> {
    if ts == [] then [] else Named(Init(ts)) + if Norm(Last(ts).headers) != [] then [Last(ts)] else []
  }

  lemma NamedSnoc(ts: seq<TableData>, t: TableData)
    ensures Named(ts + [t]) == Named(ts) + if Norm(t.headers) != [] then [t] else []
  {
    assert Init(ts + [t]) == ts;
  }

  lemma {:induction false} ContinuedToKeepsNamed(ts: seq<TableData>, k: nat)
    requires HeadersDistinct(ts) && k <= |ts|
    ensures Named(ContinuedTo(ts, k)) == Named(ts[..k])
    ensures k > 0 ==> ContinuedTo(ts, k) != [] && Norm(Last(ContinuedTo(ts, k)).headers) == Norm(ts[k - 1].headers)
  {
    if k > 0 {
      ContinuedToKeepsNamed(ts, k - 1);
      var out, t := ContinuedTo(ts, k - 1), ts[k - 1];
      PrefixSnoc(ts, k - 1);
      NamedSnoc(ts[..k - 1], t);
      NamedSnoc(out, t);
      if out != [] && Continues(Last(out), t) {
        assert k > 1 ==> !SameHeader(ts[k - 2], t);
        NamedSnoc(Init(out), Absorb(Last(out), t));
      }
    }
  }

  /** In any case it leaves every table with a non-empty header exactly as it was. */
  lemma ContinuationKeepsNamed(ts: seq<TableData>)
    ensures Named(Continued(Placed(ts))) == Named(Placed(ts))
  {
    HeaderMergeConservesRows(ts);
    ContinuedToKeepsNamed(Placed(ts), |Placed(ts)|);
    assert Placed(ts)[..|Placed(ts)|] == Placed(ts);
  }

  /** The exception does occur: two tables with one empty header cell each are fused into one. */
  lemma BlankHeadersAreFused(first: seq<Row>, second: seq<Row>)
    ensures var a := TableData([Some("")], first, Missing, None, false);
            var b := TableData([Some("")], second, Missing, None, false);
            Placed([a, b]) == [a, b] && |Continued([a, b])| == 1
  {
    var a := TableData([Some("")], first, Missing, None, false);
    var b := TableData([Some("")], second, Missing, None, false);
    assert Init([Some("")]) == [];
    assert Norm(a.headers) == [];
    assert Init([a, b]) == [a] && Init([a]) == [];
    assert Placed([a]) == [a];
    assert ContinuedTo([a, b], 1) == [a];
  }

  // ---- The merge as the source runs it, on dictionaries updated in place ----

  method FindSlot(merged: seq<Table>, t: TableData) returns (slot: nat)
    ensures slot == SlotFrom(DataOf(merged), t, 0)
  {
    slot := 0;
    while slot < |merged|
      invariant slot <= |merged|
      invariant SlotFrom(DataOf(merged), t, 0) == SlotFrom(DataOf(merged), t, slot)
    {
      if SameHeader(merged[slot].Data(), t) {
        return;
      }
      slot := slot + 1;
    }
  }

  /** Merges one table into the first with its header, in place, or adds a copy of it. */
  method PlaceTable(merged: seq<Table>, t: TableData) returns (merged': seq<Table>)
    requires Distinct(merged)
    modifies merged
    ensures DataOf(merged') == Place(old(DataOf(merged)), t)
    ensures Distinct(merged')
    ensures forall k :: 0 <= k < |merged'| ==> merged'[k] in merged || fresh(merged'[k])
  {
    ghost var out := DataOf(merged);
    var slot := FindSlot(merged, t);
    var copy := new Table(t);
    if slot < |merged| {
      merged[slot].TakeOver(copy);
      assert DataOf(merged) == out[slot := Absorb(out[slot], t)];
      merged' := merged;
    } else {
      DataSnoc(merged, copy);
      merged' := merged + [copy];
    }
  }

  /** Every table of the result is a new object, so the windows' own tables keep their rows. */
  method MergeByHeader(tables: seq<TableData>) returns (merged: seq<Table>)
    ensures DataOf(merged) == Placed(tables)
    ensures Distinct(merged) && forall k :: 0 <= k < |merged| ==> fresh(merged[k])
  {
    merged := [];
    for i := 0 to |tables|
      invariant Distinct(merged) && forall k :: 0 <= k < |merged| ==> fresh(merged[k])
      invariant DataOf(merged) == Placed(tables[..i])
    {
      assert Init(tables[..i + 1]) == tables[..i];
      assert forall t :: t in merged ==> fresh(t);
      merged := PlaceTable(merged, tables[i]);
    }
    assert tables[..|tables|] == tables;
  }

  /** From the windows' answers to the document's tables. */
  method ExtractTables(results: seq<WindowResult>) returns (out: seq<Table>)
    ensures DataOf(out) == Continued(Placed(AllTables(results)))
    ensures multiset(RowsOf(DataOf(out))) == multiset(RowsOf(AllTables(results)))
    ensures Named(DataOf(out)) == Named(Placed(AllTables(results)))
    ensures Settled(DataOf(out))
  {
    var all := CollectTables(results);
    var merged := MergeByHeader(all);
    assert forall t :: t in merged ==> fresh(t);
    out := MergeContinuationTables(merged);
    HeaderMergeConservesRows(all);
    ContinuationConservesRows(Placed(all));
    ContinuationSettles(Placed(all));
    ContinuationKeepsNamed(all);
  }
}
