/** Overlapping page windows and the deduplicating merge of what each window yields. */
module ChunkedExtractor {
  import opened Common

  /** A page range, one-based and inclusive. */
  datatype Window = Window(start: int, end: int)

  function Stride(size: int, overlap: int): (step: int)
    ensures step >= 1
  {
    if size - overlap <= 0 then 1 else size - overlap
  }

  /** The windows from zero-based page `start` on. */
  function WindowsFrom(total: nat, size: int, overlap: int, start: nat): seq<Window>
    decreases total - start
  {
    if start >= total then []
    else
      var end := Min(start + size - 1, total - 1);
      [Window(start + 1, end + 1)]
      + if end >= total - 1 then [] else WindowsFrom(total, size, overlap, start + Stride(size, overlap))
  }

  lemma WindowsFromMeaning(total: nat, size: int, overlap: int, start: nat)
    ensures start >= total ==> WindowsFrom(total, size, overlap, start) == []
    ensures start < total ==>
              var end := Min(start + size - 1, total - 1);
              WindowsFrom(total, size, overlap, start)
              == [Window(start + 1, end + 1)]
                 + if end >= total - 1 then [] else WindowsFrom(total, size, overlap, start + Stride(size, overlap))
  {
  }

  method CreateSlidingWindows(total: nat, size: int, overlap: int) returns (windows: seq<Window>)
    ensures windows == WindowsFrom(total, size, overlap, 0)
  {
    hide WindowsFrom;
    windows := [];
    var step := size - overlap;
    if step <= 0 {
      step := 1;
    }
    var start: nat := 0;
    while start < total
      invariant WindowsFrom(total, size, overlap, 0) == windows + WindowsFrom(total, size, overlap, start)
      decreases total - start
    {
      var end := Min(start + size - 1, total - 1);
      ghost var rest := if end >= total - 1 then [] else WindowsFrom(total, size, overlap, start + step);
      WindowsFromMeaning(total, size, overlap, start);
      ConcatAssociates(windows, [Window(start + 1, end + 1)], rest);
      windows := windows + [Window(start + 1, end + 1)];
      if end >= total - 1 {
        return;
      }
      start := start + step;
    }
    WindowsFromMeaning(total, size, overlap, start);
  }

  predicate Covered(ws: seq<Window>, page: int) {
    exists i | 0 <= i < |ws| :: ws[i].start <= page <= ws[i].end
  }

  /** Windows that move down the document: neither end ever goes back, and each stays inside. */
  predicate Staircase(ws: seq<Window>, total: nat) {
    && (forall i :: 0 <= i < |ws| ==> 1 <= ws[i].start <= ws[i].end <= total)
    && (forall i, j :: 0 <= i < j < |ws| ==> ws[i].start <= ws[j].start && ws[i].end <= ws[j].end)
  }

  /**
   * Where the windows are: the first starts at the page after `start`, each at the stride after the one before; each
   * has the given size unless the document ends first, and none but the last reaches its end.
   */
  predicate StandFrom(ws: seq<Window>, total: nat, size: int, overlap: int, start: nat) {
    && (ws != [] ==> ws[0].start == start + 1)
    && (forall i :: 0 <= i < |ws| ==> ws[i].end == Min(ws[i].start + size - 1, total))
    && (forall i :: 0 < i < |ws| ==> Follows(ws[i - 1], ws[i], total, size, overlap))
  }

  predicate Follows(prior: Window, w: Window, total: nat, size: int, overlap: int) {
    w.start == prior.start + (if overlap < size then size - overlap else 1) && prior.end < total
  }

  lemma StandCons(w: Window, ws: seq<Window>, total: nat, size: int, overlap: int, start: nat)
    requires StandFrom(ws, total, size, overlap, start + if overlap < size then size - overlap else 1)
    requires w == Window(start + 1, start + size) && start + size < total
    ensures StandFrom([w] + ws, total, size, overlap, start)
  {
    var all := [w] + ws;
    forall i | 0 < i < |all| ensures Follows(all[i - 1], all[i], total, size, overlap) {
      assert all[i] == ws[i - 1] && (i > 1 ==> all[i - 1] == ws[i - 2]);
    }
  }

  /** The windows are those, and with an overlap that is not negative the last one reaches the end of the document. */
  lemma {:induction false} WindowsStandFrom(total: nat, size: int, overlap: int, start: nat)
    requires size >= 1
    ensures StandFrom(WindowsFrom(total, size, overlap, start), total, size, overlap, start)
    ensures WindowsFrom(total, size, overlap, start) == [] <==> start >= total
    ensures overlap >= 0 && start < total ==> Last(WindowsFrom(total, size, overlap, start)).end == total
    decreases total - start
  {
    hide WindowsFrom;
    WindowsFromMeaning(total, size, overlap, start);
    if start + size < total {
      hide StandFrom;
      var next := start + Stride(size, overlap);
      WindowsStandFrom(total, size, overlap, next);
      StandCons(Window(start + 1, start + size), WindowsFrom(total, size, overlap, next), total, size, overlap, start);
    }
  }

  lemma StaircaseCons(w: Window, ws: seq<Window>, total: nat)
    requires Staircase(ws, total) && 1 <= w.start <= w.end <= total
    requires forall i :: 0 <= i < |ws| ==> w.start <= ws[i].start && w.end <= ws[i].end
    ensures Staircase([w] + ws, total)
  {
  }

  lemma {:induction false} WindowsAreStaircase(total: nat, size: int, overlap: int, start: nat)
    requires size >= 1
    ensures var ws := WindowsFrom(total, size, overlap, start);
            && Staircase(ws, total)
            && (forall i :: 0 <= i < |ws| ==> start + 1 <= ws[i].start && Min(start + size, total) <= ws[i].end)
    decreases total - start
  {
    if start < total && start + size < total {
      var rest := WindowsFrom(total, size, overlap, start + Stride(size, overlap));
      WindowsAreStaircase(total, size, overlap, start + Stride(size, overlap));
      assert WindowsFrom(total, size, overlap, start) == [Window(start + 1, start + size)] + rest;
      hide WindowsFrom;
      StaircaseCons(Window(start + 1, start + size), rest, total);
    }
  }

  lemma {:induction false} WindowsReachEveryPage(total: nat, size: int, overlap: int, start: nat, page: int)
    requires size >= 1 && overlap >= 0 && start < page <= total
    ensures Covered(WindowsFrom(total, size, overlap, start), page)
    decreases total - start
  {
    var ws := WindowsFrom(total, size, overlap, start);
    if page <= start + size {
      assert ws[0].start <= page <= ws[0].end;
    } else {
      var rest := WindowsFrom(total, size, overlap, start + Stride(size, overlap));
      assert ws == [ws[0]] + rest;
      WindowsReachEveryPage(total, size, overlap, start + Stride(size, overlap), page);
      var i :| 0 <= i < |rest| && rest[i].start <= page <= rest[i].end;
      assert ws[i + 1] == rest[i];
    }
  }

  lemma {:induction false} WindowStarts(total: nat, size: int, overlap: int, start: nat)
    ensures forall w :: w in WindowsFrom(total, size, overlap, start) ==>
              start + 1 <= w.start && w.end <= w.start + size - 1
    decreases total - start
  {
    hide WindowsFrom;
    WindowsFromMeaning(total, size, overlap, start);
    if start < total && Min(start + size - 1, total - 1) < total - 1 {
      WindowStarts(total, size, overlap, start + Stride(size, overlap));
    }
  }

  /** The windows cover a non-empty document exactly for a positive size and a non-negative overlap, or one window. */
  lemma CoverageIff(total: nat, size: int, overlap: int)
    requires total >= 1
    ensures (forall page :: 1 <= page <= total ==> Covered(WindowsFrom(total, size, overlap, 0), page))
            <==> size >= 1 && (overlap >= 0 || total <= size)
  {
    var ws := WindowsFrom(total, size, overlap, 0);
    if size >= 1 && overlap >= 0 {
      forall page | 1 <= page <= total ensures Covered(ws, page) {
        WindowsReachEveryPage(total, size, overlap, 0, page);
      }
    } else if size >= 1 && total <= size {
      assert ws[0] == Window(1, total);
    } else if size >= 1 {
      WindowStarts(total, size, overlap, Stride(size, overlap));
      assert ws == [Window(1, size)] + WindowsFrom(total, size, overlap, Stride(size, overlap));
      assert !Covered(ws, size + 1);
    } else {
      WindowStarts(total, size, overlap, 0);
      assert !Covered(ws, 1);
    }
  }

  // ---- Transactions ----

  datatype Amount = Number(value: real) | Unparsable

  datatype Txn = Txn(date: string, description: string, debit: Option<Amount>, credit: Option<Amount>,
                     balance: Option<Amount>)

  datatype Key = Key(date: string, description: string, amount: real)

  function Magnitude(a: Amount): real {
    match a
    case Number(v) => if v < 0.0 then -v else v
    case Unparsable => 0.0
  }

  function TransactionKey(t: Txn): Key {
    Key(t.date, t.description,
        if t.debit.Some? then Magnitude(t.debit.value)
        else if t.credit.Some? then Magnitude(t.credit.value) else 0.0)
  }

  predicate ZeroAmount(t: Txn) {
    TransactionKey(t).amount == 0.0
  }

  /** The keys of the non-zero transactions. */
  function Keys(ts: seq<Txn>): set<Key> {
    set t | t in ts && !ZeroAmount(t) :: TransactionKey(t)
  }

  /** Zero amounts are always kept; any other key is kept the first time only. */
  function Deduplicated(ts: seq<Txn>): seq<Txn> {
    if ts == [] then []
    else
      var t := Last(ts);
      Deduplicated(Init(ts)) + if ZeroAmount(t) || TransactionKey(t) !in Keys(Init(ts)) then [t] else []
  }

  // ---- When two transactions are the same ----

  predicate AbsoluteOf(v: Amount, a: real) {
    match v
    case Number(x) => a >= 0.0 && (a == x || a == -x)
    case Unparsable => a == 0.0
  }

  /** `a` is the absolute value of the debit, if there is one, and of the credit otherwise; zero without either. */
  predicate HasAmount(t: Txn, a: real) {
    if t.debit.Some? then AbsoluteOf(t.debit.value, a)
    else if t.credit.Some? then AbsoluteOf(t.credit.value, a)
    else a == 0.0
  }

  /** The same date, the same description and the same amount. */
  ghost predicate SameEntry(t: Txn, u: Txn) {
    t.date == u.date && t.description == u.description && exists a :: HasAmount(t, a) && HasAmount(u, a)
  }

  lemma KeysAgreeIff(t: Txn, u: Txn)
    ensures TransactionKey(t) == TransactionKey(u) <==> SameEntry(t, u)
    ensures ZeroAmount(t) <==> HasAmount(t, 0.0)
  {
    assert HasAmount(t, TransactionKey(t).amount) && HasAmount(u, TransactionKey(u).amount);
  }

  /** A transaction is dropped exactly when an earlier one is the same in all three and the amount is not zero. */
  lemma DroppedIff(ts: seq<Txn>, t: Txn)
    ensures Deduplicated([]) == []
    ensures Deduplicated(ts + [t])
         == if !HasAmount(t, 0.0) && (exists u :: u in ts && SameEntry(u, t)) then Deduplicated(ts)
            else Deduplicated(ts) + [t]
  {
    DeduplicatedSnoc(ts, t);
    forall u ensures TransactionKey(u) == TransactionKey(t) <==> SameEntry(u, t) {
      KeysAgreeIff(u, t);
    }
    KeysAgreeIff(t, t);
    hide SameEntry, HasAmount, Deduplicated;
    if TransactionKey(t) in Keys(ts) {
      var u :| u in ts && TransactionKey(u) == TransactionKey(t);
      assert SameEntry(u, t);
    } else if u :| u in ts && SameEntry(u, t) {
      assert TransactionKey(u) == TransactionKey(t);
    }
    assert Deduplicated(ts) + [] == Deduplicated(ts);
  }

  /** So one that differs from all before it, be it only in its description, is always kept. */
  lemma DifferentIsKept(ts: seq<Txn>, t: Txn)
    requires forall u :: u in ts ==>
               u.date != t.date || u.description != t.description || forall a :: HasAmount(t, a) ==> !HasAmount(u, a)
    ensures Deduplicated(ts + [t]) == Deduplicated(ts) + [t]
  {
    DroppedIff(ts, t);
  }

  /** One window's parsed result; a header value may be present and null. */
  datatype WindowResult = WindowResult(
    headers: map<string, Option<string>>, topLevel: map<string, Option<string>>, transactions: seq<Txn>)

  datatype MergedResult =
    | Nothing
    | Single(result: WindowResult)
    | Merged(headers: map<string, Option<string>>, transactions: seq<Txn>)

  function ClosingBalance(m: map<string, Option<string>>): Option<string> {
    if "closing_balance" in m then m["closing_balance"] else None
  }

  /** Headers come from the first window, except the closing balance, which the last window overrides. */
  function MergedHeaders(first: WindowResult, last: WindowResult): map<string, Option<string>> {
    var base := if first.headers != map[] then first.headers else first.topLevel;
    if ClosingBalance(last.headers).Some? then base["closing_balance" := ClosingBalance(last.headers)]
    else if ClosingBalance(last.topLevel).Some? then base["closing_balance" := ClosingBalance(last.topLevel)]
    else base
  }

  function AllTransactions(results: seq<WindowResult>): seq<Txn> {
    if results == [] then [] else AllTransactions(Init(results)) + Last(results).transactions
  }

  /** The transactions of the merged result: a single window's are handed back as they are. */
  function MergedTransactions(results: seq<WindowResult>): seq<Txn> {
    if |results| == 1 then results[0].transactions else Deduplicated(AllTransactions(results))
  }

  /** The inner loop: fold one window's transactions into what the windows before it left. */
  method MergeOne(ghost before: seq<Txn>, seen: set<Key>, kept: seq<Txn>, ts: seq<Txn>)
    returns (seen': set<Key>, kept': seq<Txn>)
    requires seen == Keys(before) && kept == Deduplicated(before)
    ensures seen' == Keys(before + ts) && kept' == Deduplicated(before + ts)
  {
    hide Keys, Deduplicated;
    seen', kept' := seen, kept;
    assert before + ts[..0] == before;
    for j := 0 to |ts|
      invariant seen' == Keys(before + ts[..j]) && kept' == Deduplicated(before + ts[..j])
    {
      ghost var done := before + ts[..j];
      assert before + ts[..j + 1] == done + [ts[j]];
      KeysSnoc(done, ts[j]);
      DeduplicatedSnoc(done, ts[j]);
      var key := TransactionKey(ts[j]);
      if key.amount == 0.0 {
        kept' := kept' + [ts[j]];
      } else if key !in seen' {
        seen' := seen' + {key};
        kept' := kept' + [ts[j]];
      }
    }
    assert ts[..|ts|] == ts;
  }

  lemma KeysSnoc(ts: seq<Txn>, t: Txn)
    ensures Keys(ts + [t]) == Keys(ts) + if ZeroAmount(t) then {} else {TransactionKey(t)}
  {
    forall k ensures k in Keys(ts + [t]) <==> k in Keys(ts) || (!ZeroAmount(t) && k == TransactionKey(t)) {
    }
  }

  lemma DeduplicatedSnoc(ts: seq<Txn>, t: Txn)
    ensures Deduplicated(ts + [t])
         == Deduplicated(ts) + if ZeroAmount(t) || TransactionKey(t) !in Keys(ts) then [t] else []
  {
    assert Init(ts + [t]) == ts;
  }

  /** A coffee and a bus ticket of one day and price are two transactions. */
  lemma CoffeeAndBusTicket(headers: map<string, Option<string>>)
    ensures var coffee := Txn("2025-01-03", "Coffee", Some(Number(4.50)), None, None);
            var bus := Txn("2025-01-03", "Bus ticket", Some(Number(4.50)), None, None);
            MergedTransactions([WindowResult(headers, map[], [coffee]), WindowResult(headers, map[], [bus])])
            == [coffee, bus]
  {
    var coffee := Txn("2025-01-03", "Coffee", Some(Number(4.50)), None, None);
    var bus := Txn("2025-01-03", "Bus ticket", Some(Number(4.50)), None, None);
    var results := [WindowResult(headers, map[], [coffee]), WindowResult(headers, map[], [bus])];
    assert Init(Init(results)) == [];
    assert AllTransactions(Init(results)) == [] + [coffee] == [coffee];
    assert AllTransactions(results) == [coffee] + [bus];
    DifferentIsKept([], coffee);
    assert [] + [coffee] == [coffee];
    DifferentIsKept([coffee], bus);
  }

  // ---- Where the headers come from ----

  /**
   * Every header but the closing balance is the first result's; it has them in its header fields, or at top level
   * when it has no header fields. The closing balance is the last result's, from its header fields if one is there,
   * else from its top level, else it stays the first result's.
   */
  lemma HeadersFromFirst(first: WindowResult, last: WindowResult, field: string)
    ensures var base := if first.headers == map[] then first.topLevel else first.headers;
            var merged := MergedHeaders(first, last);
      && (field != "closing_balance" ==>
            (field in merged <==> field in base) && (field in base ==> merged[field] == base[field]))
      && (forall v :: "closing_balance" in last.headers && last.headers["closing_balance"] == Some(v) ==>
            "closing_balance" in merged && merged["closing_balance"] == Some(v))
      && (("closing_balance" in last.headers ==> last.headers["closing_balance"] == None) ==>
            (forall v :: "closing_balance" in last.topLevel && last.topLevel["closing_balance"] == Some(v) ==>
               "closing_balance" in merged && merged["closing_balance"] == Some(v))
            && (("closing_balance" in last.topLevel ==> last.topLevel["closing_balance"] == None) ==> merged == base))
  {
  }

  method MergeWindowResults(results: seq<WindowResult>) returns (merged: MergedResult)
    ensures results == [] ==> merged == Nothing
    ensures |results| == 1 ==> merged == Single(results[0])
    ensures |results| >= 2 ==>
              merged == Merged(MergedHeaders(results[0], Last(results)), MergedTransactions(results))
  {
    if results == [] {
      return Nothing;
    }
    if |results| == 1 {
      return Single(results[0]);
    }
    var seen: set<Key> := {};
    var transactions: seq<Txn> := [];
    for i := 0 to |results|
      invariant seen == Keys(AllTransactions(results[..i]))
      invariant transactions == Deduplicated(AllTransactions(results[..i]))
    {
      assert Init(results[..i + 1]) == results[..i];
      seen, transactions := MergeOne(AllTransactions(results[..i]), seen, transactions, results[i].transactions);
    }
    assert results[..|results|] == results;
    merged := Merged(MergedHeaders(results[0], Last(results)), transactions);
  }
}
