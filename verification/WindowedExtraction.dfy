/** Windowed extraction against one pass over the pages. */
module WindowedExtraction {
  import opened Common
  import opened ChunkedExtractor

  type Pages = seq<seq<Txn>>

  /** What a successful window returns: its pages' transactions, in order. */
  function Slice(pages: Pages, w: Window): seq<Txn>
    requires 1 <= w.start <= w.end <= |pages|
  {
    Flatten(pages[w.start - 1..w.end])
  }

  function Results(pages: Pages, ws: seq<Window>): seq<WindowResult>
    requires Staircase(ws, |pages|)
  {
    seq(|ws|, i requires 0 <= i < |ws| => WindowResult(map[], map[], Slice(pages, ws[i])))
  }

  /** The windows whose call succeeded. */
  function Succeeded(ws: seq<Window>, ok: seq<bool>): seq<Window>
    requires |ok| == |ws|
  {
    if ws == [] then [] else Succeeded(Init(ws), Init(ok)) + if Last(ok) then [Last(ws)] else []
  }

  function Masked(pages: Pages, ws: seq<Window>): Pages {
    seq(|pages|, i requires 0 <= i < |pages| => if Covered(ws, i + 1) then pages[i] else [])
  }

  /** One pass, in page order, over the pages some window covers. */
  function SinglePass(pages: Pages, ws: seq<Window>): seq<Txn> {
    Flatten(Masked(pages, ws))
  }

  lemma StaircaseSnoc(ws: seq<Window>, w: Window, total: nat)
    requires Staircase(ws, total) && 1 <= w.start <= w.end <= total
    requires forall i :: 0 <= i < |ws| ==> ws[i].start <= w.start && ws[i].end <= w.end
    ensures Staircase(ws + [w], total)
  {
  }

  lemma {:induction false} SucceededStaircase(ws: seq<Window>, ok: seq<bool>, total: nat)
    requires |ok| == |ws| && Staircase(ws, total)
    ensures Staircase(Succeeded(ws, ok), total)
    ensures forall w :: w in Succeeded(ws, ok) ==> w in ws
  {
    if ws != [] {
      SucceededStaircase(Init(ws), Init(ok), total);
      var s := Succeeded(Init(ws), Init(ok));
      forall i | 0 <= i < |s| ensures s[i].start <= Last(ws).start && s[i].end <= Last(ws).end {
        assert s[i] in Init(ws);
      }
      StaircaseSnoc(s, Last(ws), total);
    }
  }

  // ---- One more window ----

  /** The first page, zero-based, that window `w` adds to the windows before it. */
  function Frontier(ws: seq<Window>, w: Window): int {
    if ws == [] then w.start - 1 else Max(Last(ws).end, w.start - 1)
  }

  lemma {:induction false} AllEmpty(pages: Pages)
    requires forall i :: 0 <= i < |pages| ==> pages[i] == []
    ensures Flatten(pages) == []
  {
    if pages != [] {
      AllEmpty(pages[1..]);
    }
  }

  lemma CutAt(pages: Pages, k: nat)
    requires k <= |pages|
    ensures Flatten(pages) == Flatten(pages[..k]) + Flatten(pages[k..])
  {
    assert pages == pages[..k] + pages[k..];
    FlattenAppend(pages[..k], pages[k..]);
  }

  lemma FrontierBounds(ws: seq<Window>, w: Window, total: nat)
    requires Staircase(ws + [w], total)
    ensures 1 <= w.start <= w.end <= total && w.start - 1 <= Frontier(ws, w) <= w.end && Staircase(ws, total)
    ensures ws != [] ==> Last(ws).start <= w.start && Last(ws).end <= w.end
  {
    var all := ws + [w];
    assert all[|ws|] == w;
    forall i | 0 <= i < |ws| ensures ws[i] == all[i] {
    }
  }

  lemma MaskGrows(pages: Pages, ws: seq<Window>, w: Window)
    requires Staircase(ws + [w], |pages|)
    ensures 1 <= w.start <= w.end <= |pages| && w.start - 1 <= Frontier(ws, w) <= w.end
    ensures Masked(pages, ws + [w])
         == Masked(pages, ws)[..Frontier(ws, w)] + pages[Frontier(ws, w)..w.end] + Masked(pages, ws)[w.end..]
    ensures forall i :: Frontier(ws, w) <= i < |pages| ==> Masked(pages, ws)[i] == []
  {
    FrontierBounds(ws, w, |pages|);
    CoverageGrows(ws, w, |pages|);
  }

  /** Putting pages where only empty ones follow. */
  lemma FillEmpty(a: Pages, lo: nat, hi: nat, added: Pages)
    requires lo <= hi <= |a| && forall i :: lo <= i < |a| ==> a[i] == []
    ensures Flatten(a[..lo] + added + a[hi..]) == Flatten(a) + Flatten(added)
  {
    hide Flatten;
    FlattenAppend(a[..lo] + added, a[hi..]);
    FlattenAppend(a[..lo], added);
    CutAt(a, lo);
    AllEmpty(a[lo..]);
    AllEmpty(a[hi..]);
  }

  /** The pages the new window adds all come after the pages already covered. */
  lemma SinglePassGrows(pages: Pages, ws: seq<Window>, w: Window)
    requires Staircase(ws + [w], |pages|)
    ensures 1 <= w.start <= w.end <= |pages| && w.start - 1 <= Frontier(ws, w) <= w.end
    ensures SinglePass(pages, ws + [w]) == SinglePass(pages, ws) + Flatten(pages[Frontier(ws, w)..w.end])
  {
    MaskGrows(pages, ws, w);
    FillEmpty(Masked(pages, ws), Frontier(ws, w), w.end, pages[Frontier(ws, w)..w.end]);
  }

  lemma CoverageGrows(ws: seq<Window>, w: Window, total: nat)
    requires Staircase(ws + [w], total) && Staircase(ws, total) && 1 <= w.start <= w.end <= total
    requires ws != [] ==> Last(ws).start <= w.start && Last(ws).end <= w.end
    ensures forall p :: Covered(ws + [w], p) <==> Covered(ws, p) || w.start <= p <= w.end
    ensures forall p :: p > Frontier(ws, w) ==> !Covered(ws, p)
    ensures forall p :: w.start <= p <= Frontier(ws, w) ==> Covered(ws, p)
  {
    forall p ensures Covered(ws + [w], p) <==> Covered(ws, p) || w.start <= p <= w.end {
      if Covered(ws, p) {
        var i :| 0 <= i < |ws| && ws[i].start <= p <= ws[i].end;
        assert (ws + [w])[i] == ws[i];
      }
      assert (ws + [w])[|ws|] == w;
    }
    forall p | w.start <= p <= Frontier(ws, w) ensures Covered(ws, p) {
      assert ws[|ws| - 1].start <= p <= ws[|ws| - 1].end;
    }
  }

  // ---- Deduplication ----

  predicate DistinctKeys(ts: seq<Txn>) {
    forall i, j :: 0 <= i < j < |ts| && !ZeroAmount(ts[i]) && !ZeroAmount(ts[j])
                   ==> TransactionKey(ts[i]) != TransactionKey(ts[j])
  }

  predicate NoZero(ts: seq<Txn>) {
    forall i :: 0 <= i < |ts| ==> !ZeroAmount(ts[i])
  }

  function NonZero(ts: seq<Txn>): seq<Txn> {
    if ts == [] then [] else NonZero(Init(ts)) + if ZeroAmount(Last(ts)) then [] else [Last(ts)]
  }

  function Zeros(ts: seq<Txn>): nat {
    if ts == [] then 0 else Zeros(Init(ts)) + if ZeroAmount(Last(ts)) then 1 else 0
  }

  lemma KeysAppend(a: seq<Txn>, b: seq<Txn>)
    ensures Keys(a + b) == Keys(a) + Keys(b)
  {
    forall k ensures k in Keys(a + b) <==> k in Keys(a) || k in Keys(b) {
    }
  }

  /** Repeated non-zero transactions vanish. */
  lemma {:induction false} Absorbed(a: seq<Txn>, b: seq<Txn>)
    requires NoZero(b) && Keys(b) <= Keys(a)
    ensures Deduplicated(a + b) == Deduplicated(a)
  {
    if b == [] {
      assert a + b == a;
    } else {
      var t := Last(b);
      assert b == Init(b) + [t];
      KeysSnoc(Init(b), t);
      KeysAppend(a, Init(b));
      assert Init(a + b) == a + Init(b);
      assert TransactionKey(t) in Keys(b);
      Absorbed(a, Init(b));
    }
  }

  /** New keys are all kept. */
  lemma {:induction false} Kept(a: seq<Txn>, b: seq<Txn>)
    requires DistinctKeys(b) && Keys(a) !! Keys(b)
    ensures Deduplicated(a + b) == Deduplicated(a) + b
  {
    if b == [] {
      assert a + b == a;
    } else {
      var t := Last(b);
      assert b == Init(b) + [t];
      KeysSnoc(Init(b), t);
      KeysAppend(a, Init(b));
      assert Init(a + b) == a + Init(b);
      if !ZeroAmount(t) {
        assert TransactionKey(t) in Keys(b);
        assert TransactionKey(t) !in Keys(Init(b));
      }
      Kept(a, Init(b));
    }
  }

  lemma CountsSnoc(ts: seq<Txn>, t: Txn)
    ensures Zeros(ts + [t]) == Zeros(ts) + if ZeroAmount(t) then 1 else 0
    ensures |NonZero(ts + [t])| == |NonZero(ts)| + if ZeroAmount(t) then 0 else 1
  {
    assert Init(ts + [t]) == ts;
  }

  lemma {:induction false} DedupCounts(ts: seq<Txn>)
    ensures Zeros(Deduplicated(ts)) == Zeros(ts)
    ensures |NonZero(Deduplicated(ts))| == |Keys(ts)|
  {
    if ts != [] {
      var t, d, keys := Last(ts), Deduplicated(Init(ts)), Keys(Init(ts));
      DedupCounts(Init(ts));
      assert ts == Init(ts) + [t];
      KeysSnoc(Init(ts), t);
      CountsSnoc(d, t);
      if ZeroAmount(t) {
        assert Deduplicated(ts) == d + [t] && Keys(ts) == keys;
      } else if TransactionKey(t) in keys {
        assert Deduplicated(ts) == d && Keys(ts) == keys;
      } else {
        assert Deduplicated(ts) == d + [t] && Keys(ts) == keys + {TransactionKey(t)};
        assert |keys + {TransactionKey(t)}| == |keys| + 1;
      }
    }
  }

  lemma DistinctSnoc(ts: seq<Txn>, t: Txn)
    ensures DistinctKeys(ts + [t]) <==> DistinctKeys(ts) && (ZeroAmount(t) || TransactionKey(t) !in Keys(ts))
  {
    var all := ts + [t];
    assert forall i :: 0 <= i < |ts| ==> all[i] == ts[i];
    if !ZeroAmount(t) && TransactionKey(t) in Keys(ts) {
      var u :| u in ts && !ZeroAmount(u) && TransactionKey(u) == TransactionKey(t);
      var i :| 0 <= i < |ts| && ts[i] == u;
      assert !DistinctKeys(all) by {
        assert all[|ts|] == t && all[i] == u;
      }
    }
  }

  lemma {:induction false} DistinctByCount(ts: seq<Txn>)
    ensures |Keys(ts)| <= |NonZero(ts)|
    ensures DistinctKeys(ts) <==> |Keys(ts)| == |NonZero(ts)|
  {
    if ts != [] {
      var t := Last(ts);
      assert ts == Init(ts) + [t];
      DistinctByCount(Init(ts));
      KeysSnoc(Init(ts), t);
      CountsSnoc(Init(ts), t);
      DistinctSnoc(Init(ts), t);
      hide Keys, DistinctKeys, NonZero, TransactionKey, ZeroAmount;
      if !ZeroAmount(t) && TransactionKey(t) !in Keys(Init(ts)) {
        assert |Keys(Init(ts)) + {TransactionKey(t)}| == |Keys(Init(ts))| + 1;
      }
    }
  }

  lemma {:induction false} ZerosAppend(a: seq<Txn>, b: seq<Txn>)
    ensures Zeros(a + b) == Zeros(a) + Zeros(b)
  {
    if b == [] {
      assert a + b == a;
    } else {
      assert Init(a + b) == a + Init(b);
      ZerosAppend(a, Init(b));
    }
  }

  lemma {:induction false} NoZeroIff(ts: seq<Txn>)
    ensures NoZero(ts) <==> Zeros(ts) == 0
  {
    if ts != [] {
      NoZeroIff(Init(ts));
      assert ts == Init(ts) + [Last(ts)];
    }
  }

  // ---- The windows' transactions, concatenated ----

  lemma ResultsSnoc(pages: Pages, ws: seq<Window>, w: Window)
    requires Staircase(ws + [w], |pages|) && Staircase(ws, |pages|) && 1 <= w.start <= w.end <= |pages|
    ensures AllTransactions(Results(pages, ws + [w])) == AllTransactions(Results(pages, ws)) + Slice(pages, w)
  {
    var rs := Results(pages, ws + [w]);
    assert Init(rs) == Results(pages, ws);
  }

  /** A window's transactions, split where the pages already covered end. */
  lemma SliceSplit(pages: Pages, ws: seq<Window>, w: Window)
    requires 1 <= w.start <= w.end <= |pages| && w.start - 1 <= Frontier(ws, w) <= w.end
    ensures Slice(pages, w) == Flatten(pages[w.start - 1..Frontier(ws, w)]) + Flatten(pages[Frontier(ws, w)..w.end])
  {
    var lo := Frontier(ws, w);
    var s := pages[w.start - 1..w.end];
    CutAt(s, lo - (w.start - 1));
    assert s[..lo - (w.start - 1)] == pages[w.start - 1..lo] && s[lo - (w.start - 1)..] == pages[lo..w.end];
  }

  /** No zero-amount transaction stands on a page that two of the windows cover. */
  predicate ZerosOnce(pages: Pages, ws: seq<Window>) {
    forall i, j, p :: 0 <= i < j < |ws| && 0 <= p < |pages|
                      && ws[i].start <= p + 1 <= ws[i].end && ws[j].start <= p + 1 <= ws[j].end
                      ==> NoZero(pages[p])
  }

  lemma ZerosOnceGrows(pages: Pages, ws: seq<Window>, w: Window)
    requires Staircase(ws + [w], |pages|)
    ensures 1 <= w.start <= w.end <= |pages| && w.start - 1 <= Frontier(ws, w) <= w.end
    ensures ZerosOnce(pages, ws + [w])
            <==> ZerosOnce(pages, ws) && forall p :: w.start - 1 <= p < Frontier(ws, w) ==> NoZero(pages[p])
  {
    FrontierBounds(ws, w, |pages|);
    CoverageGrows(ws, w, |pages|);
    var all := ws + [w];
    forall i | 0 <= i < |ws| ensures ws[i] == all[i] {
    }
    assert all[|ws|] == w;
    if ZerosOnce(pages, all) {
      forall p | w.start - 1 <= p < Frontier(ws, w) ensures NoZero(pages[p]) {
        assert Covered(ws, p + 1);
        var i :| 0 <= i < |ws| && ws[i].start <= p + 1 <= ws[i].end;
        assert all[i] == ws[i];
      }
    }
  }

  lemma {:induction false} NoZeroPages(pages: Pages)
    ensures NoZero(Flatten(pages)) <==> forall p :: 0 <= p < |pages| ==> NoZero(pages[p])
  {
    if pages != [] {
      NoZeroPages(pages[1..]);
      var a, b := pages[0], Flatten(pages[1..]);
      assert forall i :: 0 <= i < |b| ==> b[i] == (a + b)[|a| + i];
      assert forall i :: 0 <= i < |a| ==> a[i] == (a + b)[i];
      assert forall p :: 1 <= p < |pages| ==> pages[p] == pages[1..][p - 1];
      if NoZero(a + b) {
        assert NoZero(a) && NoZero(b);
      }
    }
  }

  lemma {:induction false} KeysOfPages(pages: Pages)
    ensures forall p :: 0 <= p < |pages| ==> Keys(pages[p]) <= Keys(Flatten(pages))
  {
    if pages != [] {
      KeysOfPages(pages[1..]);
      KeysAppend(pages[0], Flatten(pages[1..]));
      assert forall p :: 1 <= p < |pages| ==> pages[p] == pages[1..][p - 1];
    }
  }

  lemma {:induction false} KeysWithin(pages: Pages, keys: set<Key>)
    requires forall p :: 0 <= p < |pages| ==> Keys(pages[p]) <= keys
    ensures Keys(Flatten(pages)) <= keys
  {
    if pages != [] {
      KeysWithin(pages[1..], keys);
      KeysAppend(pages[0], Flatten(pages[1..]));
    }
  }

  /** The overlap of a new window repeats only keys that are there already. */
  lemma OverlapKeys(pages: Pages, ws: seq<Window>, w: Window)
    requires Staircase(ws + [w], |pages|)
    ensures 1 <= w.start <= w.end <= |pages| && w.start - 1 <= Frontier(ws, w) <= w.end
    ensures Keys(Flatten(pages[w.start - 1..Frontier(ws, w)])) <= Keys(SinglePass(pages, ws))
  {
    FrontierBounds(ws, w, |pages|);
    CoverageGrows(ws, w, |pages|);
    var a, overlap := Masked(pages, ws), pages[w.start - 1..Frontier(ws, w)];
    KeysOfPages(a);
    forall p | 0 <= p < |overlap| ensures Keys(overlap[p]) <= Keys(Flatten(a)) {
      assert overlap[p] == pages[w.start - 1 + p] == a[w.start - 1 + p];
    }
    KeysWithin(overlap, Keys(Flatten(a)));
  }

  // ---- The comparison ----

  lemma OverlapPages(pages: Pages, ws: seq<Window>, w: Window)
    requires Staircase(ws + [w], |pages|)
    ensures 1 <= w.start <= w.end <= |pages| && w.start - 1 <= Frontier(ws, w) <= w.end
    ensures var o := pages[w.start - 1..Frontier(ws, w)];
            (forall p :: 0 <= p < |o| ==> NoZero(o[p]))
            <==> forall p :: w.start - 1 <= p < Frontier(ws, w) ==> NoZero(pages[p])
  {
    FrontierBounds(ws, w, |pages|);
    var o := pages[w.start - 1..Frontier(ws, w)];
    forall p | w.start - 1 <= p < Frontier(ws, w) ensures pages[p] == o[p - (w.start - 1)] {
    }
  }

  /** One more window: what it repeats, what it adds, and how both sides of the comparison change. */
  lemma OneMoreWindow(pages: Pages, ws: seq<Window>, w: Window) returns (overlap: seq<Txn>, new': seq<Txn>)
    requires Staircase(ws + [w], |pages|)
    ensures Staircase(ws, |pages|)
    ensures AllTransactions(Results(pages, ws + [w])) == AllTransactions(Results(pages, ws)) + (overlap + new')
    ensures SinglePass(pages, ws + [w]) == SinglePass(pages, ws) + new'
    ensures Keys(overlap) <= Keys(SinglePass(pages, ws))
    ensures ZerosOnce(pages, ws + [w]) <==> ZerosOnce(pages, ws) && NoZero(overlap)
  {
    FrontierBounds(ws, w, |pages|);
    overlap, new' := Flatten(pages[w.start - 1..Frontier(ws, w)]), Flatten(pages[Frontier(ws, w)..w.end]);
    SinglePassGrows(pages, ws, w);
    ResultsSnoc(pages, ws, w);
    SliceSplit(pages, ws, w);
    OverlapKeys(pages, ws, w);
    ZerosOnceGrows(pages, ws, w);
    NoZeroPages(pages[w.start - 1..Frontier(ws, w)]);
    OverlapPages(pages, ws, w);
  }

  lemma NoWindows(pages: Pages)
    ensures SinglePass(pages, []) == [] && AllTransactions(Results(pages, [])) == []
    ensures Deduplicated([]) == []
  {
    AllEmpty(Masked(pages, []));
  }

  /** The windows' transactions and the single pass have the same keys; the windows have no fewer zero amounts. */
  lemma {:induction false} SameKeysMoreZeros(pages: Pages, ws: seq<Window>)
    requires Staircase(ws, |pages|)
    ensures var all, once := AllTransactions(Results(pages, ws)), SinglePass(pages, ws);
            && Keys(all) == Keys(once)
            && Zeros(all) >= Zeros(once)
            && (Zeros(all) == Zeros(once) <==> ZerosOnce(pages, ws))
    decreases |ws|
  {
    if ws == [] {
      NoWindows(pages);
    } else {
      var p, w := Init(ws), Last(ws);
      assert ws == p + [w];
      var overlap, new' := OneMoreWindow(pages, p, w);
      SameKeysMoreZeros(pages, p);
      KeysSplit(AllTransactions(Results(pages, p)), overlap, new', SinglePass(pages, p));
      ZerosSplit(AllTransactions(Results(pages, p)), overlap, new', SinglePass(pages, p));
      NoZeroIff(overlap);
    }
  }

  lemma KeysSplit(all: seq<Txn>, overlap: seq<Txn>, new': seq<Txn>, once: seq<Txn>)
    requires Keys(all) == Keys(once) && Keys(overlap) <= Keys(once)
    ensures Keys(all + (overlap + new')) == Keys(once + new')
  {
    KeysAppend(all, overlap + new');
    KeysAppend(overlap, new');
    KeysAppend(once, new');
  }

  lemma ZerosSplit(all: seq<Txn>, overlap: seq<Txn>, new': seq<Txn>, once: seq<Txn>)
    ensures Zeros(all + (overlap + new')) == Zeros(all) + Zeros(overlap) + Zeros(new')
    ensures Zeros(once + new') == Zeros(once) + Zeros(new')
  {
    ZerosAppend(all, overlap + new');
    ZerosAppend(overlap, new');
    ZerosAppend(once, new');
  }

  lemma DistinctPrefix(a: seq<Txn>, b: seq<Txn>)
    requires DistinctKeys(a + b)
    ensures DistinctKeys(a) && DistinctKeys(b) && Keys(a) !! Keys(b)
  {
    assert forall i :: 0 <= i < |b| ==> b[i] == (a + b)[|a| + i];
    assert forall i :: 0 <= i < |a| ==> a[i] == (a + b)[i];
    assert forall i, j :: 0 <= i < |a| && 0 <= j < |b| && !ZeroAmount(a[i]) && !ZeroAmount(b[j])
                          ==> TransactionKey(a[i]) != TransactionKey(b[j]);
  }

  lemma {:induction false} MergeIsSinglePass(pages: Pages, ws: seq<Window>)
    requires Staircase(ws, |pages|) && DistinctKeys(SinglePass(pages, ws)) && ZerosOnce(pages, ws)
    ensures Deduplicated(AllTransactions(Results(pages, ws))) == SinglePass(pages, ws)
    decreases |ws|
  {
    hide Keys, DistinctKeys, Deduplicated, SinglePass, ZerosOnce, NoZero, AllTransactions;
    if ws == [] {
      NoWindows(pages);
    } else {
      var p, w := Init(ws), Last(ws);
      assert ws == p + [w];
      FrontierBounds(p, w, |pages|);
      var all, once := AllTransactions(Results(pages, p)), SinglePass(pages, p);
      var overlap, new' := OneMoreWindow(pages, p, w);
      DistinctPrefix(once, new');
      MergeIsSinglePass(pages, p);
      SameKeysMoreZeros(pages, p);
      MergeTail(all, overlap, new', once);
    }
  }

  lemma MergeTail(all: seq<Txn>, overlap: seq<Txn>, new': seq<Txn>, once: seq<Txn>)
    requires NoZero(overlap) && Keys(overlap) <= Keys(all) && Keys(all) == Keys(once)
    requires DistinctKeys(new') && Keys(once) !! Keys(new')
    requires Deduplicated(all) == once
    ensures Deduplicated(all + (overlap + new')) == once + new'
  {
    assert all + (overlap + new') == (all + overlap) + new';
    KeysAppend(all, overlap);
    Kept(all + overlap, new');
    Absorbed(all, overlap);
  }

  /** The merged transactions are the single pass exactly when no key repeats and no zero amount is read twice. */
  lemma MergeIsSinglePassIff(pages: Pages, ws: seq<Window>)
    requires Staircase(ws, |pages|)
    ensures Deduplicated(AllTransactions(Results(pages, ws))) == SinglePass(pages, ws)
            <==> DistinctKeys(SinglePass(pages, ws)) && ZerosOnce(pages, ws)
  {
    var all, once := AllTransactions(Results(pages, ws)), SinglePass(pages, ws);
    if Deduplicated(all) == once {
      SameKeysMoreZeros(pages, ws);
      DedupCounts(all);
      DistinctByCount(once);
    } else if DistinctKeys(once) && ZerosOnce(pages, ws) {
      MergeIsSinglePass(pages, ws);
    }
  }

  // ---- The theorems ----

  lemma OneWindow(pages: Pages, ws: seq<Window>)
    requires |ws| == 1 && Staircase(ws, |pages|)
    ensures MergedTransactions(Results(pages, ws)) == SinglePass(pages, ws)
  {
    assert ws == [] + [ws[0]];
    SinglePassGrows(pages, [], ws[0]);
    AllEmpty(Masked(pages, []));
  }

  lemma MergedIsSinglePassIff(pages: Pages, ws: seq<Window>)
    requires Staircase(ws, |pages|)
    ensures MergedTransactions(Results(pages, ws)) == SinglePass(pages, ws)
            <==> |ws| <= 1 || (DistinctKeys(SinglePass(pages, ws)) && ZerosOnce(pages, ws))
  {
    if |ws| == 1 {
      OneWindow(pages, ws);
    } else {
      MergeIsSinglePassIff(pages, ws);
      hide SinglePass, Deduplicated, DistinctKeys, ZerosOnce;
      if ws == [] {
        NoWindows(pages);
      }
    }
  }

  /** No two transactions of the same date, description and amount, unless that is zero. */
  ghost predicate NoEntryTwice(ts: seq<Txn>) {
    forall i, j :: 0 <= i < j < |ts| && SameEntry(ts[i], ts[j]) ==> HasAmount(ts[i], 0.0)
  }

  /** No transaction of amount zero stands on a page that two of the windows cover. */
  ghost predicate NoSharedZero(pages: Pages, ws: seq<Window>) {
    forall i, j, p, t :: 0 <= i < j < |ws| && 0 <= p < |pages| && t in pages[p]
                         && ws[i].start <= p + 1 <= ws[i].end && ws[j].start <= p + 1 <= ws[j].end
                         ==> !HasAmount(t, 0.0)
  }

  lemma NoEntryTwiceMeans(ts: seq<Txn>)
    ensures NoEntryTwice(ts) <==> DistinctKeys(ts)
  {
    forall t, u ensures TransactionKey(t) == TransactionKey(u) <==> SameEntry(t, u) {
      KeysAgreeIff(t, u);
    }
    forall t ensures ZeroAmount(t) <==> HasAmount(t, 0.0) {
      KeysAgreeIff(t, t);
    }
    hide HasAmount, SameEntry;
  }

  lemma NoSharedZeroMeans(pages: Pages, ws: seq<Window>)
    ensures NoSharedZero(pages, ws) <==> ZerosOnce(pages, ws)
  {
    forall t ensures ZeroAmount(t) <==> HasAmount(t, 0.0) {
      KeysAgreeIff(t, t);
    }
    hide HasAmount, ZeroAmount;
    if NoSharedZero(pages, ws) {
      forall i, j, p | 0 <= i < j < |ws| && 0 <= p < |pages|
                       && ws[i].start <= p + 1 <= ws[i].end && ws[j].start <= p + 1 <= ws[j].end
        ensures NoZero(pages[p])
      {
        assert forall k :: 0 <= k < |pages[p]| ==> pages[p][k] in pages[p];
      }
    }
    if ZerosOnce(pages, ws) {
      forall i, j, p, t | 0 <= i < j < |ws| && 0 <= p < |pages| && t in pages[p]
                          && ws[i].start <= p + 1 <= ws[i].end && ws[j].start <= p + 1 <= ws[j].end
        ensures !HasAmount(t, 0.0)
      {
        assert NoZero(pages[p]);
      }
    }
  }

  /**
   * Whatever windows fail, the merge returns each covered page's transactions once, in page order, exactly when at
   * most one window succeeded, or no date, description and non-zero amount repeat and no amount of zero lies in an
   * overlap.
   */
  lemma WindowingRefinesSinglePass(pages: Pages, size: int, overlap: int, ok: seq<bool>)
    requires size >= 1 && |ok| == |WindowsFrom(|pages|, size, overlap, 0)|
    ensures var ws := Succeeded(WindowsFrom(|pages|, size, overlap, 0), ok);
            && Staircase(ws, |pages|)
            && (MergedTransactions(Results(pages, ws)) == SinglePass(pages, ws)
                <==> |ws| <= 1 || (NoEntryTwice(SinglePass(pages, ws)) && NoSharedZero(pages, ws)))
  {
    var ws := Succeeded(WindowsFrom(|pages|, size, overlap, 0), ok);
    WindowsAreStaircase(|pages|, size, overlap, 0);
    SucceededStaircase(WindowsFrom(|pages|, size, overlap, 0), ok, |pages|);
    NoEntryTwiceMeans(SinglePass(pages, ws));
    NoSharedZeroMeans(pages, ws);
    hide SinglePass, MergedTransactions, NoEntryTwice, NoSharedZero, DistinctKeys, ZerosOnce;
    MergedIsSinglePassIff(pages, ws);
  }

  lemma TwoWindows(pages: Pages, ws: seq<Window>)
    requires |ws| == 2 && Staircase(ws, |pages|)
    ensures MergedTransactions(Results(pages, ws)) == Deduplicated(Slice(pages, ws[0]) + Slice(pages, ws[1]))
  {
    hide Slice, Deduplicated;
    var results := Results(pages, ws);
    assert Init(Init(results)) == [];
    assert AllTransactions(Init(results)) == [] + Slice(pages, ws[0]);
    assert [] + Slice(pages, ws[0]) == Slice(pages, ws[0]);
  }

  lemma DeduplicatedPair(t: Txn)
    ensures Deduplicated([t, t]) == if ZeroAmount(t) then [t, t] else [t]
    ensures Flatten([[t], []]) == Flatten([[], [t]]) == Flatten([[t]]) == [t] == Flatten([[], [t], []])
  {
    assert Init([t, t]) == [t] && Init([t]) == [];
    assert Deduplicated([t]) == [] + [t] == [t];
    if !ZeroAmount(t) {
      assert TransactionKey(t) in Keys([t]);
      assert [t] + [] == [t];
    }
    assert [[t], []][1..] == [[]] && [[], [t]][1..] == [[t]] && [[], [t], []][1..] == [[t], []];
    assert [t] + [] == [t] && [] + [t] == [t];
  }

  /** Both conditions are needed. A zero amount on the page two windows share is returned twice. */
  lemma SharedZeroIsDoubled(t: Txn)
    requires ZeroAmount(t)
    ensures var pages, ws := [[], [t], []], [Window(1, 2), Window(2, 3)];
            && WindowsFrom(3, 2, 1, 0) == ws && Staircase(ws, |pages|)
            && SinglePass(pages, ws) == [t] && MergedTransactions(Results(pages, ws)) == [t, t]
  {
    var pages, ws := [[], [t], []], [Window(1, 2), Window(2, 3)];
    hide WindowsFrom, MergedTransactions, Results, Deduplicated, Flatten, ZeroAmount;
    WindowsFromMeaning(3, 2, 1, 0);
    WindowsFromMeaning(3, 2, 1, 1);
    TwoWindows(pages, ws);
    DeduplicatedPair(t);
    assert pages[0..2] == [[], [t]] && pages[1..3] == [[t], []];
    assert Covered(ws, 1) && Covered(ws, 2) && Covered(ws, 3);
    assert Masked(pages, ws) == pages;
    assert [t] + [t] == [t, t];
  }

  /** And of two equal transactions on different pages, not zero, only one is returned. */
  lemma RepeatedKeyIsLost(t: Txn)
    requires !ZeroAmount(t)
    ensures var pages, ws := [[t], [t]], [Window(1, 1), Window(2, 2)];
            && WindowsFrom(2, 1, 0, 0) == ws && Staircase(ws, |pages|)
            && SinglePass(pages, ws) == [t, t] && MergedTransactions(Results(pages, ws)) == [t]
  {
    var pages, ws := [[t], [t]], [Window(1, 1), Window(2, 2)];
    hide WindowsFrom, MergedTransactions, Results, Deduplicated, Flatten, ZeroAmount;
    WindowsFromMeaning(2, 1, 0, 0);
    WindowsFromMeaning(2, 1, 0, 1);
    TwoWindows(pages, ws);
    DeduplicatedPair(t);
    assert pages[0..1] == [[t]] && pages[1..2] == [[t]];
    assert Covered(ws, 1) && Covered(ws, 2);
    assert Masked(pages, ws) == pages;
    FlattenSnoc([[t]], [t]);
    assert [[t]] + [[t]] == pages && [t] + [t] == [t, t];
  }

  /** When every window succeeds and the overlap is not negative, the single pass is the whole document. */
  lemma AllWindowsCoverTheDocument(pages: Pages, size: int, overlap: int, ok: seq<bool>)
    requires size >= 1 && overlap >= 0 && |ok| == |WindowsFrom(|pages|, size, overlap, 0)|
    requires forall i :: 0 <= i < |ok| ==> ok[i]
    ensures SinglePass(pages, Succeeded(WindowsFrom(|pages|, size, overlap, 0), ok)) == Flatten(pages)
  {
    var ws := WindowsFrom(|pages|, size, overlap, 0);
    NoneFail(ws, ok);
    forall page | 1 <= page <= |pages| ensures Covered(ws, page) {
      WindowsReachEveryPage(|pages|, size, overlap, 0, page);
    }
    assert Masked(pages, ws) == pages;
  }

  lemma {:induction false} NoneFail(ws: seq<Window>, ok: seq<bool>)
    requires |ok| == |ws| && forall i :: 0 <= i < |ok| ==> ok[i]
    ensures Succeeded(ws, ok) == ws
  {
    if ws != [] {
      NoneFail(Init(ws), Init(ok));
    }
  }
}
