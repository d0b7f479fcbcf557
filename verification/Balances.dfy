/** The running-balance chain and the account reconciliation, over reals. */
module Balances {
  import opened Common

  /** One entry of a transaction list; entries that are not records are skipped. */
  datatype Txn =
    | NotARecord
    | Txn(balance: Option<real>, debit: Option<real>, credit: Option<real>)

  datatype Account = Account(opening: Option<real>, closing: Option<real>, transactions: seq<Txn>)

  const TOLERANCE := 0.02

  function OrZero(v: Option<real>): real {
    match v case None => 0.0 case Some(x) => x
  }

  function Abs(x: real): real {
    if x < 0.0 then -x else x
  }

  /** Credit less debit of one entry. */
  function Net(t: Txn): real {
    if t.NotARecord? then 0.0 else OrZero(t.credit) - OrZero(t.debit)
  }

  predicate Balanced(t: Txn) {
    t.Txn? && t.balance.Some?
  }

  /** The balance the next balanced entry is compared with. */
  function PriorBalance(ts: seq<Txn>): Option<real> {
    if ts == [] then None
    else if Balanced(Last(ts)) then Last(ts).balance
    else PriorBalance(Init(ts))
  }

  predicate Breaks(prior: Option<real>, t: Txn) {
    Balanced(t) && prior.Some? && Abs(t.balance.value - (prior.value + Net(t))) > TOLERANCE
  }

  /** The positions at which the chain is reported broken. */
  function ChainBreaks(ts: seq<Txn>): seq<nat> {
    if ts == [] then []
    else ChainBreaks(Init(ts)) + if Breaks(PriorBalance(Init(ts)), Last(ts)) then [|ts| - 1] else []
  }

  method ValidateRunningBalance(account: Account) returns (failures: seq<nat>)
    ensures failures == ChainBreaks(account.transactions)
  {
    var ts := account.transactions;
    failures := [];
    var prevBalance: Option<real> := None;
    for i := 0 to |ts|
      invariant failures == ChainBreaks(ts[..i]) && prevBalance == PriorBalance(ts[..i])
    {
      assert Init(ts[..i + 1]) == ts[..i];
      if ts[i].NotARecord? || ts[i].balance.None? {
        continue;
      }
      var debit, credit := OrZero(ts[i].debit), OrZero(ts[i].credit);
      if prevBalance.Some? {
        var expected := prevBalance.value + credit - debit;
        if Abs(ts[i].balance.value - expected) > TOLERANCE {
          failures := failures + [i];
        }
      }
      prevBalance := ts[i].balance;
    }
    assert ts[..|ts|] == ts;
  }

  function NetOf(ts: seq<Txn>): real {
    if ts == [] then 0.0 else NetOf(Init(ts)) + Net(Last(ts))
  }

  predicate Reconciles(a: Account) {
    a.opening.None? || a.closing.None? || a.transactions == []
    || Abs(a.closing.value - (a.opening.value + NetOf(a.transactions))) <= TOLERANCE
  }

  method ValidateReconciliation(account: Account) returns (ok: bool)
    ensures ok == Reconciles(account)
  {
    if account.opening.None? || account.closing.None? || account.transactions == [] {
      return true;
    }
    var ts := account.transactions;
    var totalDebits, totalCredits := 0.0, 0.0;
    for i := 0 to |ts|
      invariant totalCredits - totalDebits == NetOf(ts[..i])
    {
      assert Init(ts[..i + 1]) == ts[..i];
      if ts[i].Txn? {
        totalDebits := totalDebits + OrZero(ts[i].debit);
        totalCredits := totalCredits + OrZero(ts[i].credit);
      }
    }
    assert ts[..|ts|] == ts;
    var expected := account.opening.value + totalCredits - totalDebits;
    ok := !(Abs(account.closing.value - expected) > TOLERANCE);
  }

  // ---- What the two checks ask ----

  function Credits(ts: seq<Txn>): real {
    if ts == [] then 0.0
    else Credits(Init(ts)) + if Last(ts).Txn? && Last(ts).credit.Some? then Last(ts).credit.value else 0.0
  }

  function Debits(ts: seq<Txn>): real {
    if ts == [] then 0.0
    else Debits(Init(ts)) + if Last(ts).Txn? && Last(ts).debit.Some? then Last(ts).debit.value else 0.0
  }

  lemma {:induction false} NetIsCreditsLessDebits(ts: seq<Txn>)
    ensures NetOf(ts) == Credits(ts) - Debits(ts)
  {
    if ts != [] {
      NetIsCreditsLessDebits(Init(ts));
    }
  }

  /** An account reconciles exactly when closing is opening plus credits less debits, give or take two cents. */
  lemma ReconcilesIff(a: Account)
    requires a.opening.Some? && a.closing.Some? && a.transactions != []
    ensures var expected := a.opening.value + Credits(a.transactions) - Debits(a.transactions);
            Reconciles(a) <==> expected - 0.02 <= a.closing.value <= expected + 0.02
    ensures Reconciles(a.(opening := None)) && Reconciles(a.(closing := None)) && Reconciles(a.(transactions := []))
  {
    NetIsCreditsLessDebits(a.transactions);
  }

  /** The entry before `i` that its balance is compared with: the last one that carries a balance. */
  predicate Precedes(ts: seq<Txn>, j: nat, i: nat) {
    && j < i < |ts| && ts[j].Txn? && ts[j].balance.Some?
    && forall k :: j < k < i ==> !(ts[k].Txn? && ts[k].balance.Some?)
  }

  lemma {:induction false} PriorIsPreceding(ts: seq<Txn>, i: nat)
    requires i < |ts|
    ensures PriorBalance(ts[..i]).Some? <==> exists j: nat :: Precedes(ts, j, i)
    ensures forall j: nat :: Precedes(ts, j, i) ==> PriorBalance(ts[..i]) == ts[j].balance
  {
    if i > 0 {
      assert Init(ts[..i]) == ts[..i - 1];
      PriorIsPreceding(ts, i - 1);
      if Balanced(ts[i - 1]) {
        assert Precedes(ts, i - 1, i);
      } else {
        var before: nat := i - 1;
        if j: nat :| Precedes(ts, j, before) {
          assert Precedes(ts, j, i);
        }
        assert forall j: nat :: Precedes(ts, j, i) ==> Precedes(ts, j, before);
      }
    }
  }

  lemma {:induction false} BreaksListed(ts: seq<Txn>, k: nat, i: nat)
    requires k <= |ts| && i < |ts|
    ensures i in ChainBreaks(ts[..k]) <==> i < k && Breaks(PriorBalance(ts[..i]), ts[i])
  {
    if k > 0 {
      assert Init(ts[..k]) == ts[..k - 1];
      BreaksListed(ts, k - 1, i);
    }
  }

  /**
   * A position is reported exactly when its balance is more than two cents away from the last balance before it
   * plus its credit less its debit.
   */
  lemma BreakReportedIff(ts: seq<Txn>, i: nat)
    requires i < |ts|
    ensures i in ChainBreaks(ts)
            <==> && ts[i].Txn? && ts[i].balance.Some?
                 && exists j: nat :: Precedes(ts, j, i) &&
                      var expected := ts[j].balance.value + Credits([ts[i]]) - Debits([ts[i]]);
                      ts[i].balance.value < expected - 0.02 || ts[i].balance.value > expected + 0.02
  {
    assert ts[..|ts|] == ts && Init([ts[i]]) == [];
    BreaksListed(ts, |ts|, i);
    PriorIsPreceding(ts, i);
  }

  // ---- What a clean chain implies ----

  function BalancedCount(ts: seq<Txn>): nat {
    if ts == [] then 0 else BalancedCount(Init(ts)) + if Balanced(Last(ts)) then 1 else 0
  }

  /** Credits less debits of the balanced entries after the first balanced one. */
  function LaterNet(ts: seq<Txn>): real {
    if ts == [] then 0.0
    else LaterNet(Init(ts)) + if Balanced(Last(ts)) && PriorBalance(Init(ts)).Some? then Net(Last(ts)) else 0.0
  }

  function FirstBalance(ts: seq<Txn>): Option<real> {
    if ts == [] then None
    else if FirstBalance(Init(ts)).Some? then FirstBalance(Init(ts))
    else if Balanced(Last(ts)) then Last(ts).balance else None
  }

  /** A chain with no reported break drifts by at most one tolerance a step, however many entries lack a balance. */
  lemma {:induction false} CleanChainDrift(ts: seq<Txn>)
    requires ChainBreaks(ts) == []
    ensures FirstBalance(ts).Some? <==> PriorBalance(ts).Some?
    ensures FirstBalance(ts).Some? <==> BalancedCount(ts) >= 1
    ensures FirstBalance(ts).None? ==> LaterNet(ts) == 0.0
    ensures FirstBalance(ts).Some? ==>
              Abs(PriorBalance(ts).value - (FirstBalance(ts).value + LaterNet(ts)))
              <= TOLERANCE * (BalancedCount(ts) - 1) as real
  {
    if ts != [] {
      assert ChainBreaks(Init(ts)) == [];
      CleanChainDrift(Init(ts));
      var n := BalancedCount(Init(ts));
      if Balanced(Last(ts)) && PriorBalance(Init(ts)).Some? {
        assert n as real == (n - 1) as real + 1.0;
        var prior, first := PriorBalance(Init(ts)).value, FirstBalance(ts).value;
        assert Abs(prior - (first + LaterNet(Init(ts)))) <= TOLERANCE * (n - 1) as real;
        assert Abs(PriorBalance(ts).value - (prior + Net(Last(ts)))) <= TOLERANCE;
      }
    }
  }

  predicate AllCarryBalance(ts: seq<Txn>) {
    forall i :: 0 <= i < |ts| ==> Balanced(ts[i])
  }

  lemma {:induction false} AllBalanced(ts: seq<Txn>)
    requires ts != [] && AllCarryBalance(ts)
    ensures BalancedCount(ts) == |ts|
    ensures FirstBalance(ts) == ts[0].balance && PriorBalance(ts) == Last(ts).balance
    ensures NetOf(ts) == Net(ts[0]) + LaterNet(ts)
  {
    var p := Init(ts);
    if |ts| == 1 {
      assert p == [];
    } else {
      AllBalanced(p);
    }
  }

  /**
   * If all n entries carry a balance and no break is reported, the last balance is within 0.02(n-1) of the first
   * balance plus later credits less later debits.
   */
  lemma RunningBalanceDrift(ts: seq<Txn>)
    requires ts != [] && AllCarryBalance(ts) && ChainBreaks(ts) == []
    ensures Abs(Last(ts).balance.value - (ts[0].balance.value + (NetOf(ts) - Net(ts[0]))))
         <= TOLERANCE * (|ts| - 1) as real
  {
    AllBalanced(ts);
    CleanChainDrift(ts);
  }

  /** Every step exact, from the opening balance on. */
  predicate ExactSteps(opening: real, ts: seq<Txn>) {
    ts == [] ||
    (ExactSteps(opening, Init(ts)) && Balanced(Last(ts))
     && Last(ts).balance.value == (if |ts| == 1 then opening else OrZero(PriorBalance(Init(ts)))) + Net(Last(ts)))
  }

  lemma {:induction false} ExactStepsTelescope(opening: real, ts: seq<Txn>)
    requires ts != [] && ExactSteps(opening, ts)
    ensures ChainBreaks(ts) == [] && PriorBalance(ts).Some?
    ensures PriorBalance(ts).value == opening + NetOf(ts)
  {
    if |ts| == 1 {
      assert Init(ts) == [];
    } else {
      ExactStepsTelescope(opening, Init(ts));
    }
  }

  /** Exact steps from the opening to the closing balance pass both checks. */
  lemma ExactChainReconciles(a: Account)
    requires a.opening.Some? && a.closing.Some? && a.transactions != []
    requires ExactSteps(a.opening.value, a.transactions) && a.closing == Last(a.transactions).balance
    ensures ChainBreaks(a.transactions) == [] && Reconciles(a)
  {
    ExactStepsTelescope(a.opening.value, a.transactions);
  }

  /** n entries without movement, each balance a full tolerance above the one before, starting from zero. */
  function Creeping(n: nat): seq<Txn> {
    seq(n, i requires 0 <= i < n => Txn(Some(TOLERANCE * (i + 1) as real), None, None))
  }

  lemma {:induction false} CreepingChain(n: nat)
    ensures ChainBreaks(Creeping(n)) == [] && NetOf(Creeping(n)) == 0.0
    ensures PriorBalance(Creeping(n)) == if n == 0 then None else Some(TOLERANCE * n as real)
  {
    if n > 0 {
      CreepingChain(n - 1);
      assert Init(Creeping(n)) == Creeping(n - 1);
      assert n as real == (n - 1) as real + 1.0;
    }
  }

  /** Whether an account's first entry follows from its opening balance and its last gives the closing balance. */
  predicate Anchored(a: Account) {
    && a.opening.Some? && a.transactions != [] && AllCarryBalance(a.transactions)
    && a.closing == Last(a.transactions).balance
    && Abs(a.transactions[0].balance.value - (a.opening.value + Net(a.transactions[0]))) <= TOLERANCE
  }

  /** The tolerance accumulates: a clean chain from opening to closing balance is sure to reconcile only for n = 1. */
  lemma CleanChainSurelyReconcilesIff(n: nat)
    requires n >= 1
    ensures (forall a: Account :: Anchored(a) && |a.transactions| == n && ChainBreaks(a.transactions) == []
                                  ==> Reconciles(a))
            <==> n == 1
  {
    if n == 1 {
      forall a: Account | Anchored(a) && |a.transactions| == 1 ensures Reconciles(a) {
        assert Init(a.transactions) == [];
      }
    } else {
      CreepingChain(n);
      var a := Account(Some(0.0), Some(TOLERANCE * n as real), Creeping(n));
      assert TOLERANCE * n as real >= TOLERANCE * 2.0;
      assert Anchored(a) && |a.transactions| == n && !Reconciles(a);
    }
  }
}
