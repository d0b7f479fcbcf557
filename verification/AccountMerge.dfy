/** Deduplicating the accounts of all sections by account number or IBAN. */
module AccountMerge {
  import opened Common

  /** A JSON value; a list or an object is its text. */
  datatype Scalar = Null | Flag(flag: bool) | Text(text: string) | Number(number: real) | Structured(json: string)

  /** A list-valued entry of an account: missing, null, or a list. */
  datatype Listing = Absent | NullList | Items(items: seq<Record>)

  /** A transaction or a table. */
  type Record = map<string, Scalar>

  datatype Account = Account(transactions: Listing, tables: Listing, scalars: map<string, Scalar>)

  /** Transactions and tables are merged alike. */
  datatype Part = Transactions | Tables

  predicate Truthy(s: Scalar) {
    match s
    case Null => false
    case Flag(b) => b
    case Text(t) => t != ""
    case Number(n) => n != 0.0
    case Structured(json) => json != "[]" && json != "{}"
  }

  /** `acct.get(field)`. */
  function Get(a: Account, field: string): Scalar {
    if field in a.scalars then a.scalars[field] else Null
  }

  /** `acct.get(part) or []`. */
  function List(a: Account, part: Part): seq<Record> {
    var listing := if part == Transactions then a.transactions else a.tables;
    if listing.Items? then listing.items else []
  }

  /** Values as dictionary keys: Python's True is the key 1. */
  function AsKey(s: Scalar): Scalar {
    if s == Flag(true) then Number(1.0) else s
  }

  function Identifier(a: Account): Option<Scalar> {
    if Truthy(Get(a, "account_number")) then Some(AsKey(Get(a, "account_number")))
    else if Truthy(Get(a, "iban")) then Some(AsKey(Get(a, "iban")))
    else None
  }

  /** A list or an object cannot be a dictionary key. */
  predicate Unhashable(raw: Option<Account>) {
    raw.Some? && Identifier(raw.value).Some? && Identifier(raw.value).value.Structured?
  }

  /** What counts as a value: not null, false, zero, or an empty text, list or object. */
  lemma TruthyTable(s: Scalar)
    ensures !Truthy(s)
            <==> s in [Null, Flag(false), Number(0.0), Text(""), Structured("[]"), Structured("{}")]
  {
    var none := [Null, Flag(false), Number(0.0), Text(""), Structured("[]"), Structured("{}")];
    assert none[0] == Null && none[1] == Flag(false) && none[2] == Number(0.0) && none[3] == Text("");
    assert none[4] == Structured("[]") && none[5] == Structured("{}");
  }

  /** The account number comes before the IBAN, which stands in when there is no number. */
  lemma NumberBeforeIban(a: Account, number: string, iban: string)
    requires number != "" && iban != ""
    ensures Identifier(a.(scalars := a.scalars["account_number" := Text(number)]["iban" := Text(iban)]))
         == Some(Text(number))
    ensures Identifier(a.(scalars := a.scalars["account_number" := Null]["iban" := Text(iban)])) == Some(Text(iban))
    ensures Identifier(a.(scalars := a.scalars["account_number" := Text("")]["iban" := Null])) == None
    ensures "account_number" !in a.scalars && "iban" !in a.scalars ==> Identifier(a) == None
    ensures Identifier(a.(scalars := a.scalars["account_number" := Flag(true)]))
         == Identifier(a.(scalars := a.scalars["account_number" := Number(1.0)]))
  {
  }

  // ---- Naming the unidentified ----

  function Digit(d: nat): char
    requires d < 10
  {
    ['0', '1', '2', '3', '4', '5', '6', '7', '8', '9'][d]
  }

  function Decimal(n: nat): (s: string)
    ensures s != ""
  {
    if n < 10 then [Digit(n)] else Decimal(n / 10) + [Digit(n % 10)]
  }

  lemma {:induction false} DecimalInjective(m: nat, n: nat)
    requires Decimal(m) == Decimal(n)
    ensures m == n
  {
    assert Last(Decimal(m)) == Last(Decimal(n));
    assert m % 10 == n % 10;
    assert Init(Decimal(m)) == Init(Decimal(n));
    if m >= 10 && n >= 10 {
      assert Init(Decimal(m)) == Decimal(m / 10) && Init(Decimal(n)) == Decimal(n / 10);
      DecimalInjective(m / 10, n / 10);
    }
  }

  function UnidentifiedKey(n: nat): Scalar {
    Text("unidentified_" + Decimal(n))
  }

  lemma UnidentifiedKeyInjective(m: nat, n: nat)
    requires UnidentifiedKey(m) == UnidentifiedKey(n)
    ensures m == n
  {
    var prefix := "unidentified_";
    assert Decimal(m) == (prefix + Decimal(m))[|prefix|..];
    assert Decimal(n) == (prefix + Decimal(n))[|prefix|..];
    DecimalInjective(m, n);
  }

  // ---- The dictionary of merged accounts, in insertion order ----

  datatype Merged = Merged(order: seq<Scalar>, byKey: map<Scalar, Account>)

  const NOTHING := Merged([], map[])

  /** The accounts are those the order lists, each once. */
  ghost predicate Ordered(d: Merged) {
    && (forall key :: key in d.order <==> key in d.byKey)
    && (forall i, j :: 0 <= i < j < |d.order| ==> d.order[i] != d.order[j])
  }

  /** And an account's identifier is the key it is under. */
  ghost predicate WellKeyed(d: Merged) {
    && Ordered(d)
    && (forall key :: key in d.byKey && Identifier(d.byKey[key]).Some? ==> Identifier(d.byKey[key]).value == key)
  }

  /** The key an account is merged under; none when it is skipped. */
  function KeyFor(d: Merged, a: Account): Option<Scalar> {
    if Identifier(a).Some? then Identifier(a)
    else if List(a, Transactions) == [] && List(a, Tables) == [] then None
    else Some(UnidentifiedKey(|d.order|))
  }

  /** What the scalar loop leaves: present values win over absent, null, empty and zero ones. */
  function Filled(existing: map<string, Scalar>, more: map<string, Scalar>): map<string, Scalar> {
    map k | k in existing.Keys + (set f | f in more && more[f] != Null) ::
      if k in more && more[k] != Null && (k !in existing || !Truthy(existing[k])) then more[k] else existing[k]
  }

  function Combined(existing: Account, a: Account): Account {
    Account(Items(List(existing, Transactions) + List(a, Transactions)),
            Items(List(existing, Tables) + List(a, Tables)),
            Filled(existing.scalars, a.scalars))
  }

  function Opened(a: Account): Account {
    if a.tables.Absent? then a.(tables := Items([])) else a
  }

  function Put(d: Merged, key: Scalar, a: Account): Merged {
    if key in d.byKey then d.(byKey := d.byKey[key := Combined(d.byKey[key], a)])
    else Merged(d.order + [key], d.byKey[key := Opened(a)])
  }

  /** One raw entry; None is an entry that is not an object. */
  function Step(d: Merged, raw: Option<Account>): Merged {
    if raw.None? || KeyFor(d, raw.value).None? then d else Put(d, KeyFor(d, raw.value).value, raw.value)
  }

  function MergedTo(raw: seq<Option<Account>>, k: nat): Merged
    requires k <= |raw|
  {
    if k == 0 then NOTHING else Step(MergedTo(raw, k - 1), raw[k - 1])
  }

  /** The key raw entry `i` ends up under. */
  function Assigned(raw: seq<Option<Account>>, i: nat): Option<Scalar>
    requires i < |raw|
  {
    if raw[i].None? then None else KeyFor(MergedTo(raw, i), raw[i].value)
  }

  /** Merging accounts of one key gives them no other identifier. */
  lemma CombinedIdentifier(e: Account, a: Account, key: Scalar)
    requires Identifier(e).Some? ==> Identifier(e).value == key
    requires Identifier(a).Some? ==> Identifier(a).value == key
    ensures Identifier(Combined(e, a)).Some? ==> Identifier(Combined(e, a)).value == key
  {
    var c := Combined(e, a);
    assert Get(c, "iban") == Get(e, "iban") || Get(c, "iban") == Get(a, "iban");
    assert Get(c, "account_number") == Get(e, "account_number")
        || Get(c, "account_number") == Get(a, "account_number");
  }

  lemma StepWellKeyed(d: Merged, raw: Option<Account>)
    requires WellKeyed(d)
    ensures WellKeyed(Step(d, raw))
  {
    if raw.Some? && KeyFor(d, raw.value).Some? {
      var key, a := KeyFor(d, raw.value).value, raw.value;
      var after := Put(d, key, a);
      assert Identifier(Opened(a)) == Identifier(a);
      if key in d.byKey {
        CombinedIdentifier(d.byKey[key], a, key);
      }
      hide Combined, Opened, Identifier;
      assert WellKeyed(after);
    }
  }

  lemma {:induction false} MergedWellKeyed(raw: seq<Option<Account>>, k: nat)
    requires k <= |raw|
    ensures WellKeyed(MergedTo(raw, k))
  {
    if k > 0 {
      MergedWellKeyed(raw, k - 1);
      StepWellKeyed(MergedTo(raw, k - 1), raw[k - 1]);
    }
  }

  // ---- Concatenation under each key ----

  /** The lists of the raw entries assigned to a key, concatenated in order. */
  function Under(raw: seq<Option<Account>>, k: nat, key: Scalar, part: Part): seq<Record>
    requires k <= |raw|
  {
    if k == 0 then []
    else Under(raw, k - 1, key, part) + if Assigned(raw, k - 1) == Some(key) then List(raw[k - 1].value, part) else []
  }

  function At(d: Merged, key: Scalar, part: Part): seq<Record> {
    if key in d.byKey then List(d.byKey[key], part) else []
  }

  lemma StepAt(d: Merged, raw: Option<Account>, key: Scalar, part: Part)
    ensures At(Step(d, raw), key, part)
         == At(d, key, part)
            + if raw.Some? && KeyFor(d, raw.value) == Some(key) then List(raw.value, part) else []
  {
    hide Filled, Identifier, KeyFor;
  }

  /** Every key's transactions, and its tables, are the concatenation of those of all entries with that key. */
  lemma {:induction false} KeyHoldsConcatenation(raw: seq<Option<Account>>, k: nat, key: Scalar, part: Part)
    requires k <= |raw|
    ensures At(MergedTo(raw, k), key, part) == Under(raw, k, key, part)
  {
    if k > 0 {
      KeyHoldsConcatenation(raw, k - 1, key, part);
      StepAt(MergedTo(raw, k - 1), raw[k - 1], key, part);
    }
  }

  // ---- Scalars ----

  /** A value, or null when it is not truthy. */
  function Present(s: Scalar): Scalar {
    if Truthy(s) then s else Null
  }

  /** The first truthy value of a field among the entries with a key. */
  function FirstPresent(raw: seq<Option<Account>>, k: nat, key: Scalar, field: string): Scalar
    requires k <= |raw|
  {
    if k == 0 then Null
    else if FirstPresent(raw, k - 1, key, field) != Null then FirstPresent(raw, k - 1, key, field)
    else if Assigned(raw, k - 1) == Some(key) then Present(Get(raw[k - 1].value, field))
    else Null
  }

  /** The last value of a field that is not null among the entries with a key. */
  function LastNonNull(raw: seq<Option<Account>>, k: nat, key: Scalar, field: string): Scalar
    requires k <= |raw|
  {
    if k == 0 then Null
    else if Assigned(raw, k - 1) == Some(key) && Get(raw[k - 1].value, field) != Null then Get(raw[k - 1].value, field)
    else LastNonNull(raw, k - 1, key, field)
  }

  /** The first one. */
  function FirstNonNull(raw: seq<Option<Account>>, k: nat, key: Scalar, field: string): Scalar
    requires k <= |raw|
  {
    if k == 0 then Null
    else if FirstNonNull(raw, k - 1, key, field) != Null then FirstNonNull(raw, k - 1, key, field)
    else if Assigned(raw, k - 1) == Some(key) then Get(raw[k - 1].value, field)
    else Null
  }

  /** What a field holds: the first truthy value, and while there is none the last value that is not null. */
  function Surviving(raw: seq<Option<Account>>, k: nat, key: Scalar, field: string): Scalar
    requires k <= |raw|
  {
    if FirstPresent(raw, k, key, field) != Null then FirstPresent(raw, k, key, field)
    else LastNonNull(raw, k, key, field)
  }

  function FieldOf(d: Merged, key: Scalar, field: string): Scalar {
    if key in d.byKey then Get(d.byKey[key], field) else Null
  }

  /** What one more value makes of a field. */
  function Refilled(existing: Scalar, value: Scalar): Scalar {
    if value != Null && !Truthy(existing) then value else existing
  }

  lemma StepField(d: Merged, raw: Option<Account>, key: Scalar, field: string)
    ensures FieldOf(Step(d, raw), key, field)
         == if raw.Some? && KeyFor(d, raw.value) == Some(key)
            then Refilled(FieldOf(d, key, field), Get(raw.value, field)) else FieldOf(d, key, field)
  {
    hide Identifier, KeyFor;
  }

  /**
   * A field keeps the first truthy value among its key's entries. While there is none, each value that is not null
   * replaces the one before it; so a zero balance gives way to any later one.
   */
  lemma {:induction false} FirstPresentWins(raw: seq<Option<Account>>, k: nat, key: Scalar, field: string)
    requires k <= |raw|
    ensures FieldOf(MergedTo(raw, k), key, field) == Surviving(raw, k, key, field)
    ensures FirstPresent(raw, k, key, field) == Present(Surviving(raw, k, key, field))
  {
    if k > 0 {
      FirstPresentWins(raw, k - 1, key, field);
      StepField(MergedTo(raw, k - 1), raw[k - 1], key, field);
      hide Step, FieldOf, Get, KeyFor;
    }
  }

  lemma {:induction false} FirstNonNullMeaning(raw: seq<Option<Account>>, k: nat, key: Scalar, field: string)
    requires k <= |raw|
    ensures var v := FirstNonNull(raw, k, key, field);
            && (v == Null <==> LastNonNull(raw, k, key, field) == Null)
            && (Truthy(v) ==> FirstPresent(raw, k, key, field) == v)
            && (v == Null ==> FirstPresent(raw, k, key, field) == Null)
    ensures FirstPresent(raw, k, key, field) == Present(FirstPresent(raw, k, key, field))
  {
    if k > 0 {
      FirstNonNullMeaning(raw, k - 1, key, field);
      hide Get;
    }
  }

  /**
   * When the first value of a field survives the merge: exactly when it is truthy, or no entry of its key has a
   * truthy one and the last value that is not null is the same.
   */
  lemma FirstValueKeptIff(raw: seq<Option<Account>>, k: nat, key: Scalar, field: string)
    requires k <= |raw|
    ensures var v := FirstNonNull(raw, k, key, field);
            FieldOf(MergedTo(raw, k), key, field) == v
            <==> Truthy(v) || (FirstPresent(raw, k, key, field) == Null && LastNonNull(raw, k, key, field) == v)
  {
    FirstPresentWins(raw, k, key, field);
    FirstNonNullMeaning(raw, k, key, field);
  }

  /** It does get lost: a zero opening balance is replaced by whatever the account's next part says, "" as well. */
  lemma ZeroBalanceIsReplaced(later: Scalar)
    requires later != Null
    ensures var first := Account(Absent, Absent, map["iban" := Text("1"), "opening_balance" := Number(0.0)]);
            var second := Account(Absent, Absent, map["iban" := Text("1"), "opening_balance" := later]);
            FieldOf(MergedTo([Some(first), Some(second)], 2), Text("1"), "opening_balance") == later
  {
    var first := Account(Absent, Absent, map["iban" := Text("1"), "opening_balance" := Number(0.0)]);
    var second := Account(Absent, Absent, map["iban" := Text("1"), "opening_balance" := later]);
    var raw := [Some(first), Some(second)];
    StepField(NOTHING, raw[0], Text("1"), "opening_balance");
    StepField(MergedTo(raw, 1), raw[1], Text("1"), "opening_balance");
    assert Identifier(first) == Some(Text("1")) == Identifier(second);
    assert MergedTo(raw, 0) == NOTHING;
    assert MergedTo(raw, 1) == Step(NOTHING, raw[0]);
  }

  // ---- The final filter ----

  predicate Useful(a: Account) {
    || List(a, Transactions) != [] || List(a, Tables) != []
    || Get(a, "opening_balance") != Null || Get(a, "closing_balance") != Null
  }

  /** The useful accounts, in order. */
  function Kept(order: seq<Scalar>, byKey: map<Scalar, Account>): seq<Account>
    requires forall key :: key in order ==> key in byKey
  {
    if order == [] then []
    else Kept(Init(order), byKey) + if Useful(byKey[Last(order)]) then [byKey[Last(order)]] else []
  }

  function Bag(accounts: seq<Account>, part: Part): multiset<Record> {
    if accounts == [] then multiset{} else Bag(Init(accounts), part) + multiset(List(Last(accounts), part))
  }

  function RawBag(raw: seq<Option<Account>>, k: nat, part: Part): multiset<Record>
    requires k <= |raw|
  {
    if k == 0 then multiset{} else RawBag(raw, k - 1, part) + RawBagOf(raw[k - 1], part)
  }

  function KeyedBag(order: seq<Scalar>, byKey: map<Scalar, Account>, part: Part): multiset<Record>
    requires forall key :: key in order ==> key in byKey
  {
    if order == [] then multiset{}
    else KeyedBag(Init(order), byKey, part) + multiset(List(byKey[Last(order)], part))
  }

  lemma {:induction false} OtherKeysSame(
    order: seq<Scalar>, before: map<Scalar, Account>, key: Scalar, a: Account, part: Part)
    requires forall k :: k in order ==> k in before && k != key
    ensures KeyedBag(order, before[key := a], part) == KeyedBag(order, before, part)
  {
    if order != [] {
      assert forall k :: k in Init(order) ==> k in order;
      assert Last(order) in order;
      OtherKeysSame(Init(order), before, key, a, part);
    }
  }

  lemma ListsCombined(existing: Account, a: Account, part: Part)
    ensures List(Combined(existing, a), part) == List(existing, part) + List(a, part)
    ensures List(Opened(a), part) == List(a, part)
  {
  }

  lemma KeyedBagLast(order: seq<Scalar>, byKey: map<Scalar, Account>, part: Part)
    requires order != [] && forall k :: k in order ==> k in byKey
    ensures (forall k :: k in Init(order) ==> k in byKey) && Last(order) in byKey
    ensures KeyedBag(order, byKey, part)
         == KeyedBag(Init(order), byKey, part) + multiset(List(byKey[Last(order)], part))
  {
  }

  lemma {:induction false} OneKeyGrows(
    order: seq<Scalar>, before: map<Scalar, Account>, key: Scalar, a: Account, part: Part)
    requires forall k :: k in order ==> k in before
    requires forall i, j :: 0 <= i < j < |order| ==> order[i] != order[j]
    requires key in order
    ensures KeyedBag(order, before[key := Combined(before[key], a)], part)
         == KeyedBag(order, before, part) + multiset(List(a, part))
  {
    ListsCombined(before[key], a, part);
    var after := before[key := Combined(before[key], a)];
    assert Last(order) in order;
    KeyedBagLast(order, before, part);
    KeyedBagLast(order, after, part);
    hide Combined, List, KeyedBag;
    if Last(order) == key {
      OtherKeysSame(Init(order), before, key, Combined(before[key], a), part);
      BagsAssociate(KeyedBag(Init(order), before, part), List(before[key], part), List(a, part));
    } else {
      OneKeyGrows(Init(order), before, key, a, part);
      BagsCommute(KeyedBag(Init(order), before, part), multiset(List(a, part)),
                  multiset(List(before[Last(order)], part)));
    }
  }

  lemma NewKeyGrows(order: seq<Scalar>, before: map<Scalar, Account>, key: Scalar, a: Account, part: Part)
    requires forall k :: k in order ==> k in before && k != key
    ensures KeyedBag(order + [key], before[key := a], part)
         == KeyedBag(order, before, part) + multiset(List(a, part))
  {
    assert Init(order + [key]) == order;
    OtherKeysSame(order, before, key, a, part);
  }

  ghost function MergedBag(d: Merged, part: Part): multiset<Record>
    requires Ordered(d)
  {
    KeyedBag(d.order, d.byKey, part)
  }

  lemma PutBag(d: Merged, key: Scalar, a: Account, part: Part)
    requires Ordered(d)
    ensures Ordered(Put(d, key, a))
    ensures MergedBag(Put(d, key, a), part) == MergedBag(d, part) + multiset(List(a, part))
  {
    ListsCombined(a, a, part);
    hide Combined, Opened, List, KeyedBag;
    if key in d.byKey {
      OneKeyGrows(d.order, d.byKey, key, a, part);
    } else {
      NewKeyGrows(d.order, d.byKey, key, Opened(a), part);
    }
  }

  function RawBagOf(raw: Option<Account>, part: Part): multiset<Record> {
    if raw.Some? then multiset(List(raw.value, part)) else multiset{}
  }

  lemma StepBag(d: Merged, raw: Option<Account>, part: Part)
    requires Ordered(d)
    ensures Ordered(Step(d, raw))
    ensures MergedBag(Step(d, raw), part) == MergedBag(d, part) + RawBagOf(raw, part)
  {
    if raw.Some? && KeyFor(d, raw.value).Some? {
      PutBag(d, KeyFor(d, raw.value).value, raw.value, part);
    }
  }

  lemma {:induction false} MergedToBag(raw: seq<Option<Account>>, k: nat, part: Part)
    requires k <= |raw|
    ensures Ordered(MergedTo(raw, k))
    ensures MergedBag(MergedTo(raw, k), part) == RawBag(raw, k, part)
  {
    if k > 0 {
      MergedToBag(raw, k - 1, part);
      StepBag(MergedTo(raw, k - 1), raw[k - 1], part);
      hide Ordered, MergedBag, Step, RawBagOf;
    }
  }

  lemma BagSnoc(accounts: seq<Account>, a: Account, part: Part)
    ensures Bag(accounts + [a], part) == Bag(accounts, part) + multiset(List(a, part))
  {
    assert Init(accounts + [a]) == accounts;
  }

  lemma {:induction false} FilterDropsNothing(order: seq<Scalar>, byKey: map<Scalar, Account>, part: Part)
    requires forall key :: key in order ==> key in byKey
    ensures Bag(Kept(order, byKey), part) == KeyedBag(order, byKey, part)
  {
    if order != [] {
      FilterDropsNothing(Init(order), byKey, part);
      BagSnoc(Kept(Init(order), byKey), byKey[Last(order)], part);
      if !Useful(byKey[Last(order)]) {
        assert List(byKey[Last(order)], part) == [];
        assert Kept(order, byKey) == Kept(Init(order), byKey);
      }
    }
  }

  /** No two accounts have the same identifier. */
  predicate IdentifiersDistinct(accounts: seq<Account>) {
    forall i, j :: 0 <= i < j < |accounts| && Identifier(accounts[i]).Some? ==>
                     Identifier(accounts[i]) != Identifier(accounts[j])
  }

  lemma {:induction false} KeptDistinct(order: seq<Scalar>, d: Merged)
    requires WellKeyed(d) && order <= d.order
    ensures forall key :: key in order ==> key in d.byKey
    ensures IdentifiersDistinct(Kept(order, d.byKey))
    ensures forall a :: a in Kept(order, d.byKey) && Identifier(a).Some? ==> Identifier(a).value in order
  {
    assert forall key :: key in order ==> key in d.order;
    if order != [] {
      KeptDistinct(Init(order), d);
      assert forall key :: key in Init(order) ==> key != Last(order);
      assert Last(order) in order;
      var before := Kept(Init(order), d.byKey);
      assert forall i :: 0 <= i < |before| ==> before[i] in before;
    }
  }

  predicate HasAny(listing: Listing) {
    listing.Items? && listing.items != []
  }

  predicate HasBalance(a: Account, field: string) {
    field in a.scalars && a.scalars[field] != Null
  }

  lemma {:induction false} KeptMembers(order: seq<Scalar>, byKey: map<Scalar, Account>)
    requires forall key :: key in order ==> key in byKey
    ensures forall a :: a in Kept(order, byKey) <==> exists key :: key in order && byKey[key] == a && Useful(a)
  {
    if order != [] {
      var last := Last(order);
      assert order == Init(order) + [last] && last in order;
      KeptMembers(Init(order), byKey);
      hide Useful;
      forall a ensures a in Kept(order, byKey) <==> exists key :: key in order && byKey[key] == a && Useful(a) {
        if key :| key in order && byKey[key] == a && Useful(a) {
          assert key in Init(order) || key == last;
        }
      }
    }
  }

  /** In the order of the keys. */
  lemma {:induction false} KeptInOrder(a: seq<Scalar>, b: seq<Scalar>, byKey: map<Scalar, Account>)
    requires forall key :: key in a + b ==> key in byKey
    ensures (forall key :: key in a ==> key in byKey) && forall key :: key in b ==> key in byKey
    ensures Kept(a + b, byKey) == Kept(a, byKey) + Kept(b, byKey)
  {
    assert forall key :: key in a || key in b ==> key in a + b;
    if b == [] {
      assert a + b == a;
    } else {
      assert Init(a + b) == a + Init(b) && Last(a + b) == Last(b);
      KeptInOrder(a, Init(b), byKey);
      hide Useful;
    }
  }

  /** The first entry under a key is taken as it is, with an empty list of tables if it has none at all. */
  lemma FirstEntryKept(d: Merged, a: Account)
    requires KeyFor(d, a).Some? && KeyFor(d, a).value !in d.byKey
    ensures var after := Step(d, Some(a)).byKey[KeyFor(d, a).value];
            && after.transactions == a.transactions && after.scalars == a.scalars
            && after.tables == match a.tables case Absent => Items([]) case _ => a.tables
  {
    hide KeyFor;
  }

  /** A transaction, a table, or an opening or closing balance that is not null. */
  predicate HasData(a: Account) {
    HasAny(a.transactions) || HasAny(a.tables) || HasBalance(a, "opening_balance") || HasBalance(a, "closing_balance")
  }

  lemma UsefulIff(a: Account)
    ensures Useful(a) <==> HasData(a)
  {
  }

  /** The result consists of the merged accounts that have data. */
  lemma KeptIff(raw: seq<Option<Account>>, a: Account)
    ensures a in Final(raw) <==> HasData(a) && IsMerged(MergedTo(raw, |raw|), a)
  {
    hide Kept, Useful, Step, IsMerged;
    MergedWellKeyed(raw, |raw|);
    UsefulIff(a);
    KeptOfIff(MergedTo(raw, |raw|), a);
  }

  ghost predicate IsMerged(d: Merged, a: Account) {
    exists key :: key in d.byKey && d.byKey[key] == a
  }

  lemma KeptOfIff(d: Merged, a: Account)
    requires Ordered(d)
    ensures a in Kept(d.order, d.byKey) <==> Useful(a) && IsMerged(d, a)
  {
    KeptMembers(d.order, d.byKey);
    hide Kept, Useful;
  }

  /** An entry is skipped exactly when it is no object, or has neither identifier nor transaction nor table. */
  lemma SkippedIff(d: Merged, raw: Option<Account>)
    ensures Step(d, raw) == d && (raw.None? || KeyFor(d, raw.value).None?)
            <==> || raw.None?
                 || (Identifier(raw.value).None? && !HasAny(raw.value.transactions) && !HasAny(raw.value.tables))
  {
    hide Identifier;
  }

  /** The accounts keep the order in which their keys came up first: a further entry moves none and adds at the end. */
  lemma OrderStays(d: Merged, raw: Option<Account>)
    ensures d.order <= Step(d, raw).order && |Step(d, raw).order| <= |d.order| + 1
    ensures Step(d, raw).order != d.order ==> raw.Some? && KeyFor(d, raw.value) == Some(Last(Step(d, raw).order))
  {
    hide KeyFor;
  }

  function Final(raw: seq<Option<Account>>): seq<Account> {
    MergedWellKeyed(raw, |raw|);
    Kept(MergedTo(raw, |raw|).order, MergedTo(raw, |raw|).byKey)
  }

  /** No transaction and no table is lost or repeated, and no two resulting accounts have the same identifier. */
  lemma MergeConservesData(raw: seq<Option<Account>>)
    ensures forall part :: Bag(Final(raw), part) == RawBag(raw, |raw|, part)
    ensures IdentifiersDistinct(Final(raw))
  {
    var d := MergedTo(raw, |raw|);
    forall part ensures Bag(Final(raw), part) == RawBag(raw, |raw|, part) {
      MergedToBag(raw, |raw|, part);
      FilterDropsNothing(d.order, d.byKey, part);
    }
    MergedWellKeyed(raw, |raw|);
    KeptDistinct(d.order, d);
  }

  // ---- Unidentified accounts ----

  predicate Identified(raw: seq<Option<Account>>, i: nat)
    requires i < |raw|
  {
    raw[i].Some? && Identifier(raw[i].value).Some?
  }

  lemma {:induction false} SizeGrows(raw: seq<Option<Account>>, i: nat, k: nat)
    requires i <= k <= |raw|
    ensures |MergedTo(raw, i).order| <= |MergedTo(raw, k).order|
  {
    if i < k {
      SizeGrows(raw, i, k - 1);
    }
  }

  lemma {:induction false} KeyHasFirst(raw: seq<Option<Account>>, k: nat, key: Scalar) returns (first: nat)
    requires k < |raw| && Assigned(raw, k) == Some(key)
    ensures first <= k && Assigned(raw, first) == Some(key)
    ensures key !in MergedTo(raw, first).byKey
  {
    if key in MergedTo(raw, k).byKey {
      var j := KeyWasAssigned(raw, k, key);
      first := KeyHasFirst(raw, j, key);
    } else {
      first := k;
    }
  }

  lemma {:induction false} KeyWasAssigned(raw: seq<Option<Account>>, k: nat, key: Scalar) returns (j: nat)
    requires k <= |raw| && key in MergedTo(raw, k).byKey
    ensures j < k && Assigned(raw, j) == Some(key)
  {
    if Assigned(raw, k - 1) == Some(key) {
      j := k - 1;
    } else {
      j := KeyWasAssigned(raw, k - 1, key);
    }
  }

  /** An unidentified account that is not the first under its key shares it with an identified one. */
  lemma SharedKeyIsLiteral(raw: seq<Option<Account>>, i: nat, j: nat) returns (literal: nat)
    requires j < i < |raw| && Assigned(raw, i).Some? && Assigned(raw, j) == Assigned(raw, i)
    requires !Identified(raw, i) || !Identified(raw, j)
    ensures literal < |raw| && Identified(raw, literal)
    ensures Identifier(raw[literal].value) == Assigned(raw, i)
  {
    if Identified(raw, j) {
      literal := j;
    } else if Identified(raw, i) {
      literal := i;
    } else {
      var key := Assigned(raw, i).value;
      literal := KeyHasFirst(raw, j, key);
      if !Identified(raw, literal) {
        UnidentifiedKeyInjective(|MergedTo(raw, literal).order|, |MergedTo(raw, i).order|);
        SizeGrows(raw, literal + 1, i);
        assert false;
      }
    }
  }

  /** An account without identifier stays apart from all others, except exactly when one is literally named like it. */
  lemma UnidentifiedSharesIff(raw: seq<Option<Account>>, i: nat)
    requires i < |raw| && Assigned(raw, i).Some? && !Identified(raw, i)
    ensures (exists j: nat :: j < |raw| && j != i && Assigned(raw, j) == Assigned(raw, i))
       <==> (exists j: nat :: j < |raw| && Identified(raw, j) && Identifier(raw[j].value) == Assigned(raw, i))
  {
    if j: nat :| j < |raw| && j != i && Assigned(raw, j) == Assigned(raw, i) {
      var literal := SharedKeyIsLiteral(raw, Max(i, j), Min(i, j));
    }
    if j: nat :| j < |raw| && Identified(raw, j) && Identifier(raw[j].value) == Assigned(raw, i) {
      assert Assigned(raw, j) == Assigned(raw, i) && j != i;
    }
  }

  const LITERAL := Text("unidentified_1")

  lemma NamelessJoins(named: Account, nameless: Account)
    requires nameless.scalars == map[] && List(nameless, Transactions) != []
    ensures Step(Merged([LITERAL], map[LITERAL := named]), Some(nameless))
         == Merged([LITERAL], map[LITERAL := Combined(named, nameless)])
  {
    assert Decimal(1) == "1" && UnidentifiedKey(1) == LITERAL;
    hide Decimal, UnidentifiedKey, Combined;
    assert map[LITERAL := named][LITERAL := Combined(named, nameless)] == map[LITERAL := Combined(named, nameless)];
  }

  lemma OnlyOne(a: Account)
    requires Useful(a)
    ensures Kept([LITERAL], map[LITERAL := a]) == [a]
  {
    assert Init([LITERAL]) == [] && Kept([], map[LITERAL := a]) == [];
  }

  /** One does: numbered "unidentified_1", it takes in the nameless account that comes second. */
  lemma LiteralNameTakesItIn(items: seq<Record>)
    requires items != []
    ensures var named := Account(Items(items), Absent, map["account_number" := Text("unidentified_1")]);
            var nameless := Account(Items(items), Absent, map[]);
            Final([Some(named), Some(nameless)])
            == [Account(Items(items + items), Items([]), map["account_number" := Text("unidentified_1")])]
  {
    var named := Account(Items(items), Absent, map["account_number" := LITERAL]);
    var nameless := Account(Items(items), Absent, map[]);
    var raw := [Some(named), Some(nameless)];
    assert Identifier(named) == Some(LITERAL);
    assert MergedTo(raw, 0) == NOTHING;
    assert MergedTo(raw, 1) == Step(NOTHING, Some(named)) == Merged([LITERAL], map[LITERAL := Opened(named)]);
    NamelessJoins(Opened(named), nameless);
    assert Filled(named.scalars, map[]) == named.scalars;
    var both := Combined(Opened(named), nameless);
    assert both == Account(Items(items + items), Items([]), named.scalars) && Useful(both);
    hide Step, Combined, Filled, Opened, Identifier, Useful, Kept;
    assert MergedTo(raw, 2) == Merged([LITERAL], map[LITERAL := both]);
    OnlyOne(both);
  }

  // ---- The merge as the runner runs it ----

  lemma FilledByOne(existing: map<string, Scalar>, seen: map<string, Scalar>, k: string, v: Scalar)
    requires k !in seen
    ensures k in existing <==> k in Filled(existing, seen)
    ensures k in existing ==> Filled(existing, seen)[k] == existing[k]
    ensures Filled(existing, seen[k := v])
         == if v != Null && (k !in existing || !Truthy(existing[k])) then Filled(existing, seen)[k := v]
            else Filled(existing, seen)
  {
  }

  /** Copies into `existing` each non-null scalar it has no truthy value for. */
  method FillMissing(existing: map<string, Scalar>, more: map<string, Scalar>) returns (filled: map<string, Scalar>)
    ensures filled == Filled(existing, more)
  {
    filled := existing;
    var rest := more.Keys;
    ghost var seen: map<string, Scalar> := map[];
    while rest != {}
      invariant forall k :: k in more <==> k in rest || k in seen
      invariant forall k :: k in seen ==> k !in rest && seen[k] == more[k]
      invariant filled == Filled(existing, seen)
      decreases |rest|
    {
      var k :| k in rest;
      FilledByOne(existing, seen, k, more[k]);
      if more[k] != Null && (k !in filled || !Truthy(filled[k])) {
        filled := filled[k := more[k]];
      }
      seen := seen[k := more[k]];
      rest := rest - {k};
    }
    assert seen == more;
  }

  /**
   * The loop over the raw entries, filling a dictionary that remembers the order of its keys.
   * It raises exactly when some entry's identifier is no dictionary key.
   */
  method MergeAccounts(raw: seq<Option<Account>>)
    returns (raised: bool, order: seq<Scalar>, byKey: map<Scalar, Account>)
    ensures raised <==> exists entry :: entry in raw && Unhashable(entry)
    ensures !raised ==> Merged(order, byKey) == MergedTo(raw, |raw|)
  {
    hide Filled, Decimal, Truthy;
    raised, order, byKey := false, [], map[];
    for i := 0 to |raw|
      invariant !raised && forall j :: 0 <= j < i ==> !Unhashable(raw[j])
      invariant Merged(order, byKey) == MergedTo(raw, i)
    {
      if raw[i].None? {
        continue;
      }
      var a := raw[i].value;
      var number := Get(a, "account_number");
      var key := if Truthy(number) then number else Get(a, "iban");
      if Truthy(key) {
        key := AsKey(key);
        if key.Structured? {
          assert Unhashable(raw[i]);
          return true, order, byKey;
        }
      } else {
        if List(a, Transactions) == [] && List(a, Tables) == [] {
          continue;
        }
        key := UnidentifiedKey(|order|);
      }
      if key in byKey {
        var existing := byKey[key];
        var scalars := FillMissing(existing.scalars, a.scalars);
        byKey := byKey[key := Account(Items(List(existing, Transactions) + List(a, Transactions)),
                                      Items(List(existing, Tables) + List(a, Tables)), scalars)];
      } else {
        order := order + [key];
        byKey := byKey[key := if a.tables.Absent? then a.(tables := Items([])) else a];
      }
    }
  }

  /** The accounts with useful data, in the order of their keys. */
  method KeepUseful(order: seq<Scalar>, byKey: map<Scalar, Account>) returns (accounts: seq<Account>)
    requires forall key :: key in order ==> key in byKey
    ensures accounts == Kept(order, byKey)
  {
    hide Useful;
    accounts := [];
    for i := 0 to |order|
      invariant accounts == Kept(order[..i], byKey)
    {
      assert Init(order[..i + 1]) == order[..i];
      if Useful(byKey[order[i]]) {
        accounts := accounts + [byKey[order[i]]];
      }
    }
    assert order[..|order|] == order;
  }

  /** A document with at most one account is left as it is. */
  method DeduplicateAccounts(raw: seq<Option<Account>>) returns (raised: bool, accounts: seq<Option<Account>>)
    ensures |raw| <= 1 ==> !raised && accounts == raw
    ensures |raw| > 1 ==> (raised <==> exists entry :: entry in raw && Unhashable(entry))
    ensures |raw| > 1 && !raised ==>
              accounts == seq(|Final(raw)|, i requires 0 <= i < |Final(raw)| => Some(Final(raw)[i]))
  {
    if |raw| <= 1 {
      return false, raw;
    }
    var order, byKey;
    raised, order, byKey := MergeAccounts(raw);
    if raised {
      return true, [];
    }
    MergedWellKeyed(raw, |raw|);
    var kept := KeepUseful(order, byKey);
    accounts := seq(|kept|, i requires 0 <= i < |kept| => Some(kept[i]));
  }
}
