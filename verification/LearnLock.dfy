/** The layout signature and the per-layout lock table. */
module LearnLock {
  import opened Common
  import opened Text
  import opened Templates

  const SIGNATURE_BLOCK_SAMPLE := 40
  const SEPARATOR := "\U{1}"

  function HeaderParts(tables: seq<RawTable>): seq<string> {
    if tables == [] then []
    else HeaderParts(Init(tables))
         + if Last(tables).headers == [] then [] else [Join("|", CanonicalHeaders(Last(tables).headers))]
  }

  function CanonicalHeaders(headers: seq<string>): seq<string> {
    seq(|headers|, i requires 0 <= i < |headers| => Lower(Strip(headers[i])))
  }

  /** The non-blank block texts, stripped and lowered, in order. */
  function SampledTexts(texts: seq<string>): seq<string> {
    if texts == [] then []
    else
      var t := Lower(Strip(Last(texts)));
      SampledTexts(Init(texts)) + if t == "" then [] else [t]
  }

  function Leading(parts: seq<string>, n: nat): seq<string> {
    if |parts| <= n then parts else parts[..n]
  }

  function SignatureParts(doc: Document, theme: Option<string>): seq<string> {
    [if theme.Some? && theme.value != "" then theme.value else "_"]
    + HeaderParts(doc.tables) + Leading(SampledTexts(doc.blockTexts), SIGNATURE_BLOCK_SAMPLE)
  }

  function Signature(hash: string -> string, doc: Document, theme: Option<string>): string {
    hash(Join(SEPARATOR, SignatureParts(doc, theme)))
  }

  method ComputeLayoutSignature(hash: string -> string, doc: Document, theme: Option<string>)
    returns (signature: string)
    ensures signature == Signature(hash, doc, theme)
  {
    hide Join, Lower, Strip, CanonicalHeaders;
    var parts := [if theme.Some? && theme.value != "" then theme.value else "_"];
    ghost var first := parts;
    for i := 0 to |doc.tables|
      invariant parts == first + HeaderParts(doc.tables[..i])
    {
      assert Init(doc.tables[..i + 1]) == doc.tables[..i];
      var headers := doc.tables[i].headers;
      if headers != [] {
        parts := parts + [Join("|", CanonicalHeaders(headers))];
      }
    }
    assert doc.tables[..|doc.tables|] == doc.tables;
    ghost var fixedParts := parts;
    var sampled, i := 0, 0;
    while i < |doc.blockTexts| && sampled < SIGNATURE_BLOCK_SAMPLE
      invariant i <= |doc.blockTexts| && sampled <= SIGNATURE_BLOCK_SAMPLE
      invariant sampled == |SampledTexts(doc.blockTexts[..i])|
      invariant parts == fixedParts + SampledTexts(doc.blockTexts[..i])
    {
      assert Init(doc.blockTexts[..i + 1]) == doc.blockTexts[..i];
      var text := Lower(Strip(doc.blockTexts[i]));
      if text != "" {
        parts := parts + [text];
        sampled := sampled + 1;
      }
      i := i + 1;
    }
    SampledPrefix(doc.blockTexts, i);
    assert doc.blockTexts[..|doc.blockTexts|] == doc.blockTexts;
    assert parts == SignatureParts(doc, theme);
    signature := hash(Join(SEPARATOR, parts));
  }

  lemma {:induction false} SampledPrefix(texts: seq<string>, k: nat)
    requires k <= |texts|
    ensures SampledTexts(texts[..k]) <= SampledTexts(texts)
    decreases |texts|
  {
    if k == |texts| {
      assert texts[..k] == texts;
    } else {
      assert Init(texts)[..k] == texts[..k];
      SampledPrefix(Init(texts), k);
    }
  }

  // ---- When two documents share a signature ----

  /** A hash without collisions, which is what SHA-256 stands in for. */
  ghost predicate Injective(hash: string -> string) {
    forall a, b :: hash(a) == hash(b) ==> a == b
  }

  predicate Lacks(s: string, c: char) {
    forall i :: 0 <= i < |s| ==> s[i] != c
  }

  predicate AllLack(parts: seq<string>, c: char) {
    forall i :: 0 <= i < |parts| ==> Lacks(parts[i], c)
  }

  lemma JoinCons(c: char, parts: seq<string>)
    requires |parts| >= 2
    ensures Join([c], parts) == parts[0] + [c] + Join([c], parts[1..])
  {
  }

  /** The first separator ends the first part. */
  lemma FirstPartEqual(c: char, x: string, rest: string, y: string, rest': string)
    requires Lacks(x, c) && Lacks(y, c) && x + [c] + rest == y + [c] + rest'
    ensures x == y && rest == rest'
  {
    var s := x + [c] + rest;
    assert s[|x|] == c && (y + [c] + rest')[|y|] == c;
    assert forall i :: 0 <= i < |x| ==> s[i] == x[i];
    assert forall i :: 0 <= i < |y| ==> (y + [c] + rest')[i] == y[i];
    assert |x| == |y|;
    assert x == s[..|x|] == y && rest == s[|x| + 1..] == rest';
  }

  lemma SeparatorInside(c: char, x: string, parts: seq<string>)
    requires Lacks(x, c) && |parts| >= 2
    ensures x != Join([c], parts)
  {
    JoinCons(c, parts);
    assert Join([c], parts)[|parts[0]|] == c;
  }

  /** Non-empty lists of parts that do not contain the separator are told apart by joining them. */
  lemma {:induction false} JoinInjective(c: char, a: seq<string>, b: seq<string>)
    requires a != [] && b != [] && AllLack(a, c) && AllLack(b, c) && Join([c], a) == Join([c], b)
    ensures a == b
  {
    hide Lacks;
    if |a| == 1 && |b| == 1 {
    } else if |a| == 1 {
      SeparatorInside(c, a[0], b);
    } else if |b| == 1 {
      SeparatorInside(c, b[0], a);
    } else {
      JoinCons(c, a);
      JoinCons(c, b);
      FirstPartEqual(c, a[0], Join([c], a[1..]), b[0], Join([c], b[1..]));
      JoinInjective(c, a[1..], b[1..]);
      assert a == [a[0]] + a[1..] && b == [b[0]] + b[1..];
    }
  }

  /** Lower-casing and stripping bring in no control character. */
  lemma LowerLacks(s: string, c: char)
    requires Lacks(s, c) && c < 'A'
    ensures Lacks(Lower(s), c)
  {
  }

  lemma {:induction false} StripLeftLacks(s: string, c: char)
    requires Lacks(s, c)
    ensures Lacks(StripLeft(s), c)
  {
    if s != "" && IsSpace(s[0]) {
      StripLeftLacks(s[1..], c);
    }
  }

  lemma {:induction false} StripRightLacks(s: string, c: char)
    requires Lacks(s, c)
    ensures Lacks(StripRight(s), c)
  {
    if s != "" && IsSpace(Last(s)) {
      StripRightLacks(Init(s), c);
    }
  }

  lemma StripLacks(s: string, c: char)
    requires Lacks(s, c)
    ensures Lacks(Strip(s), c)
  {
    StripLeftLacks(s, c);
    StripRightLacks(StripLeft(s), c);
  }

  lemma {:induction false} JoinLacks(c: char, parts: seq<string>, sep: string)
    requires AllLack(parts, c) && Lacks(sep, c)
    ensures Lacks(Join(sep, parts), c)
  {
    if |parts| > 1 {
      JoinLacks(c, parts[1..], sep);
    }
  }

  lemma HeaderLineLacks(headers: seq<string>, c: char)
    requires AllLack(headers, c) && c < 'A'
    ensures Lacks(Join("|", CanonicalHeaders(headers)), c)
  {
    var canonical := CanonicalHeaders(headers);
    forall i | 0 <= i < |canonical| ensures Lacks(canonical[i], c) {
      StripLacks(headers[i], c);
      LowerLacks(Strip(headers[i]), c);
    }
    hide Lacks;
    JoinLacks(c, canonical, "|");
  }

  const UNIT := '\U{1}'

  /** No header cell, sampled text or theme contains the separator. */
  ghost predicate SeparatorFree(doc: Document, theme: Option<string>) {
    && (forall t :: t in doc.tables ==> AllLack(t.headers, UNIT))
    && AllLack(doc.blockTexts, UNIT)
    && (theme.Some? ==> Lacks(theme.value, UNIT))
  }

  lemma {:induction false} HeaderPartsLack(tables: seq<RawTable>)
    requires forall t :: t in tables ==> AllLack(t.headers, UNIT)
    ensures AllLack(HeaderParts(tables), UNIT)
  {
    if tables != [] {
      HeaderPartsLack(Init(tables));
      assert Last(tables) in tables;
      HeaderLineLacks(Last(tables).headers, UNIT);
      hide Lacks;
    }
  }

  lemma {:induction false} SampledTextsLack(texts: seq<string>)
    requires AllLack(texts, UNIT)
    ensures AllLack(SampledTexts(texts), UNIT)
  {
    if texts != [] {
      SampledTextsLack(Init(texts));
      StripLacks(Last(texts), UNIT);
      LowerLacks(Strip(Last(texts)), UNIT);
      hide Lacks;
    }
  }

  lemma PartsLack(doc: Document, theme: Option<string>)
    requires SeparatorFree(doc, theme)
    ensures AllLack(SignatureParts(doc, theme), UNIT)
  {
    HeaderPartsLack(doc.tables);
    SampledTextsLack(doc.blockTexts);
    assert Lacks("_", UNIT);
    hide Lacks, HeaderParts, SampledTexts;
  }

  function ThemePart(theme: Option<string>): string {
    if theme.Some? && theme.value != "" then theme.value else "_"
  }

  /** The header lines of the tables, then the first texts, in one list. */
  function Scaffolding(doc: Document): seq<string> {
    HeaderParts(doc.tables) + Leading(SampledTexts(doc.blockTexts), SIGNATURE_BLOCK_SAMPLE)
  }

  /**
   * Exactly when two documents share a signature: the same theme, where none counts as "_", and the same list of
   * header lines followed by texts. Where the header lines end is not part of it.
   */
  lemma SharedSignatureIff(
    hash: string -> string, d: Document, theme: Option<string>, d': Document, theme': Option<string>)
    requires Injective(hash) && SeparatorFree(d, theme) && SeparatorFree(d', theme')
    ensures Signature(hash, d, theme) == Signature(hash, d', theme')
            <==> ThemePart(theme) == ThemePart(theme') && Scaffolding(d) == Scaffolding(d')
  {
    var parts, parts' := SignatureParts(d, theme), SignatureParts(d', theme');
    assert parts == [ThemePart(theme)] + Scaffolding(d) && parts' == [ThemePart(theme')] + Scaffolding(d');
    PartsLack(d, theme);
    PartsLack(d', theme');
    hide SignatureParts, Scaffolding, ThemePart;
    assert SEPARATOR == [UNIT];
    if Signature(hash, d, theme) == Signature(hash, d', theme') {
      JoinInjective(UNIT, parts, parts');
      assert parts[0] == parts'[0] && parts[1..] == parts'[1..];
      assert parts[1..] == Scaffolding(d) && parts'[1..] == Scaffolding(d');
    }
  }

  /** The canonical headers of the tables that have any. */
  function HeaderRows(tables: seq<RawTable>): seq<seq<string>> {
    if tables == [] then []
    else HeaderRows(Init(tables)) + if Last(tables).headers == [] then [] else [CanonicalHeaders(Last(tables).headers)]
  }

  ghost predicate PipeFree(doc: Document) {
    forall t :: t in doc.tables ==> AllLack(t.headers, '|')
  }

  function Lines(rows: seq<seq<string>>): seq<string> {
    seq(|rows|, i requires 0 <= i < |rows| => Join("|", rows[i]))
  }

  lemma LinesSnoc(rows: seq<seq<string>>, row: seq<string>)
    ensures Lines(rows + [row]) == Lines(rows) + [Join("|", row)]
  {
  }

  predicate Splittable(rows: seq<seq<string>>) {
    forall i :: 0 <= i < |rows| ==> rows[i] != [] && AllLack(rows[i], '|')
  }

  lemma CanonicalLacksPipe(headers: seq<string>)
    requires AllLack(headers, '|')
    ensures AllLack(CanonicalHeaders(headers), '|')
  {
    var canonical := CanonicalHeaders(headers);
    forall i | 0 <= i < |canonical| ensures Lacks(canonical[i], '|') {
      StripLacks(headers[i], '|');
      assert forall k :: 0 <= k < |Strip(headers[i])| ==> LowerChar(Strip(headers[i])[k]) != '|';
    }
  }

  lemma {:induction false} HeaderPartsAreLines(tables: seq<RawTable>)
    ensures HeaderParts(tables) == Lines(HeaderRows(tables))
    ensures (forall t :: t in tables ==> AllLack(t.headers, '|')) ==> Splittable(HeaderRows(tables))
  {
    if tables != [] {
      HeaderPartsAreLines(Init(tables));
      var last := Last(tables);
      assert tables == Init(tables) + [last];
      if last.headers != [] {
        LinesSnoc(HeaderRows(Init(tables)), CanonicalHeaders(last.headers));
        if AllLack(last.headers, '|') {
          CanonicalLacksPipe(last.headers);
        }
      }
      assert last in tables && forall t :: t in Init(tables) ==> t in tables;
      hide AllLack, CanonicalHeaders;
    }
  }

  lemma LinesEqual(a: seq<seq<string>>, b: seq<seq<string>>)
    requires |a| == |b| && Splittable(a) && Splittable(b) && Lines(a) == Lines(b)
    ensures a == b
  {
    forall i | 0 <= i < |a| ensures a[i] == b[i] {
      assert Lines(a)[i] == Lines(b)[i];
      JoinInjective('|', a[i], b[i]);
    }
  }

  /**
   * The promise that structurally different documents do not collide holds for as many header rows on both sides
   * and cells free of the cell separator: then headers and texts both agree.
   */
  lemma SameStructureIff(
    hash: string -> string, d: Document, theme: Option<string>, d': Document, theme': Option<string>)
    requires Injective(hash) && SeparatorFree(d, theme) && SeparatorFree(d', theme') && PipeFree(d) && PipeFree(d')
    requires |HeaderRows(d.tables)| == |HeaderRows(d'.tables)|
    ensures Signature(hash, d, theme) == Signature(hash, d', theme')
            <==> && ThemePart(theme) == ThemePart(theme') && HeaderRows(d.tables) == HeaderRows(d'.tables)
                 && Leading(SampledTexts(d.blockTexts), SIGNATURE_BLOCK_SAMPLE)
                    == Leading(SampledTexts(d'.blockTexts), SIGNATURE_BLOCK_SAMPLE)
  {
    SharedSignatureIff(hash, d, theme, d', theme');
    HeaderPartsAreLines(d.tables);
    HeaderPartsAreLines(d'.tables);
    var a, b := HeaderRows(d.tables), HeaderRows(d'.tables);
    var texts := Leading(SampledTexts(d.blockTexts), SIGNATURE_BLOCK_SAMPLE);
    var texts' := Leading(SampledTexts(d'.blockTexts), SIGNATURE_BLOCK_SAMPLE);
    hide Signature, ThemePart, HeaderRows, HeaderParts, SampledTexts, Leading, Splittable;
    if Scaffolding(d) == Scaffolding(d') {
      assert Lines(a) == Scaffolding(d)[..|a|] && Lines(b) == Scaffolding(d')[..|a|];
      assert texts == Scaffolding(d)[|a|..] && texts' == Scaffolding(d')[|a|..];
      LinesEqual(a, b);
    }
  }

  /** Without the first condition it fails: a one-column table and a line of text with its wording collide. */
  lemma HeadersAndTextConflated(hash: string -> string, h: string, rows: seq<Row>, theme: Option<string>)
    requires Lower(Strip(h)) != ""
    ensures Signature(hash, Document([], [RawTable([h], rows, None)], []), theme)
         == Signature(hash, Document([], [], [h]), theme)
  {
    OneHeader(h, rows);
    OneText(h);
    var first := [ThemePart(theme)];
    assert first + [Lower(Strip(h))] + [] == first + [] + [Lower(Strip(h))];
  }

  lemma AlreadyCanonical(s: string)
    requires s != "" && !IsSpace(s[0]) && !IsSpace(Last(s))
    requires forall i :: 0 <= i < |s| ==> LowerChar(s[i]) == s[i]
    ensures Lower(Strip(s)) == s
  {
    assert Strip(s) == s;
  }

  /** Without the second it fails as well: one column headed "a|b" and two columns headed "a" and "b" collide. */
  lemma ColumnsConflated(hash: string -> string, rows: seq<Row>, rows': seq<Row>, theme: Option<string>)
    ensures Signature(hash, Document([], [RawTable(["a|b"], rows, None)], []), theme)
         == Signature(hash, Document([], [RawTable(["a", "b"], rows', None)], []), theme)
  {
    var one, two := RawTable(["a|b"], rows, None), RawTable(["a", "b"], rows', None);
    assert Init([one]) == [] && Init([two]) == [];
    AlreadyCanonical("a|b");
    AlreadyCanonical("a");
    AlreadyCanonical("b");
    hide Lower, Strip;
    assert CanonicalHeaders(["a|b"]) == ["a|b"];
    assert CanonicalHeaders(["a", "b"]) == ["a", "b"];
    assert Join("|", ["a", "b"]) == "a" + "|" + Join("|", ["b"]) == "a|b";
    assert HeaderParts([one]) == ["a|b"] == HeaderParts([two]);
  }

  lemma OneHeader(h: string, rows: seq<Row>)
    ensures HeaderParts([RawTable([h], rows, None)]) == [Lower(Strip(h))]
  {
    assert Init([RawTable([h], rows, None)]) == [];
    assert CanonicalHeaders([h]) == [Lower(Strip(h))];
  }

  lemma OneText(text: string)
    requires Lower(Strip(text)) != ""
    ensures SampledTexts([text]) == [Lower(Strip(text))]
  {
    assert Init([text]) == [];
  }

  lemma {:induction false} SampledAppend(a: seq<string>, b: seq<string>)
    ensures SampledTexts(a + b) == SampledTexts(a) + SampledTexts(b)
  {
    if b == [] {
      assert a + b == a;
    } else {
      var init, last := Init(b), Last(b);
      assert b == init + [last] && a + b == (a + init) + [last];
      SampledAppend(a, init);
      SampledSnoc(a + init, last);
      SampledSnoc(init, last);
      hide SampledTexts;
    }
  }

  lemma SampledSnoc(texts: seq<string>, text: string)
    ensures SampledTexts(texts + [text])
         == SampledTexts(texts) + if Lower(Strip(text)) == "" then [] else [Lower(Strip(text))]
  {
    assert Init(texts + [text]) == texts;
  }

  /** The number of texts that are not blank. */
  function Written(texts: seq<string>): nat {
    if texts == [] then 0 else Written(Init(texts)) + if Strip(Last(texts)) == "" then 0 else 1
  }

  lemma {:induction false} WrittenAreSampled(texts: seq<string>)
    ensures |SampledTexts(texts)| == Written(texts)
  {
    if texts != [] {
      WrittenAreSampled(Init(texts));
    }
  }

  /**
   * Only the first forty texts that are not blank count: those after them can be anything. Up to there each counts,
   * for a hash without collisions: one text more makes another signature.
   */
  lemma FirstFortyCount(hash: string -> string, doc: Document, theme: Option<string>, more: seq<string>)
    ensures var longer := doc.(blockTexts := doc.blockTexts + more);
      && (Written(doc.blockTexts) >= 40 ==> Signature(hash, longer, theme) == Signature(hash, doc, theme))
      && (Injective(hash) && SeparatorFree(doc, theme) && SeparatorFree(longer, theme)
          && Written(doc.blockTexts) < 40 && Written(more) > 0 ==>
            Signature(hash, longer, theme) != Signature(hash, doc, theme))
  {
    var longer := doc.(blockTexts := doc.blockTexts + more);
    SampledAppend(doc.blockTexts, more);
    WrittenAreSampled(doc.blockTexts);
    WrittenAreSampled(more);
    hide SampledTexts, HeaderParts, Join, SeparatorFree, Written;
    var texts := SampledTexts(doc.blockTexts);
    if |texts| >= 40 {
      assert (texts + SampledTexts(more))[..40] == texts[..40];
      assert Leading(texts + SampledTexts(more), 40) == Leading(texts, 40);
      assert SignatureParts(longer, theme) == SignatureParts(doc, theme);
    } else if Injective(hash) && SeparatorFree(doc, theme) && SeparatorFree(longer, theme) && |SampledTexts(more)| > 0 {
      SharedSignatureIff(hash, longer, theme, doc, theme);
      assert |Scaffolding(longer)| > |Scaffolding(doc)|;
    }
  }

  /** Each table with headers gives one line: its cells, stripped and lowered, with a bar between any two. */
  lemma HeaderLine(tables: seq<RawTable>, t: RawTable, first: string, second: string)
    ensures HeaderParts(tables + [t.(headers := [])]) == HeaderParts(tables)
    ensures HeaderParts(tables + [t.(headers := [first, second])])
         == HeaderParts(tables) + [Lower(Strip(first)) + "|" + Lower(Strip(second))]
  {
    assert Init(tables + [t.(headers := [])]) == tables;
    assert Init(tables + [t.(headers := [first, second])]) == tables;
    var canonical := CanonicalHeaders([first, second]);
    assert canonical == [Lower(Strip(first)), Lower(Strip(second))] && canonical[1..] == [canonical[1]];
    hide Lower, Strip;
    assert Join("|", canonical) == canonical[0] + "|" + Join("|", canonical[1..]);
  }

  // ---- The lock table ----

  type LockId = nat

  /** One lock per key, created on first use and never replaced. */
  datatype LockTable = LockTable(locks: map<string, LockId>, next: LockId)

  function WithLock(t: LockTable, key: string): LockTable {
    if key in t.locks then t else LockTable(t.locks[key := t.next], t.next + 1)
  }

  function Key(tenant: string, signature: string): string {
    tenant + ":" + signature
  }

  /** Tenants never share a lock: for signatures without a colon, as digests are, keys differ if either part does. */
  lemma KeysApart(tenant: string, signature: string, tenant': string, signature': string)
    requires Lacks(signature, ':') && Lacks(signature', ':')
    ensures Key(tenant, signature) == Key(tenant', signature') <==> tenant == tenant' && signature == signature'
  {
    var k, k' := Key(tenant, signature), Key(tenant', signature');
    if k == k' {
      assert k[|tenant|] == ':' && k'[|tenant'|] == ':';
      assert forall i :: 0 <= i < |signature| ==> k[|tenant| + 1 + i] == signature[i];
      assert forall i :: 0 <= i < |signature'| ==> k'[|tenant'| + 1 + i] == signature'[i];
      assert |tenant| == |tenant'|;
      assert tenant == k[..|tenant|] && tenant' == k'[..|tenant'|];
      assert signature == k[|tenant| + 1..] && signature' == k'[|tenant'| + 1..];
    }
  }

  /** One lock for each key, on first use: no other key has it, and nothing given out before changes. */
  lemma LockMeaning(t: LockTable, key: string)
    requires forall k :: k in t.locks ==> t.locks[k] < t.next
    ensures var after := WithLock(t, key);
      && after.locks.Keys == t.locks.Keys + {key} && (forall k :: k in t.locks ==> after.locks[k] == t.locks[k])
      && (key !in t.locks ==> forall k :: k in t.locks ==> after.locks[k] != after.locks[key])
      && (forall k :: k in after.locks ==> after.locks[k] < after.next)
  {
  }

  class LearnLock {
    var locks: map<string, LockId>
    var next: LockId

    function State(): LockTable
      reads this
    {
      LockTable(locks, next)
    }

    constructor ()
      ensures State() == LockTable(map[], 0)
    {
      locks, next := map[], 0;
    }

    method LockFor(key: string) returns (id: LockId)
      modifies this
      ensures State() == WithLock(old(State()), key)
      ensures key in locks && id == locks[key]
    {
      if key !in locks {
        locks, next := locks[key := next], next + 1;
      }
      id := locks[key];
    }
  }
}
