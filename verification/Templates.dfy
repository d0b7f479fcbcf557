/** Template-driven extraction: field anchors, header matching, and the clean-extraction test. */
module Templates {
  import opened Common
  import opened Text

  datatype FieldAnchor = FieldAnchor(
    fieldName: string, labelPattern: string, valuePattern: string, normaliser: string, required: bool)

  datatype TableAnchor = TableAnchor(
    tableType: string, headerSignature: seq<string>, minColumns: nat, amountColumn: Option<nat>)

  datatype Source = HandAuthored | VlmDiscovered

  datatype Template = Template(
    theme: string, documentTypeLabel: string, institution: string,
    fieldAnchors: seq<FieldAnchor>, tableAnchors: seq<TableAnchor>,
    source: Source, version: nat, fingerprintKey: string)

  /** One line of page text, as the line builder hands it to the matcher. */
  datatype Segment = Segment(text: string, page: int)

  datatype Row = Cells(cells: seq<string>) | NotAList

  datatype RawTable = RawTable(headers: seq<string>, rows: seq<Row>, tableId: Option<string>)

  datatype Document = Document(segments: seq<Segment>, tables: seq<RawTable>, blockTexts: seq<string>)

  datatype Field = Field(value: string, originalString: string, page: int)

  datatype Table = Table(tableId: string, tableType: string, headers: seq<string>, rows: seq<seq<string>>)

  datatype Abstention = PatternNotFound(field: string) | TableNotFound(tableId: string)

  datatype Extraction = Extraction(fields: map<string, Field>, tables: seq<Table>, abstentions: seq<Abstention>)

  /** The result of a search; `text` is None when the group that holds the value took no part in the match. */
  datatype Match = NoMatch | Matched(text: Option<string>)

  /**
   * The foreign text functions: deterministic, otherwise arbitrary. A pattern that does not compile raises, as
   * does a normaliser that gives None and any normaliser applied to a group that took no part.
   */
  datatype Engine = Engine(
    compiles: string -> bool,
    search: (string, string) -> Match,
    fullMatch: (string, string) -> bool,
    escape: string -> string,
    normalise: (string, string) -> Option<string>)

  function FingerprintKey(theme: string, institution: string, docType: string): string {
    theme + "::" + Underscored(institution) + "::" + Underscored(docType)
  }

  function Underscored(s: string): string {
    var t := Canonical(s);
    seq(|t|, i requires 0 <= i < |t| => if t[i] == ' ' then '_' else t[i])
  }

  /** In lower case, without outer blanks, and with underscores for the others. */
  lemma UnderscoredMeaning(s: string, i: nat)
    requires i < |Canonical(s)|
    ensures |Underscored(s)| == |Canonical(s)|
    ensures Underscored(s)[i] == if Canonical(s)[i] == ' ' then '_' else Canonical(s)[i]
  {
  }

  // ---- Header matching ----

  predicate HeadersClose(expected: string, actual: string) {
    var e, a := Canonical(expected), Canonical(actual);
    e == a || Within(e, a) || Within(a, e)
  }

  predicate HasCloseHeader(expected: string, actual: seq<string>) {
    exists j | 0 <= j < |actual| :: HeadersClose(expected, actual[j])
  }

  /** The number of expected headers that some actual header is close to. */
  function Hits(expected: seq<string>, actual: seq<string>): nat {
    if expected == [] then 0
    else Hits(Init(expected), actual) + if HasCloseHeader(Last(expected), actual) then 1 else 0
  }

  function HeaderSignatureMatch(expected: seq<string>, actual: seq<string>): real {
    if expected == [] then 0.0 else Hits(expected, actual) as real / |expected| as real
  }

  /** The extractor's own score, computed by nested loops, is the signature score on every input. */
  method HeaderMatchScore(expected: seq<string>, actual: seq<string>) returns (score: real)
    ensures score == HeaderSignatureMatch(expected, actual)
  {
    if |expected| == 0 {
      return 0.0;
    }
    var matches := 0;
    for i := 0 to |expected|
      invariant matches == Hits(expected[..i], actual)
    {
      assert Init(expected[..i + 1]) == expected[..i];
      for j := 0 to |actual|
        invariant forall k :: 0 <= k < j ==> !HeadersClose(expected[i], actual[k])
        invariant matches == Hits(expected[..i], actual)
      {
        if HeadersClose(expected[i], actual[j]) {
          matches := matches + 1;
          break;
        }
      }
      assert matches == Hits(expected[..i + 1], actual);
    }
    assert expected[..|expected|] == expected;
    score := matches as real / |expected| as real;
  }

  predicate SignatureAccepts(signature: seq<string>, t: RawTable) {
    t.headers != [] && HeaderSignatureMatch(signature, t.headers) >= 0.6
  }

  /** The rows of every table whose headers reach the acceptance score, in document order. */
  function StitchedRows(tables: seq<RawTable>, signature: seq<string>): seq<Row> {
    if tables == [] then []
    else StitchedRows(Init(tables), signature)
         + if SignatureAccepts(signature, Last(tables)) then Last(tables).rows else []
  }

  method StitchTableRows(doc: Document, anchor: TableAnchor) returns (rows: seq<Row>)
    ensures rows == StitchedRows(doc.tables, anchor.headerSignature)
  {
    rows := [];
    for i := 0 to |doc.tables|
      invariant rows == StitchedRows(doc.tables[..i], anchor.headerSignature)
    {
      assert Init(doc.tables[..i + 1]) == doc.tables[..i];
      if SignatureAccepts(anchor.headerSignature, doc.tables[i]) {
        rows := rows + doc.tables[i].rows;
      }
    }
    assert doc.tables[..|doc.tables|] == doc.tables;
  }

  lemma StitchedSnoc(tables: seq<RawTable>, t: RawTable, signature: seq<string>)
    ensures StitchedRows(tables + [t], signature)
         == StitchedRows(tables, signature) + if SignatureAccepts(signature, t) then t.rows else []
  {
    assert Init(tables + [t]) == tables;
  }

  /** In document order: first the rows of the earlier tables, then those of the later ones. */
  lemma {:induction false} StitchedInOrder(a: seq<RawTable>, b: seq<RawTable>, signature: seq<string>)
    ensures StitchedRows(a + b, signature) == StitchedRows(a, signature) + StitchedRows(b, signature)
  {
    if b == [] {
      assert a + b == a;
    } else {
      var init, last := Init(b), Last(b);
      assert b == init + [last] && a + b == (a + init) + [last];
      StitchedInOrder(a, init, signature);
      StitchedSnoc(a + init, last, signature);
      StitchedSnoc(init, last, signature);
      hide StitchedRows, SignatureAccepts;
    }
  }

  // ---- Table lookup ----

  datatype Best = Best(table: Option<RawTable>, score: real)

  /** The first table with the highest header score, if any scores above zero. */
  function BestMatch(tables: seq<RawTable>, expected: seq<string>): Best {
    if tables == [] then Best(None, 0.0)
    else
      var prior, t := BestMatch(Init(tables), expected), Last(tables);
      if t.headers != [] && HeaderSignatureMatch(expected, t.headers) > prior.score
      then Best(Some(t), HeaderSignatureMatch(expected, t.headers))
      else prior
  }

  datatype TableLookup = FoundTable(table: Table) | MissingTable(abstention: Abstention)

  function KeptRows(rows: seq<Row>): seq<seq<string>> {
    if rows == [] then []
    else (if rows[0].Cells? then [rows[0].cells] else []) + KeptRows(rows[1..])
  }

  function LookupTable(tables: seq<RawTable>, expected: seq<string>, tableType: string): TableLookup {
    var best := BestMatch(tables, expected);
    if best.table.Some? && best.score >= 0.6 then
      var t := best.table.value;
      FoundTable(Table(if t.tableId.Some? then t.tableId.value else tableType + "_0",
                       tableType, t.headers, KeptRows(t.rows)))
    else MissingTable(TableNotFound(tableType + "_not_found"))
  }

  method ExtractTableByHeader(doc: Document, expected: seq<string>, tableType: string) returns (r: TableLookup)
    ensures r == LookupTable(doc.tables, expected, tableType)
  {
    var bestMatch: Option<RawTable>, bestScore := None, 0.0;
    for i := 0 to |doc.tables|
      invariant Best(bestMatch, bestScore) == BestMatch(doc.tables[..i], expected)
    {
      assert Init(doc.tables[..i + 1]) == doc.tables[..i];
      var t := doc.tables[i];
      if t.headers == [] {
        continue;
      }
      var score := HeaderMatchScore(expected, t.headers);
      if score > bestScore {
        bestScore, bestMatch := score, Some(t);
      }
    }
    assert doc.tables[..|doc.tables|] == doc.tables;
    if bestMatch.Some? && bestScore >= 0.6 {
      var t := bestMatch.value;
      var rows := KeptRows(t.rows);
      r := FoundTable(Table(if t.tableId.Some? then t.tableId.value else tableType + "_0",
                            tableType, t.headers, rows));
    } else {
      r := MissingTable(TableNotFound(tableType + "_not_found"));
    }
  }

  /** The lookup finds a table exactly when stitching with the same signature accepts some table. */
  lemma {:induction false} BestMatchIsMaximal(tables: seq<RawTable>, expected: seq<string>)
    ensures var b := BestMatch(tables, expected);
      && 0.0 <= b.score
      && (b.table.Some? <==> b.score > 0.0)
      && (b.table.Some? ==> b.table.value in tables && b.table.value.headers != []
                            && b.score == HeaderSignatureMatch(expected, b.table.value.headers))
      && forall t :: t in tables && t.headers != [] ==> HeaderSignatureMatch(expected, t.headers) <= b.score
  {
    if tables != [] {
      BestMatchIsMaximal(Init(tables), expected);
      assert tables == Init(tables) + [Last(tables)];
    }
  }

  lemma LookupAgreesWithStitch(tables: seq<RawTable>, expected: seq<string>, tableType: string)
    ensures LookupTable(tables, expected, tableType).FoundTable?
            <==> exists t :: t in tables && SignatureAccepts(expected, t)
  {
    BestMatchIsMaximal(tables, expected);
    var b := BestMatch(tables, expected);
    if b.table.Some? && b.score >= 0.6 {
      assert SignatureAccepts(expected, b.table.value);
    }
  }

  lemma {:induction false} StitchedRowsSource(tables: seq<RawTable>, signature: seq<string>)
    ensures StitchedRows(tables, signature) != []
            <==> exists t :: t in tables && SignatureAccepts(signature, t) && t.rows != []
  {
    if tables != [] {
      StitchedRowsSource(Init(tables), signature);
      assert tables == Init(tables) + [Last(tables)];
      assert Last(tables) in tables;
    }
  }

  // ---- What header matching means ----

  /** Without case and outer blanks one of the two is a part of the other, or all of it. */
  lemma HeadersCloseIff(expected: string, actual: string)
    ensures HeadersClose(expected, actual)
            <==> || (exists from: nat :: OccursAt(Canonical(actual), Canonical(expected), from))
                 || (exists from: nat :: OccursAt(Canonical(expected), Canonical(actual), from))
    ensures HeadersClose(expected, actual) <==> HeadersClose(actual, expected)
  {
    var e, a := Canonical(expected), Canonical(actual);
    if e == a {
      assert OccursAt(a, e, 0);
    }
  }

  /** The expected headers that some actual header is close to, by their positions. */
  ghost function CloseAt(expected: seq<string>, actual: seq<string>): set<int> {
    set i | 0 <= i < |expected| && HasCloseHeader(expected[i], actual)
  }

  lemma CloseAtSnoc(expected: seq<string>, header: string, actual: seq<string>)
    ensures |CloseAt(expected + [header], actual)|
         == |CloseAt(expected, actual)| + if HasCloseHeader(header, actual) then 1 else 0
  {
    var n := |expected|;
    var before, after := CloseAt(expected, actual), CloseAt(expected + [header], actual);
    hide HasCloseHeader;
    assert after == before + if HasCloseHeader(header, actual) then {n} else {};
    assert n !in before;
  }

  lemma {:induction false} HitsMeaning(expected: seq<string>, actual: seq<string>)
    ensures Hits(expected, actual) == |CloseAt(expected, actual)|
  {
    if expected != [] {
      HitsMeaning(Init(expected), actual);
      CloseAtSnoc(Init(expected), Last(expected), actual);
      assert Init(expected) + [Last(expected)] == expected;
      hide CloseAt, HasCloseHeader;
    }
  }

  /** A table is accepted when it has headers and at least three in five of those expected are close to one of them. */
  lemma AcceptedIff(signature: seq<string>, t: RawTable)
    ensures SignatureAccepts(signature, t)
            <==> signature != [] && t.headers != [] && 5 * |CloseAt(signature, t.headers)| >= 3 * |signature|
  {
    HitsMeaning(signature, t.headers);
    hide Hits, CloseAt;
    if signature != [] {
      ThreeInFive(Hits(signature, t.headers), |signature|);
    }
  }

  lemma ThreeInFive(hits: nat, total: nat)
    requires total > 0
    ensures hits as real / total as real >= 0.6 <==> 5 * hits >= 3 * total
  {
    var score := hits as real / total as real;
    assert score * total as real == hits as real;
    var margin := score - 0.6;
    assert 5.0 * margin * total as real == (5 * hits - 3 * total) as real;
    if margin >= 0.0 {
      assert margin * total as real >= 0.0;
    } else {
      assert margin * total as real < 0.0;
    }
  }

  /** Of equally good tables the first one is taken. */
  lemma {:induction false} FirstBestTable(tables: seq<RawTable>, expected: seq<string>) returns (k: nat)
    requires BestMatch(tables, expected).table.Some?
    ensures k < |tables| && BestMatch(tables, expected).table == Some(tables[k])
    ensures forall j :: 0 <= j < k && tables[j].headers != [] ==>
              |CloseAt(expected, tables[j].headers)| < |CloseAt(expected, tables[k].headers)|
  {
    var prior, t := BestMatch(Init(tables), expected), Last(tables);
    BestMatchIsMaximal(Init(tables), expected);
    if BestMatch(tables, expected) == prior {
      k := FirstBestTable(Init(tables), expected);
    } else {
      k := |tables| - 1;
      hide BestMatch;
      forall j | 0 <= j < k && tables[j].headers != []
        ensures |CloseAt(expected, tables[j].headers)| < |CloseAt(expected, tables[k].headers)|
      {
        assert tables[j] in Init(tables);
        MoreCloseHeaders(expected, tables[j].headers, t.headers);
      }
    }
  }

  lemma MoreCloseHeaders(expected: seq<string>, some: seq<string>, more: seq<string>)
    requires HeaderSignatureMatch(expected, some) < HeaderSignatureMatch(expected, more)
    ensures |CloseAt(expected, some)| < |CloseAt(expected, more)|
  {
    HitsMeaning(expected, some);
    HitsMeaning(expected, more);
    hide Hits, CloseAt;
    var n, m, total := Hits(expected, some) as real, Hits(expected, more) as real, |expected| as real;
    assert n / total * total == n && m / total * total == m;
    assert (m / total - n / total) * total > 0.0;
  }

  /** Rows that are lists are kept in order, the others are dropped. */
  lemma {:induction false} KeptRowsMeaning(a: seq<Row>, b: seq<Row>, cells: seq<string>)
    ensures KeptRows([Cells(cells)]) == [cells] && KeptRows([NotAList]) == [] && KeptRows([]) == []
    ensures KeptRows(a + b) == KeptRows(a) + KeptRows(b)
  {
    assert [Cells(cells)][1..] == [] && [NotAList][1..] == [];
    if a == [] {
      assert a + b == b;
    } else {
      assert (a + b)[1..] == a[1..] + b;
      KeptRowsMeaning(a[1..], b, cells);
    }
  }

  /** A table that is not found is reported under its type. */
  lemma MissingTableMeaning(tables: seq<RawTable>, expected: seq<string>, tableType: string)
    requires forall t :: t in tables ==> !SignatureAccepts(expected, t)
    ensures LookupTable(tables, expected, tableType) == MissingTable(TableNotFound(tableType + "_not_found"))
  {
    LookupAgreesWithStitch(tables, expected, tableType);
  }

  /** A table that is found has the headers and the kept rows of the one it was found in, and its id if it has one. */
  lemma FoundTableMeaning(tables: seq<RawTable>, expected: seq<string>, tableType: string) returns (k: nat)
    requires LookupTable(tables, expected, tableType).FoundTable?
    ensures k < |tables| && SignatureAccepts(expected, tables[k])
    ensures var t := LookupTable(tables, expected, tableType).table;
      && t.tableType == tableType && t.headers == tables[k].headers && t.rows == KeptRows(tables[k].rows)
      && t.tableId == match tables[k].tableId case None => tableType + "_0" case Some(id) => id
    ensures forall j :: 0 <= j < k && tables[j].headers != [] ==>
              |CloseAt(expected, tables[j].headers)| < |CloseAt(expected, tables[k].headers)|
  {
    BestMatchIsMaximal(tables, expected);
    k := FirstBestTable(tables, expected);
    hide BestMatch, CloseAt, KeptRows;
  }

  // ---- Field lookup ----

  datatype FieldLookup = FoundField(field: Field) | MissingField(abstention: Abstention)

  datatype TextMatch = TextMatch(text: Option<string>, page: int)

  function FirstHit(e: Engine, pattern: string, segments: seq<Segment>): Option<TextMatch> {
    if segments == [] then None
    else if e.search(pattern, segments[0].text).Matched?
    then Some(TextMatch(e.search(pattern, segments[0].text).text, segments[0].page))
    else FirstHit(e, pattern, segments[1..])
  }

  /** Patterns in order, and for each the segments in order; the first match decides. */
  function FindField(e: Engine, segments: seq<Segment>, patterns: seq<string>, name: string, normaliser: string)
    : Outcome<FieldLookup>
  {
    if patterns == [] then Returned(MissingField(PatternNotFound(name)))
    else if !e.compiles(patterns[0]) then Raised
    else match FirstHit(e, patterns[0], segments)
      case None => FindField(e, segments, patterns[1..], name, normaliser)
      case Some(TextMatch(None, _)) => Raised
      case Some(TextMatch(Some(raw), page)) =>
        match e.normalise(normaliser, raw)
        case None => Raised
        case Some(v) => Returned(FoundField(Field(v, raw, page)))
  }

  function AnchorLookup(e: Engine, doc: Document, a: FieldAnchor): Outcome<FieldLookup> {
    FindField(e, doc.segments, [a.labelPattern + "(" + a.valuePattern + ")"], a.fieldName, a.normaliser)
  }

  /** The pattern matches nowhere before this segment, and there with this text. */
  predicate FirstMatch(e: Engine, segments: seq<Segment>, pattern: string, j: nat, text: Option<string>) {
    && j < |segments| && e.search(pattern, segments[j].text) == Matched(text)
    && forall k :: 0 <= k < j ==> e.search(pattern, segments[k].text).NoMatch?
  }

  predicate MatchesNowhere(e: Engine, segments: seq<Segment>, pattern: string) {
    forall k :: 0 <= k < |segments| ==> e.search(pattern, segments[k].text).NoMatch?
  }

  lemma {:induction false} FirstHitMeaning(e: Engine, pattern: string, segments: seq<Segment>) returns (j: nat)
    ensures FirstHit(e, pattern, segments).None? <==> MatchesNowhere(e, segments, pattern)
    ensures FirstHit(e, pattern, segments).Some? ==>
              && FirstMatch(e, segments, pattern, j, FirstHit(e, pattern, segments).value.text)
              && FirstHit(e, pattern, segments).value.page == segments[j].page
  {
    j := 0;
    if segments != [] && e.search(pattern, segments[0].text).NoMatch? {
      j := FirstHitMeaning(e, pattern, segments[1..]);
      assert forall k :: 0 < k < |segments| ==> segments[k] == segments[1..][k - 1];
      j := j + 1;
    }
  }

  /**
   * What one anchor finds: the value pattern, as a group after the label pattern, in the first line it matches. The
   * field holds that group's text, what the normaliser makes of it, and the line's page.
   */
  lemma AnchorMeaning(e: Engine, doc: Document, a: FieldAnchor) returns (j: nat)
    ensures var pattern, found := a.labelPattern + "(" + a.valuePattern + ")", AnchorLookup(e, doc, a);
      && (found == Returned(MissingField(PatternNotFound(a.fieldName)))
          <==> e.compiles(pattern) && MatchesNowhere(e, doc.segments, pattern))
      && (found.Returned? && found.value.MissingField? ==> found.value.abstention == PatternNotFound(a.fieldName))
      && (found.Returned? && found.value.FoundField? ==>
            var f := found.value.field;
            && e.compiles(pattern) && FirstMatch(e, doc.segments, pattern, j, Some(f.originalString))
            && e.normalise(a.normaliser, f.originalString) == Some(f.value) && f.page == doc.segments[j].page)
      && (found.Raised? ==>
            || !e.compiles(pattern) || FirstMatch(e, doc.segments, pattern, j, None)
            || exists raw :: FirstMatch(e, doc.segments, pattern, j, Some(raw)) && e.normalise(a.normaliser, raw).None?)
  {
    var pattern := a.labelPattern + "(" + a.valuePattern + ")";
    j := FirstHitMeaning(e, pattern, doc.segments);
    assert [pattern][1..] == [];
    assert FindField(e, doc.segments, [], a.fieldName, a.normaliser)
        == Returned(MissingField(PatternNotFound(a.fieldName)));
    assert AnchorLookup(e, doc, a) == FindField(e, doc.segments, [pattern], a.fieldName, a.normaliser);
    hide FirstHit, MatchesNowhere, FirstMatch;
  }

  // ---- Extraction ----

  function ExtractFields(e: Engine, doc: Document, anchors: seq<FieldAnchor>): Outcome<Extraction> {
    if anchors == [] then Returned(Extraction(map[], [], []))
    else match ExtractFields(e, doc, Init(anchors))
      case Raised => Raised
      case Returned(x) => AddField(x, AnchorLookup(e, doc, Last(anchors)), Last(anchors).fieldName)
  }

  function AddField(x: Extraction, found: Outcome<FieldLookup>, name: string): Outcome<Extraction> {
    match found
    case Raised => Raised
    case Returned(FoundField(f)) => Returned(x.(fields := x.fields[name := f]))
    case Returned(MissingField(a)) => Returned(x.(abstentions := x.abstentions + [a]))
  }

  function AddTables(x: Extraction, doc: Document, anchors: seq<TableAnchor>): Extraction {
    if anchors == [] then x
    else
      var prior, a := AddTables(x, doc, Init(anchors)), Last(anchors);
      match LookupTable(doc.tables, a.headerSignature, a.tableType)
      case FoundTable(t) => prior.(tables := prior.tables + [t])
      case MissingTable(ab) => prior.(abstentions := prior.abstentions + [ab])
  }

  function Extracted(e: Engine, t: Template, doc: Document): Outcome<Extraction> {
    match ExtractFields(e, doc, t.fieldAnchors)
    case Raised => Raised
    case Returned(x) => Returned(AddTables(x, doc, t.tableAnchors))
  }

  method Extract(e: Engine, t: Template, doc: Document) returns (r: Outcome<Extraction>)
    ensures r == Extracted(e, t, doc)
  {
    r := ExtractAnchoredFields(e, doc, t.fieldAnchors);
    if r.Returned? {
      var x := ExtractAnchoredTables(r.value, doc, t.tableAnchors);
      r := Returned(x);
    }
  }

  method ExtractAnchoredFields(e: Engine, doc: Document, anchors: seq<FieldAnchor>) returns (r: Outcome<Extraction>)
    ensures r == ExtractFields(e, doc, anchors)
  {
    r := Returned(Extraction(map[], [], []));
    for i := 0 to |anchors|
      invariant r.Returned? && r == ExtractFields(e, doc, anchors[..i])
    {
      assert Init(anchors[..i + 1]) == anchors[..i];
      r := AddField(r.value, AnchorLookup(e, doc, anchors[i]), anchors[i].fieldName);
      if r.Raised? {
        RaisedPrefix(e, doc, anchors, i + 1);
        return;
      }
    }
    assert anchors[..|anchors|] == anchors;
  }

  method ExtractAnchoredTables(fieldsOnly: Extraction, doc: Document, anchors: seq<TableAnchor>)
    returns (x: Extraction)
    ensures x == AddTables(fieldsOnly, doc, anchors)
  {
    x := fieldsOnly;
    for i := 0 to |anchors|
      invariant x == AddTables(fieldsOnly, doc, anchors[..i])
    {
      var a := anchors[i];
      assert Init(anchors[..i + 1]) == anchors[..i];
      var found := ExtractTableByHeader(doc, a.headerSignature, a.tableType);
      match found {
        case FoundTable(tbl) => x := x.(tables := x.tables + [tbl]);
        case MissingTable(ab) => x := x.(abstentions := x.abstentions + [ab]);
      }
    }
    assert anchors[..|anchors|] == anchors;
  }

  lemma FieldsSnoc(e: Engine, doc: Document, anchors: seq<FieldAnchor>, a: FieldAnchor)
    ensures ExtractFields(e, doc, anchors + [a])
         == match ExtractFields(e, doc, anchors)
            case Raised => Raised
            case Returned(x) => AddField(x, AnchorLookup(e, doc, a), a.fieldName)
  {
    assert Init(anchors + [a]) == anchors;
  }

  lemma AddedToBoth(x: Extraction, y: Extraction, z: Extraction, found: Outcome<FieldLookup>, name: string)
    requires z.fields == x.fields + y.fields && z.abstentions == x.abstentions + y.abstentions && z.tables == []
    ensures AddField(z, found, name).Returned? <==> AddField(y, found, name).Returned?
    ensures AddField(z, found, name).Returned? ==>
              var y', z' := AddField(y, found, name).value, AddField(z, found, name).value;
              z'.fields == x.fields + y'.fields && z'.abstentions == x.abstentions + y'.abstentions && z'.tables == []
  {
  }

  /**
   * Two lists of field anchors give what each gives: the abstentions of the first, then of the second, and the
   * fields of both, where the second overrides the first. Nothing raises exactly when neither does.
   */
  lemma {:induction false} FieldsOfBoth(e: Engine, doc: Document, a: seq<FieldAnchor>, b: seq<FieldAnchor>)
    ensures ExtractFields(e, doc, a + b).Returned?
            <==> ExtractFields(e, doc, a).Returned? && ExtractFields(e, doc, b).Returned?
    ensures ExtractFields(e, doc, a + b).Returned? ==>
              var x, y, z := ExtractFields(e, doc, a).value, ExtractFields(e, doc, b).value,
                             ExtractFields(e, doc, a + b).value;
              z.fields == x.fields + y.fields && z.abstentions == x.abstentions + y.abstentions && z.tables == []
  {
    if b == [] {
      assert a + b == a;
      NoTables(e, doc, a);
    } else {
      var last := Last(b);
      assert a + b == (a + Init(b)) + [last] && b == Init(b) + [last];
      FieldsOfBoth(e, doc, a, Init(b));
      FieldsSnoc(e, doc, a + Init(b), last);
      FieldsSnoc(e, doc, Init(b), last);
      hide ExtractFields, AnchorLookup, AddField;
      if ExtractFields(e, doc, a + Init(b)).Returned? {
        AddedToBoth(ExtractFields(e, doc, a).value, ExtractFields(e, doc, Init(b)).value,
                    ExtractFields(e, doc, a + Init(b)).value, AnchorLookup(e, doc, last), last.fieldName);
      }
    }
  }

  lemma {:induction false} NoTables(e: Engine, doc: Document, anchors: seq<FieldAnchor>)
    ensures ExtractFields(e, doc, anchors).Returned? ==> ExtractFields(e, doc, anchors).value.tables == []
  {
    if anchors != [] {
      NoTables(e, doc, Init(anchors));
    }
  }

  /** And one anchor gives its field, or its abstention, or raises. */
  lemma FieldOfOne(e: Engine, doc: Document, a: FieldAnchor)
    ensures ExtractFields(e, doc, []) == Returned(Extraction(map[], [], []))
    ensures ExtractFields(e, doc, [a])
         == match AnchorLookup(e, doc, a)
            case Raised => Raised
            case Returned(FoundField(f)) => Returned(Extraction(map[a.fieldName := f], [], []))
            case Returned(MissingField(abstention)) => Returned(Extraction(map[], [], [abstention]))
  {
    FieldsSnoc(e, doc, [], a);
    assert [] + [a] == [a];
    var found := AnchorLookup(e, doc, a);
    hide ExtractFields, AnchorLookup;
    if found.Returned? && found.value.FoundField? {
      assert map[][a.fieldName := found.value.field] == map[a.fieldName := found.value.field];
    } else if found.Returned? {
      assert [] + [found.value.abstention] == [found.value.abstention];
    }
  }

  lemma TablesSnoc(x: Extraction, doc: Document, anchors: seq<TableAnchor>, a: TableAnchor)
    ensures AddTables(x, doc, anchors + [a])
         == match LookupTable(doc.tables, a.headerSignature, a.tableType)
            case FoundTable(t) => AddTables(x, doc, anchors).(tables := AddTables(x, doc, anchors).tables + [t])
            case MissingTable(ab) =>
              AddTables(x, doc, anchors).(abstentions := AddTables(x, doc, anchors).abstentions + [ab])
  {
    assert Init(anchors + [a]) == anchors;
  }

  /** What is extracted: the fields, and the tables found, in anchor order; the abstentions of fields before tables. */
  lemma {:induction false} TablesAfterFields(x: Extraction, doc: Document, anchors: seq<TableAnchor>)
    ensures var y, alone := AddTables(x, doc, anchors), AddTables(Extraction(map[], [], []), doc, anchors);
            y == Extraction(x.fields, x.tables + alone.tables, x.abstentions + alone.abstentions)
    ensures |AddTables(Extraction(map[], [], []), doc, anchors).tables|
            + |AddTables(Extraction(map[], [], []), doc, anchors).abstentions| == |anchors|
  {
    if anchors != [] {
      TablesAfterFields(x, doc, Init(anchors));
      assert anchors == Init(anchors) + [Last(anchors)];
      TablesSnoc(x, doc, Init(anchors), Last(anchors));
      TablesSnoc(Extraction(map[], [], []), doc, Init(anchors), Last(anchors));
      hide AddTables, LookupTable;
    }
  }

  lemma {:induction false} RaisedPrefix(e: Engine, doc: Document, anchors: seq<FieldAnchor>, k: nat)
    requires k <= |anchors| && ExtractFields(e, doc, anchors[..k]).Raised?
    ensures ExtractFields(e, doc, anchors).Raised?
    decreases |anchors|
  {
    if k == |anchors| {
      assert anchors[..k] == anchors;
    } else {
      assert Init(anchors)[..k] == anchors[..k];
      RaisedPrefix(e, doc, Init(anchors), k);
    }
  }

  /** What a template hit demands: no abstention, and something extracted. */
  predicate Clean(r: Outcome<Extraction>) {
    r.Returned? && r.value.abstentions == [] && Score(r.value) > 0
  }

  function Score(x: Extraction): nat {
    |x.fields| + |x.tables|
  }
}
