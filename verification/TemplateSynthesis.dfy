/** Building a template from one VLM result and verifying it on the document it was learned from. */
module TemplateSynthesis {
  import opened Common
  import opened Text
  import opened Templates

  datatype Discovered = Discovered(documentTypeLabel: string, institution: string, metadataFields: seq<string>)

  datatype VlmTable = VlmTable(tableType: string, headers: seq<string>)

  /** The VLM's own extraction: field name to original string, and the tables it reported. */
  datatype VlmResult = VlmResult(fields: map<string, string>, tables: seq<VlmTable>)

  function Norm(s: string): string {
    Lower(Strip(s))
  }

  const IBAN_PATTERN := @"[A-Z]{2}\d{2}[\dA-Z ]{6,}"
  const AMOUNT_SHAPE := @"[\(\-]?[\d.,]+\)?"
  const AMOUNT_PATTERN := @"\(?[\d.,]+\)?"
  const NUMERIC_DATE := @"\d{1,4}[/\-.]\d{1,2}[/\-.]\d{1,4}"
  const WRITTEN_DATE := @"\d{1,2}\s+[A-Za-z]{3,}\s+\d{4}"
  const DATE_PATTERN := @"[\d]{1,4}[/\-.\s][\w]{1,9}[/\-.\s][\d]{2,4}"
  const CURRENCY_PATTERN := "[A-Z]{3}"
  const COLUMN_TEXT := @"[^|\n]+?(?=\s*\||\s*$)"
  const ANY_TEXT := ".+"

  predicate HasDigit(s: string) {
    exists i | 0 <= i < |s| :: '0' <= s[i] <= '9'
  }

  /** Candidate (value pattern, normaliser) pairs, most specific first, the two text fallbacks always last. */
  function InferValuePatterns(e: Engine, sample: string): seq<(string, string)> {
    var s := Strip(sample);
    Alternatives(e.fullMatch(IBAN_PATTERN, s), (IBAN_PATTERN, "iban"),
                 e.fullMatch(AMOUNT_SHAPE, s) && HasDigit(s), (AMOUNT_PATTERN, "amount"),
                 e.search(NUMERIC_DATE, s).Matched? || e.search(WRITTEN_DATE, s).Matched?, (DATE_PATTERN, "date"),
                 e.fullMatch(CURRENCY_PATTERN, s), (CURRENCY_PATTERN, "currency"))
    + [(COLUMN_TEXT, "text"), (ANY_TEXT, "text")]
  }

  /** Those of four that apply, in order. */
  function Alternatives<T>(a: bool, x: T, b: bool, y: T, c: bool, z: T, d: bool, w: T): seq<T> {
    (if a then [x] else []) + (if b then [y] else []) + (if c then [z] else []) + (if d then [w] else [])
  }

  /** The last four words before `value` on the first line holding it; "" when it starts the line. */
  function LabelForValue(segments: seq<Segment>, value: string): Option<string> {
    if Strip(value) == "" || segments == [] then None
    else
      var at := FindFrom(segments[0].text, Strip(value), 0);
      if at > 0 && at <= |segments[0].text| then
        var words := Words(Strip(segments[0].text[..at]));
        Some(Join(" ", if |words| > 4 then words[|words| - 4..] else words))
      else if at == 0 then Some("")
      else LabelForValue(segments[1..], value)
  }

  function EscapedWords(e: Engine, words: seq<string>): seq<string> {
    seq(|words|, i requires 0 <= i < |words| => e.escape(words[i]))
  }

  function LabelPattern(e: Engine, fieldLabel: string): string {
    if fieldLabel == "" then @"^\s*"
    else Join(@"\s*", EscapedWords(e, Words(fieldLabel))) + @"\s*[:\-]?\s*"
  }

  /** The anchors tried for one field, in order; none when the value is missing or not on any line. */
  function Candidates(e: Engine, doc: Document, vlm: VlmResult, name: string): seq<FieldAnchor> {
    if name !in vlm.fields || vlm.fields[name] == "" then []
    else match LabelForValue(doc.segments, vlm.fields[name])
      case None => []
      case Some(fieldLabel) =>
        var patterns := InferValuePatterns(e, vlm.fields[name]);
        seq(|patterns|, i requires 0 <= i < |patterns| =>
          FieldAnchor(name, LabelPattern(e, fieldLabel), patterns[i].0, patterns[i].1, true))
  }

  function Probe(theme: string, d: Discovered, a: FieldAnchor): Template {
    Template(theme, d.documentTypeLabel, d.institution, [a], [], HandAuthored, 1,
             FingerprintKey(theme, d.institution, d.documentTypeLabel))
  }

  predicate Reproduces(r: Outcome<Extraction>, name: string, target: string) {
    r.Returned? && name in r.value.fields && Norm(r.value.fields[name].originalString) == Norm(target)
  }

  /** The first candidate whose one-anchor probe reproduces the VLM's value; raises if a probe raises first. */
  function FirstReproducing(e: Engine, theme: string, d: Discovered, doc: Document,
                            candidates: seq<FieldAnchor>, target: string): Outcome<Option<FieldAnchor>>
  {
    if candidates == [] then Returned(None)
    else
      var r := Extracted(e, Probe(theme, d, candidates[0]), doc);
      if r.Raised? then Raised
      else if Reproduces(r, candidates[0].fieldName, target) then Returned(Some(candidates[0]))
      else FirstReproducing(e, theme, d, doc, candidates[1..], target)
  }

  function Target(vlm: VlmResult, name: string): string {
    if name in vlm.fields then vlm.fields[name] else ""
  }

  function VerifiedAnchors(e: Engine, theme: string, d: Discovered, vlm: VlmResult, doc: Document, names: seq<string>)
    : Outcome<seq<FieldAnchor>>
  {
    if names == [] then Returned([])
    else match VerifiedAnchors(e, theme, d, vlm, doc, Init(names))
      case Raised => Raised
      case Returned(anchors) =>
        match FirstReproducing(e, theme, d, doc, Candidates(e, doc, vlm, Last(names)), Target(vlm, Last(names)))
        case Raised => Raised
        case Returned(None) => Returned(anchors)
        case Returned(Some(a)) => Returned(anchors + [a])
  }

  function AmountColumn(headers: seq<string>, from: nat): Option<nat>
    decreases |headers| - from
  {
    if from >= |headers| then None
    else if Within("amount", Lower(headers[from])) || Within("value", Lower(headers[from])) then Some(from)
    else AmountColumn(headers, from + 1)
  }

  function AnchorFor(t: VlmTable): TableAnchor {
    TableAnchor(t.tableType, t.headers, if |t.headers| > 1 then |t.headers| else 1, AmountColumn(t.headers, 0))
  }

  function VerifiedTables(doc: Document, tables: seq<VlmTable>): seq<TableAnchor> {
    if tables == [] then []
    else
      VerifiedTables(doc, Init(tables))
      + if Last(tables).headers != [] && StitchedRows(doc.tables, Last(tables).headers) != []
        then [AnchorFor(Last(tables))] else []
  }

  function Learned(theme: string, d: Discovered, anchors: seq<FieldAnchor>, tables: seq<TableAnchor>): Template {
    Template(theme, d.documentTypeLabel, d.institution, anchors, tables, VlmDiscovered, 1,
             FingerprintKey(theme, d.institution, d.documentTypeLabel))
  }

  function Synthesised(e: Engine, theme: string, d: Discovered, vlm: VlmResult, doc: Document)
    : Outcome<Option<Template>>
  {
    match VerifiedAnchors(e, theme, d, vlm, doc, d.metadataFields)
    case Raised => Raised
    case Returned(anchors) =>
      var tables := VerifiedTables(doc, vlm.tables);
      if anchors == [] && tables == [] then Returned(None)
      else Returned(Some(Learned(theme, d, anchors, tables)))
  }

  method SynthesiseTemplate(e: Engine, theme: string, d: Discovered, vlm: VlmResult, doc: Document)
    returns (r: Outcome<Option<Template>>)
    ensures r == Synthesised(e, theme, d, vlm, doc)
    ensures r.Returned? && r.value.Some? ==> Faithful(e, theme, vlm, doc, r.value.value)
  {
    var anchors: seq<FieldAnchor> := [];
    var names := d.metadataFields;
    for i := 0 to |names|
      invariant VerifiedAnchors(e, theme, d, vlm, doc, names[..i]) == Returned(anchors)
    {
      assert Init(names[..i + 1]) == names[..i];
      var solved := SolveField(e, theme, d, vlm, doc, names[i]);
      if solved.Raised? {
        RaisedEarly(e, theme, d, vlm, doc, names, i + 1);
        return Raised;
      }
      if solved.value.Some? {
        anchors := anchors + [solved.value.value];
      }
    }
    assert names[..|names|] == names;
    var tables := VerifyTables(doc, vlm.tables);
    if anchors == [] && tables == [] {
      return Returned(None);
    }
    r := Returned(Some(Learned(theme, d, anchors, tables)));
    SynthesisIsFaithful(e, theme, d, vlm, doc);
  }

  method SolveField(e: Engine, theme: string, d: Discovered, vlm: VlmResult, doc: Document, name: string)
    returns (r: Outcome<Option<FieldAnchor>>)
    ensures r == FirstReproducing(e, theme, d, doc, Candidates(e, doc, vlm, name), Target(vlm, name))
  {
    var candidates := Candidates(e, doc, vlm, name);
    for i := 0 to |candidates|
      invariant FirstReproducing(e, theme, d, doc, candidates, Target(vlm, name))
             == FirstReproducing(e, theme, d, doc, candidates[i..], Target(vlm, name))
    {
      var probed := Extract(e, Probe(theme, d, candidates[i]), doc);
      if probed.Raised? {
        return Raised;
      }
      if Reproduces(probed, candidates[i].fieldName, Target(vlm, name)) {
        return Returned(Some(candidates[i]));
      }
      assert candidates[i..][1..] == candidates[i + 1..];
    }
    r := Returned(None);
  }

  method VerifyTables(doc: Document, tables: seq<VlmTable>) returns (verified: seq<TableAnchor>)
    ensures verified == VerifiedTables(doc, tables)
  {
    verified := [];
    for i := 0 to |tables|
      invariant verified == VerifiedTables(doc, tables[..i])
    {
      assert Init(tables[..i + 1]) == tables[..i];
      if tables[i].headers == [] {
        continue;
      }
      var anchor := AnchorFor(tables[i]);
      var rows := StitchTableRows(doc, anchor);
      if rows != [] {
        verified := verified + [anchor];
      }
    }
    assert tables[..|tables|] == tables;
  }

  lemma {:induction false} RaisedEarly(
    e: Engine, theme: string, d: Discovered, vlm: VlmResult, doc: Document, names: seq<string>, k: nat)
    requires k <= |names| && VerifiedAnchors(e, theme, d, vlm, doc, names[..k]).Raised?
    ensures VerifiedAnchors(e, theme, d, vlm, doc, names).Raised?
    decreases |names|
  {
    if k == |names| {
      assert names[..k] == names;
    } else {
      assert Init(names)[..k] == names[..k];
      RaisedEarly(e, theme, d, vlm, doc, Init(names), k);
    }
  }

  // ---- What is tried for a field ----

  /** The value stands on this line and on none before it. */
  predicate FirstLine(segments: seq<Segment>, value: string, j: nat) {
    && j < |segments| && Within(Strip(value), segments[j].text)
    && forall k :: 0 <= k < j ==> !Within(Strip(value), segments[k].text)
  }

  lemma WithinIffFound(needle: string, hay: string)
    ensures Within(needle, hay) <==> FindFrom(hay, needle, 0) >= 0
    ensures FindFrom(hay, needle, 0) <= |hay|
  {
    FindMeaning(hay, needle, 0);
    var at := FindFrom(hay, needle, 0);
    if at >= 0 {
      assert OccursAt(hay, needle, at);
    }
  }

  /** The last four words of a text, or what there are. */
  function LastWords(before: string): string {
    var words := Words(Strip(before));
    Join(" ", if |words| <= 4 then words else words[|words| - 4..])
  }

  lemma LabelHere(segments: seq<Segment>, value: string)
    requires segments != [] && Strip(value) != ""
    ensures Within(Strip(value), segments[0].text) ==>
              var at := FindFrom(segments[0].text, Strip(value), 0);
              0 <= at <= |segments[0].text|
              && LabelForValue(segments, value) == Some(LastWords(segments[0].text[..at]))
    ensures !Within(Strip(value), segments[0].text) ==>
              LabelForValue(segments, value) == LabelForValue(segments[1..], value)
  {
    hide FindFrom, Within, Strip, Words, Join;
    WithinIffFound(Strip(value), segments[0].text);
    NothingBefore(segments[0].text);
  }

  /**
   * A label is found exactly for a value that is not blank and stands on some line: it is the last four words, or
   * what there are, before the value's first occurrence on the first such line.
   */
  lemma {:induction false} LabelMeaning(segments: seq<Segment>, value: string) returns (j: nat)
    ensures LabelForValue(segments, value).Some?
            <==> Strip(value) != "" && exists k :: 0 <= k < |segments| && Within(Strip(value), segments[k].text)
    ensures LabelForValue(segments, value).Some? ==>
              && FirstLine(segments, value, j)
              && var at := FindFrom(segments[j].text, Strip(value), 0);
                 && 0 <= at <= |segments[j].text|
                 && LabelForValue(segments, value).value == LastWords(segments[j].text[..at])
  {
    j := 0;
    if segments != [] && Strip(value) != "" {
      hide FindFrom, Within, Strip, LastWords, LabelForValue;
      LabelHere(segments, value);
      if !Within(Strip(value), segments[0].text) {
        j := LabelMeaning(segments[1..], value);
        assert forall k :: 0 < k < |segments| ==> segments[k] == segments[1..][k - 1];
        j := j + 1;
      }
    }
  }

  lemma NothingBefore(s: string)
    ensures Words(Strip(s[..0])) == [] && Join(" ", []) == ""
  {
    assert s[..0] == "" && Strip("") == "";
  }

  /** A field is tried exactly when the VLM gave it a value that stands on some line of the document. */
  lemma TriedIff(e: Engine, doc: Document, vlm: VlmResult, name: string)
    ensures Candidates(e, doc, vlm, name) != []
            <==> && name in vlm.fields && Strip(vlm.fields[name]) != ""
                 && exists k :: 0 <= k < |doc.segments| && Within(Strip(vlm.fields[name]), doc.segments[k].text)
  {
    hide LabelForValue, Strip, Within;
    StripNothing();
    if name in vlm.fields && vlm.fields[name] != "" {
      var j := LabelMeaning(doc.segments, vlm.fields[name]);
      assert |InferValuePatterns(e, vlm.fields[name])| >= 2;
    }
  }

  lemma StripNothing()
    ensures Strip("") == ""
  {
  }

  function One(b: bool): nat {
    if b then 1 else 0
  }

  lemma Chosen<T>(a: bool, x: T, b: bool, y: T, c: bool, z: T, d: bool, w: T, rest: seq<T>)
    ensures var all := Alternatives(a, x, b, y, c, z, d, w) + rest;
      && |all| == One(a) + One(b) + One(c) + One(d) + |rest|
      && (a ==> all[0] == x) && (b ==> all[One(a)] == y) && (c ==> all[One(a) + One(b)] == z)
      && (d ==> all[One(a) + One(b) + One(c)] == w) && all[|all| - |rest|..] == rest
  {
  }

  /** The patterns tried for a value: one for each shape it has, in this order, and then any text. */
  lemma ShapesTried(e: Engine, sample: string)
    ensures var s, patterns := Strip(sample), InferValuePatterns(e, sample);
            var iban, amount := e.fullMatch(IBAN_PATTERN, s), e.fullMatch(AMOUNT_SHAPE, s) && HasDigit(s);
            var date := e.search(NUMERIC_DATE, s) != NoMatch || e.search(WRITTEN_DATE, s) != NoMatch;
            var currency := e.fullMatch(CURRENCY_PATTERN, s);
      && |patterns| == One(iban) + One(amount) + One(date) + One(currency) + 2
      && (iban ==> patterns[0] == (IBAN_PATTERN, "iban"))
      && (amount ==> patterns[One(iban)] == (AMOUNT_PATTERN, "amount"))
      && (date ==> patterns[One(iban) + One(amount)] == (DATE_PATTERN, "date"))
      && (currency ==> patterns[One(iban) + One(amount) + One(date)] == (CURRENCY_PATTERN, "currency"))
      && patterns[|patterns| - 2..] == [(COLUMN_TEXT, "text"), (ANY_TEXT, "text")]
  {
    var s := Strip(sample);
    var date := e.search(NUMERIC_DATE, s) != NoMatch || e.search(WRITTEN_DATE, s) != NoMatch;
    hide Strip, One, HasDigit, Alternatives;
    Chosen(e.fullMatch(IBAN_PATTERN, s), (IBAN_PATTERN, "iban"),
           e.fullMatch(AMOUNT_SHAPE, s) && HasDigit(s), (AMOUNT_PATTERN, "amount"), date, (DATE_PATTERN, "date"),
           e.fullMatch(CURRENCY_PATTERN, s), (CURRENCY_PATTERN, "currency"),
           [(COLUMN_TEXT, "text"), (ANY_TEXT, "text")]);
  }

  /** Every candidate is for this field, required, and looks for its pattern after the value's label. */
  lemma CandidateMeaning(e: Engine, doc: Document, vlm: VlmResult, name: string, i: nat)
    requires i < |Candidates(e, doc, vlm, name)|
    ensures |Candidates(e, doc, vlm, name)| == |InferValuePatterns(e, vlm.fields[name])|
    ensures var c, tried := Candidates(e, doc, vlm, name)[i], InferValuePatterns(e, vlm.fields[name])[i];
      && c.fieldName == name && c.required && (c.valuePattern, c.normaliser) == tried
      && LabelForValue(doc.segments, vlm.fields[name]).Some?
      && c.labelPattern == LabelPattern(e, LabelForValue(doc.segments, vlm.fields[name]).value)
  {
    hide LabelForValue, LabelPattern, InferValuePatterns;
  }

  /** A value at the start of its line is looked for there; after two words, after both, with any blanks between. */
  lemma LabelPatternOfTwo(e: Engine, first: string, second: string)
    requires first != "" && forall i :: 0 <= i < |first| ==> !Blank(first[i])
    requires second != "" && forall i :: 0 <= i < |second| ==> !Blank(second[i])
    ensures LabelPattern(e, "") == @"^\s*"
    ensures LabelPattern(e, first + " " + second) == e.escape(first) + @"\s*" + e.escape(second) + @"\s*[:\-]?\s*"
  {
    hide Words, Blank;
    assert " " == [' '] && IsSpace(' ');
    BlankIsSpace(' ');
    WordsMeaning(first, ' ', second);
    WordsMeaning(second, ' ', "");
    var words := [first, second];
    assert Words(first + " " + second) == [first] + [second] == words;
    var escaped := EscapedWords(e, words);
    assert escaped == [e.escape(first), e.escape(second)] && escaped[1..] == [e.escape(second)];
    assert Join(@"\s*", escaped) == e.escape(first) + @"\s*" + e.escape(second);
    assert first + " " + second != "";
  }

  /** The anchor kept for a field is the first that reproduces the value: none before it does. */
  lemma {:induction false} FirstSolidWins(
    e: Engine, theme: string, d: Discovered, vlm: VlmResult, doc: Document, name: string, candidates: seq<FieldAnchor>)
    returns (k: nat)
    requires forall c :: c in candidates ==> c.fieldName == name
    requires var r := FirstReproducing(e, theme, d, doc, candidates, Target(vlm, name)); r.Returned? && r.value.Some?
    ensures k < |candidates|
    ensures FirstReproducing(e, theme, d, doc, candidates, Target(vlm, name)).value == Some(candidates[k])
    ensures Solid(e, vlm, doc, candidates[k]) && forall j :: 0 <= j < k ==> !Solid(e, vlm, doc, candidates[j])
  {
    SingleAnchorProbe(e, theme, d, vlm, doc, candidates[0]);
    hide Solid, Reproduces, Extracted;
    if FirstReproducing(e, theme, d, doc, candidates, Target(vlm, name)).value == Some(candidates[0])
       && Reproduces(Extracted(e, Probe(theme, d, candidates[0]), doc), name, Target(vlm, name)) {
      k := 0;
    } else {
      k := FirstSolidWins(e, theme, d, vlm, doc, name, candidates[1..]);
      assert forall j :: 0 < j < |candidates| ==> candidates[j] == candidates[1..][j - 1];
      k := k + 1;
    }
  }

  lemma VerifiedNext(e: Engine, theme: string, d: Discovered, vlm: VlmResult, doc: Document, names: seq<string>)
    requires names != [] && VerifiedAnchors(e, theme, d, vlm, doc, names).Returned?
    ensures var last := Last(names);
            var before := VerifiedAnchors(e, theme, d, vlm, doc, Init(names));
            var found := FirstReproducing(e, theme, d, doc, Candidates(e, doc, vlm, last), Target(vlm, last));
      && before.Returned? && found.Returned?
      && VerifiedAnchors(e, theme, d, vlm, doc, names).value
         == if found.value.Some? then before.value + [found.value.value] else before.value
  {
    hide Candidates, FirstReproducing, Target;
  }

  lemma CandidatesFor(e: Engine, doc: Document, vlm: VlmResult, name: string)
    ensures forall c :: c in Candidates(e, doc, vlm, name) ==> c.fieldName == name
  {
    hide LabelForValue, LabelPattern, InferValuePatterns;
  }

  lemma SolvableIsSolved(e: Engine, theme: string, d: Discovered, vlm: VlmResult, doc: Document, name: string,
                         c: FieldAnchor) returns (a: FieldAnchor)
    requires c in Candidates(e, doc, vlm, name) && Solid(e, vlm, doc, c)
    requires FirstReproducing(e, theme, d, doc, Candidates(e, doc, vlm, name), Target(vlm, name)).Returned?
    ensures FirstReproducing(e, theme, d, doc, Candidates(e, doc, vlm, name), Target(vlm, name)) == Returned(Some(a))
    ensures a.fieldName == name
  {
    CandidatesFor(e, doc, vlm, name);
    hide Candidates, FirstReproducing, Solid, Target;
    var found := FirstReproducing(e, theme, d, doc, Candidates(e, doc, vlm, name), Target(vlm, name));
    KeptAnchorReproduces(e, theme, d, vlm, doc, name, Candidates(e, doc, vlm, name));
    a := if found.value.Some? then found.value.value else c;
  }

  /** Each field's anchors come in the order of the fields; a field with a candidate that reproduces gets its anchor. */
  lemma VerifiedMore(e: Engine, theme: string, d: Discovered, vlm: VlmResult, doc: Document, names: seq<string>)
    requires names != [] && VerifiedAnchors(e, theme, d, vlm, doc, names).Returned?
    ensures var before := VerifiedAnchors(e, theme, d, vlm, doc, Init(names));
            var last := Last(names);
            var found := FirstReproducing(e, theme, d, doc, Candidates(e, doc, vlm, last), Target(vlm, last));
      && before.Returned? && found.Returned?
      && (forall a :: a in before.value ==> a in VerifiedAnchors(e, theme, d, vlm, doc, names).value)
      && (found.value.Some? ==> found.value.value in VerifiedAnchors(e, theme, d, vlm, doc, names).value)
  {
    VerifiedNext(e, theme, d, vlm, doc, names);
    hide VerifiedAnchors, Candidates, FirstReproducing, Target;
  }

  lemma {:induction false} SolvableFieldIsAnchored(
    e: Engine, theme: string, d: Discovered, vlm: VlmResult, doc: Document, names: seq<string>, k: nat, c: FieldAnchor)
    returns (a: FieldAnchor)
    requires k < |names| && VerifiedAnchors(e, theme, d, vlm, doc, names).Returned?
    requires c in Candidates(e, doc, vlm, names[k]) && Solid(e, vlm, doc, c)
    ensures a in VerifiedAnchors(e, theme, d, vlm, doc, names).value && a.fieldName == names[k]
    decreases |names|
  {
    hide VerifiedAnchors, Solid, FirstReproducing, Candidates, Target;
    VerifiedMore(e, theme, d, vlm, doc, names);
    if k == |names| - 1 {
      a := SolvableIsSolved(e, theme, d, vlm, doc, names[k], c);
    } else {
      a := SolvableFieldIsAnchored(e, theme, d, vlm, doc, Init(names), k, c);
    }
  }

  /** Nothing is learned exactly when no field has a candidate that reproduces and no reported table stitches a row. */
  lemma NothingLearnedIff(e: Engine, theme: string, d: Discovered, vlm: VlmResult, doc: Document)
    requires Synthesised(e, theme, d, vlm, doc).Returned?
    ensures Synthesised(e, theme, d, vlm, doc).value.None?
            <==> && (forall name, c :: name in d.metadataFields && c in Candidates(e, doc, vlm, name)
                                       ==> !Solid(e, vlm, doc, c))
                 && (forall t :: t in vlm.tables ==> t.headers == [] || StitchedRows(doc.tables, t.headers) == [])
  {
    AnchorsComeFromCandidates(e, theme, d, vlm, doc, d.metadataFields);
    TablesVerifiedIff(doc, vlm.tables);
    hide Candidates, Solid, VerifiedAnchors, VerifiedTables, StitchedRows;
    var anchors := VerifiedAnchors(e, theme, d, vlm, doc, d.metadataFields).value;
    if anchors != [] {
      assert anchors[0] in anchors;
    } else if name, c :| name in d.metadataFields && c in Candidates(e, doc, vlm, name) && Solid(e, vlm, doc, c) {
      var k :| 0 <= k < |d.metadataFields| && d.metadataFields[k] == name;
      var a := SolvableFieldIsAnchored(e, theme, d, vlm, doc, d.metadataFields, k, c);
      assert false;
    }
  }

  lemma {:induction false} AnchorsComeFromCandidates(
    e: Engine, theme: string, d: Discovered, vlm: VlmResult, doc: Document, names: seq<string>)
    requires VerifiedAnchors(e, theme, d, vlm, doc, names).Returned?
    ensures forall a :: a in VerifiedAnchors(e, theme, d, vlm, doc, names).value ==>
              exists name :: name in names && a in Candidates(e, doc, vlm, name) && Solid(e, vlm, doc, a)
  {
    if names != [] {
      var last := Last(names);
      assert names == Init(names) + [last] && last in names;
      VerifiedNext(e, theme, d, vlm, doc, names);
      AnchorsComeFromCandidates(e, theme, d, vlm, doc, Init(names));
      KeptAnchorReproduces(e, theme, d, vlm, doc, last, Candidates(e, doc, vlm, last));
      hide Candidates, Solid, FirstReproducing, VerifiedAnchors;
    }
  }

  lemma {:induction false} TablesVerifiedIff(doc: Document, tables: seq<VlmTable>)
    ensures VerifiedTables(doc, tables) == []
            <==> forall t :: t in tables ==> t.headers == [] || StitchedRows(doc.tables, t.headers) == []
  {
    if tables != [] {
      assert tables == Init(tables) + [Last(tables)];
      TablesVerifiedIff(doc, Init(tables));
    }
  }

  lemma TablesSnoc(doc: Document, tables: seq<VlmTable>, t: VlmTable)
    ensures VerifiedTables(doc, tables + [t])
         == VerifiedTables(doc, tables)
            + if t.headers != [] && StitchedRows(doc.tables, t.headers) != [] then [AnchorFor(t)] else []
  {
    assert Init(tables + [t]) == tables;
  }

  /** The table anchors come in the order of the reported tables. */
  lemma {:induction false} TablesInOrder(doc: Document, a: seq<VlmTable>, b: seq<VlmTable>)
    ensures VerifiedTables(doc, a + b) == VerifiedTables(doc, a) + VerifiedTables(doc, b)
  {
    if b == [] {
      assert a + b == a;
    } else {
      var init, last := Init(b), Last(b);
      assert b == init + [last] && a + b == (a + init) + [last];
      TablesInOrder(doc, a, init);
      TablesSnoc(doc, a + init, last);
      TablesSnoc(doc, init, last);
      hide VerifiedTables, StitchedRows, AnchorFor;
    }
  }

  /** What a learned template says of itself. */
  lemma LearnedSays(e: Engine, theme: string, d: Discovered, vlm: VlmResult, doc: Document)
    ensures var r := Synthesised(e, theme, d, vlm, doc);
            r.Returned? && r.value.Some? ==>
              var t := r.value.value;
              && t.theme == theme && t.documentTypeLabel == d.documentTypeLabel && t.institution == d.institution
              && t.source == VlmDiscovered && t.version == 1
              && t.fingerprintKey
                 == theme + "::" + Underscored(d.institution) + "::" + Underscored(d.documentTypeLabel)
              && (forall a :: a in t.tableAnchors ==> exists v :: v in vlm.tables && AnchorOf(a, v))
  {
    TableAnchorsFrom(doc, vlm.tables);
    hide VerifiedAnchors, VerifiedTables;
  }

  /** The table anchor keeps type and headers; its amount column is the first that mentions an amount or a value. */
  predicate AnchorOf(a: TableAnchor, v: VlmTable) {
    && a.tableType == v.tableType && a.headerSignature == v.headers && a.minColumns == Max(1, |v.headers|)
    && match a.amountColumn
       case Some(k) => k < |v.headers| && MentionsAmount(v.headers[k])
                       && forall j :: 0 <= j < k ==> !MentionsAmount(v.headers[j])
       case None => forall j :: 0 <= j < |v.headers| ==> !MentionsAmount(v.headers[j])
  }

  predicate MentionsAmount(header: string) {
    Within("amount", Lower(header)) || Within("value", Lower(header))
  }

  lemma {:induction false} AmountColumnMeaning(headers: seq<string>, from: nat)
    requires forall j :: 0 <= j < from && j < |headers| ==> !MentionsAmount(headers[j])
    ensures match AmountColumn(headers, from)
            case Some(k) => k < |headers| && MentionsAmount(headers[k])
                            && forall j :: 0 <= j < k ==> !MentionsAmount(headers[j])
            case None => forall j :: 0 <= j < |headers| ==> !MentionsAmount(headers[j])
    decreases |headers| - from
  {
    hide Within, Lower;
    if from < |headers| && !MentionsAmount(headers[from]) {
      AmountColumnMeaning(headers, from + 1);
    }
  }

  lemma {:induction false} TableAnchorsFrom(doc: Document, tables: seq<VlmTable>)
    ensures forall a :: a in VerifiedTables(doc, tables) ==> exists v :: v in tables && AnchorOf(a, v)
  {
    if tables != [] {
      var last := Last(tables);
      assert tables == Init(tables) + [last] && last in tables;
      TableAnchorsFrom(doc, Init(tables));
      AmountColumnMeaning(last.headers, 0);
      assert AnchorOf(AnchorFor(last), last);
      hide AnchorOf, StitchedRows;
    }
  }

  // ---- Soundness ----

  /** The same but for case and outer blanks. */
  predicate SameText(a: string, b: string) {
    Lower(Strip(a)) == Lower(Strip(b))
  }

  /** The anchor finds, on its own, the VLM's value, but for case and outer blanks. */
  predicate Solid(e: Engine, vlm: VlmResult, doc: Document, a: FieldAnchor) {
    var r := AnchorLookup(e, doc, a);
    && r.Returned? && r.value.FoundField?
    && SameText(r.value.field.originalString, Target(vlm, a.fieldName))
  }

  predicate FieldsReproduce(x: Extraction, vlm: VlmResult, anchors: seq<FieldAnchor>) {
    && (forall a :: a in anchors ==> a.fieldName in x.fields)
    && (forall name :: name in x.fields ==> SameText(x.fields[name].originalString, Target(vlm, name)))
  }

  /** What a learned template owes its own document. */
  predicate Faithful(e: Engine, theme: string, vlm: VlmResult, doc: Document, t: Template) {
    var r := Extracted(e, t, doc);
    && t.theme == theme
    && Clean(r)
    && FieldsReproduce(r.value, vlm, t.fieldAnchors)
    && |r.value.tables| == |t.tableAnchors|
  }

  lemma SingleAnchorProbe(e: Engine, theme: string, d: Discovered, vlm: VlmResult, doc: Document, a: FieldAnchor)
    ensures Reproduces(Extracted(e, Probe(theme, d, a), doc), a.fieldName, Target(vlm, a.fieldName))
            <==> Solid(e, vlm, doc, a)
  {
    assert Init([a]) == [] && Last([a]) == a;
    assert ExtractFields(e, doc, []) == Returned(Extraction(map[], [], []));
    assert ExtractFields(e, doc, [a])
        == AddField(Extraction(map[], [], []), AnchorLookup(e, doc, a), a.fieldName);
  }

  /** One field: an anchor that is kept reproduces the VLM's value, and none is kept only if none does. */
  lemma {:induction false} KeptAnchorReproduces(
    e: Engine, theme: string, d: Discovered, vlm: VlmResult, doc: Document, name: string, candidates: seq<FieldAnchor>)
    requires forall c :: c in candidates ==> c.fieldName == name
    ensures match FirstReproducing(e, theme, d, doc, candidates, Target(vlm, name))
            case Raised => true
            case Returned(Some(a)) => a in candidates && Solid(e, vlm, doc, a)
            case Returned(None) => forall c :: c in candidates ==> !Solid(e, vlm, doc, c)
  {
    if candidates != [] {
      var c := candidates[0];
      SingleAnchorProbe(e, theme, d, vlm, doc, c);
      KeptAnchorReproduces(e, theme, d, vlm, doc, name, candidates[1..]);
      assert forall c' :: c' in candidates ==> c' == c || c' in candidates[1..];
    }
  }

  lemma {:induction false} VerifiedAnchorsAreSolid(
    e: Engine, theme: string, d: Discovered, vlm: VlmResult, doc: Document, names: seq<string>)
    ensures var r := VerifiedAnchors(e, theme, d, vlm, doc, names);
            r.Returned? ==> forall a :: a in r.value ==> Solid(e, vlm, doc, a) && a.fieldName in names
  {
    if names != [] {
      VerifiedAnchorsAreSolid(e, theme, d, vlm, doc, Init(names));
      KeptAnchorReproduces(e, theme, d, vlm, doc, Last(names), Candidates(e, doc, vlm, Last(names)));
    }
  }

  lemma SolidAdds(e: Engine, vlm: VlmResult, doc: Document, x: Extraction, anchors: seq<FieldAnchor>, a: FieldAnchor)
    requires Solid(e, vlm, doc, a) && FieldsReproduce(x, vlm, anchors)
    ensures var r := AddField(x, AnchorLookup(e, doc, a), a.fieldName);
            && r.Returned? && r.value.abstentions == x.abstentions && r.value.tables == x.tables
            && FieldsReproduce(r.value, vlm, anchors + [a])
            && r.value.fields != map[]
  {
    hide SameText, AnchorLookup;
    var r := AddField(x, AnchorLookup(e, doc, a), a.fieldName);
    assert a.fieldName in r.value.fields;
  }

  lemma {:induction false} SolidAnchorsExtract(e: Engine, vlm: VlmResult, doc: Document, anchors: seq<FieldAnchor>)
    requires forall a :: a in anchors ==> Solid(e, vlm, doc, a)
    ensures var r := ExtractFields(e, doc, anchors);
            && r.Returned? && r.value.abstentions == [] && r.value.tables == []
            && FieldsReproduce(r.value, vlm, anchors)
            && (anchors != [] ==> r.value.fields != map[])
  {
    if anchors != [] {
      var a := Last(anchors);
      assert anchors == Init(anchors) + [a];
      SolidAnchorsExtract(e, vlm, doc, Init(anchors));
      SolidAdds(e, vlm, doc, ExtractFields(e, doc, Init(anchors)).value, Init(anchors), a);
      hide Solid, FieldsReproduce, AnchorLookup, AddField;
    }
  }

  lemma {:induction false} VerifiedTablesAreFound(doc: Document, tables: seq<VlmTable>)
    ensures forall a :: a in VerifiedTables(doc, tables)
              ==> LookupTable(doc.tables, a.headerSignature, a.tableType).FoundTable?
  {
    if tables != [] {
      VerifiedTablesAreFound(doc, Init(tables));
      StitchedRowsSource(doc.tables, Last(tables).headers);
      LookupAgreesWithStitch(doc.tables, Last(tables).headers, Last(tables).tableType);
    }
  }

  lemma {:induction false} FoundTablesExtract(x: Extraction, doc: Document, anchors: seq<TableAnchor>)
    requires forall a :: a in anchors ==> LookupTable(doc.tables, a.headerSignature, a.tableType).FoundTable?
    ensures var y := AddTables(x, doc, anchors);
            y.fields == x.fields && y.abstentions == x.abstentions && |y.tables| == |x.tables| + |anchors|
  {
    if anchors != [] {
      assert anchors == Init(anchors) + [Last(anchors)];
      FoundTablesExtract(x, doc, Init(anchors));
    }
  }

  /** Self-verification is sound: a learned template extracts cleanly, and faithfully, from its own document. */
  lemma SynthesisIsFaithful(e: Engine, theme: string, d: Discovered, vlm: VlmResult, doc: Document)
    ensures var r := Synthesised(e, theme, d, vlm, doc);
            r.Returned? && r.value.Some? ==> Faithful(e, theme, vlm, doc, r.value.value)
  {
    var r := Synthesised(e, theme, d, vlm, doc);
    if r.Returned? && r.value.Some? {
      var t := r.value.value;
      VerifiedAnchorsAreSolid(e, theme, d, vlm, doc, d.metadataFields);
      SolidAnchorsExtract(e, vlm, doc, t.fieldAnchors);
      VerifiedTablesAreFound(doc, vlm.tables);
      var x := ExtractFields(e, doc, t.fieldAnchors).value;
      FoundTablesExtract(x, doc, t.tableAnchors);
    }
  }

  lemma {:induction false} KeptRowsSource(rows: seq<Row>)
    ensures KeptRows(rows) != [] <==> exists r :: r in rows && r.Cells?
  {
    if rows != [] {
      KeptRowsSource(rows[1..]);
      assert rows[0] in rows;
    }
  }

  /** Where extraction takes a table's rows from: the first best-scoring table, and only those rows that are lists. */
  ghost predicate BestTableHasCells(doc: Document, t: VlmTable) {
    var best := BestMatch(doc.tables, t.headers).table;
    best.Some? && exists r :: r in best.value.rows && r.Cells?
  }

  /**
   * A verified table is always found, and it is extracted with rows exactly when the first best-scoring table has
   * a row that is a list. Verification asks for less: a row of any kind in any table with a close enough header.
   */
  lemma VerifiedTableHasRowsIff(doc: Document, t: VlmTable)
    requires t.headers != [] && StitchedRows(doc.tables, t.headers) != []
    ensures VerifiedTables(doc, [t]) == [AnchorFor(t)]
    ensures var found := LookupTable(doc.tables, t.headers, t.tableType);
            found.FoundTable? && (found.table.rows != [] <==> BestTableHasCells(doc, t))
  {
    assert Init([t]) == [] && Last([t]) == t;
    StitchedRowsSource(doc.tables, t.headers);
    LookupAgreesWithStitch(doc.tables, t.headers, t.tableType);
    KeptRowsSource(BestMatch(doc.tables, t.headers).table.value.rows);
  }

  const AMOUNTS := VlmTable("amounts", ["a"])

  lemma SameHeaderScoresOne()
    ensures HeaderSignatureMatch(["a"], ["a"]) == 1.0
  {
    assert HeadersClose("a", ["a"][0]);
    assert HasCloseHeader("a", ["a"]);
    assert Init(["a"]) == [] && Hits([], ["a"]) == 0;
  }

  /** It does fail: one table whose only row is not a list is verified, and extracted without rows. */
  lemma RowThatIsNoListIsLost()
    ensures var doc := Document([], [RawTable(["a"], [NotAList], None)], []);
            && VerifiedTables(doc, [AMOUNTS]) == [AnchorFor(AMOUNTS)]
            && LookupTable(doc.tables, ["a"], "amounts") == FoundTable(Table("amounts_0", "amounts", ["a"], []))
  {
    var t := RawTable(["a"], [NotAList], None);
    var doc := Document([], [t], []);
    SameHeaderScoresOne();
    assert Init([t]) == [] && t in doc.tables && SignatureAccepts(["a"], t);
    assert BestMatch([t], ["a"]) == Best(Some(t), 1.0);
    StitchedRowsSource(doc.tables, ["a"]);
    VerifiedTableHasRowsIff(doc, AMOUNTS);
  }

  /** And so is an empty table that comes before another with the same header and a row. */
  lemma EmptyTableHidesRows(row: seq<string>)
    ensures var doc := Document([], [RawTable(["a"], [], None), RawTable(["a"], [Cells(row)], None)], []);
            && VerifiedTables(doc, [AMOUNTS]) == [AnchorFor(AMOUNTS)]
            && LookupTable(doc.tables, ["a"], "amounts") == FoundTable(Table("amounts_0", "amounts", ["a"], []))
  {
    var empty, full := RawTable(["a"], [], None), RawTable(["a"], [Cells(row)], None);
    var doc := Document([], [empty, full], []);
    SameHeaderScoresOne();
    assert Init([empty, full]) == [empty] && Init([empty]) == [];
    assert full in doc.tables && SignatureAccepts(["a"], full);
    assert BestMatch([empty], ["a"]) == Best(Some(empty), 1.0);
    assert BestMatch([empty, full], ["a"]) == Best(Some(empty), 1.0);
    StitchedRowsSource(doc.tables, ["a"]);
    VerifiedTableHasRowsIff(doc, AMOUNTS);
  }
}
