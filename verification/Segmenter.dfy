/** Splitting a document into sections where the dominant statement type changes. */
module Segmenter {
  import opened Common

  datatype Schema = BankStatement | CustodyStatement | SwiftConfirm | Unknown

  /** A page's number and its keyword density for each known statement type. */
  datatype Page = Page(number: int, bank: real, custody: real, swift: real)

  datatype Section = Section(startPage: int, endPage: int, pages: seq<Page>, schema: Schema, confidence: real)

  function Score(p: Page, schema: Schema): real {
    match schema
    case BankStatement => p.bank
    case CustodyStatement => p.custody
    case SwiftConfirm => p.swift
    case Unknown => 0.0
  }

  /** The best of three scores; the first of equals. */
  function BestType(bank: real, custody: real, swift: real): Schema {
    if bank >= custody && bank >= swift then BankStatement
    else if custody >= swift then CustodyStatement
    else SwiftConfirm
  }

  function BestOn(p: Page): Schema {
    BestType(p.bank, p.custody, p.swift)
  }

  function Peak(p: Page): real {
    Score(p, BestOn(p))
  }

  function DominantSchema(p: Page): Schema {
    if Peak(p) > 0.005 then BestOn(p) else Unknown
  }

  predicate IsSectionBoundary(prev: Page, curr: Page) {
    if DominantSchema(prev) == Unknown || DominantSchema(curr) == Unknown then false
    else DominantSchema(prev) != DominantSchema(curr) && Peak(prev) > 0.02 && Peak(curr) > 0.02
  }

  function Weight(pages: seq<Page>, schema: Schema): real {
    if pages == [] then 0.0 else Weight(Init(pages), schema) + Score(Last(pages), schema)
  }

  function ResolveSectionSchema(pages: seq<Page>): Schema {
    var best := BestType(Weight(pages, BankStatement), Weight(pages, CustodyStatement), Weight(pages, SwiftConfirm));
    if Weight(pages, best) > 0.01 then best else Unknown
  }

  function SectionConfidence(pages: seq<Page>, schema: Schema): real {
    if pages == [] || schema == Unknown then 0.0 else Weight(pages, schema) / |pages| as real
  }

  /** The section closed over pages of a longer document. */
  function Closed(pages: seq<Page>): Section
    requires pages != []
  {
    var schema := ResolveSectionSchema(pages);
    Section(pages[0].number, Last(pages).number, pages, schema, SectionConfidence(pages, schema))
  }

  /** The section of a one-page document. */
  function Alone(page: Page): Section {
    Section(page.number, page.number, [page], DominantSchema(page), Peak(page))
  }

  // ---- What a page and a section are taken for ----

  /** The type that stands out: its score is the highest, the first of equals in this order, and above the noise. */
  lemma DominantMeaning(p: Page)
    ensures DominantSchema(p) == BankStatement <==> p.bank > 0.005 && p.bank >= p.custody && p.bank >= p.swift
    ensures DominantSchema(p) == CustodyStatement <==> p.custody > 0.005 && p.custody > p.bank && p.custody >= p.swift
    ensures DominantSchema(p) == SwiftConfirm <==> p.swift > 0.005 && p.swift > p.bank && p.swift > p.custody
    ensures Peak(p) in {p.bank, p.custody, p.swift} && Peak(p) >= p.bank && Peak(p) >= p.custody && Peak(p) >= p.swift
  {
  }

  function Sum(values: seq<real>): real {
    if values == [] then 0.0 else Sum(Init(values)) + Last(values)
  }

  function BankScores(pages: seq<Page>): seq<real> {
    seq(|pages|, i requires 0 <= i < |pages| => pages[i].bank)
  }

  function CustodyScores(pages: seq<Page>): seq<real> {
    seq(|pages|, i requires 0 <= i < |pages| => pages[i].custody)
  }

  function SwiftScores(pages: seq<Page>): seq<real> {
    seq(|pages|, i requires 0 <= i < |pages| => pages[i].swift)
  }

  lemma {:induction false} WeightIsSum(pages: seq<Page>)
    ensures Weight(pages, BankStatement) == Sum(BankScores(pages))
    ensures Weight(pages, CustodyStatement) == Sum(CustodyScores(pages))
    ensures Weight(pages, SwiftConfirm) == Sum(SwiftScores(pages))
  {
    if pages != [] {
      WeightIsSum(Init(pages));
      assert Init(BankScores(pages)) == BankScores(Init(pages));
      assert Init(CustodyScores(pages)) == CustodyScores(Init(pages));
      assert Init(SwiftScores(pages)) == SwiftScores(Init(pages));
    }
  }

  /** A section is labelled by the scores of all its pages together; its confidence is their mean. */
  lemma LabelMeaning(pages: seq<Page>)
    requires pages != []
    ensures var bank, custody, swift := Sum(BankScores(pages)), Sum(CustodyScores(pages)), Sum(SwiftScores(pages));
            var s := Closed(pages);
      && (s.schema == BankStatement <==> bank > 0.01 && bank >= custody && bank >= swift)
      && (s.schema == CustodyStatement <==> custody > 0.01 && custody > bank && custody >= swift)
      && (s.schema == SwiftConfirm <==> swift > 0.01 && swift > bank && swift > custody)
      && s.confidence * |pages| as real == match s.schema
                                           case BankStatement => bank
                                           case CustodyStatement => custody
                                           case SwiftConfirm => swift
                                           case Unknown => 0.0
  {
    WeightIsSum(pages);
    var schema := ResolveSectionSchema(pages);
    assert Weight(pages, schema) / |pages| as real * |pages| as real == Weight(pages, schema);
    hide Sum;
  }

  /** A document of one page is one section of the page's type, as sure as the page's highest score. */
  lemma AloneMeaning(p: Page)
    ensures Alone(p).startPage == Alone(p).endPage == p.number && Alone(p).pages == [p]
    ensures Alone(p).schema == DominantSchema(p)
    ensures Alone(p).confidence == if p.bank >= p.custody && p.bank >= p.swift then p.bank
                                   else if p.custody >= p.swift then p.custody else p.swift
  {
  }

  // ---- What a segmentation is ----

  function PagesOf(sections: seq<Section>): (pss: seq<seq<Page>>)
    ensures |pss| == |sections| && forall k :: 0 <= k < |pss| ==> pss[k] == sections[k].pages
  {
    seq(|sections|, k requires 0 <= k < |sections| => sections[k].pages)
  }

  ghost predicate Unbroken(pages: seq<Page>) {
    pages != [] && forall i :: 0 < i < |pages| ==> !IsSectionBoundary(pages[i - 1], pages[i])
  }

  ghost predicate BreakBetween(prev: Section, next: Section) {
    prev.pages != [] && next.pages != [] && IsSectionBoundary(Last(prev.pages), next.pages[0])
  }

  /** Non-empty sections that concatenate to the document, with a boundary between any two and none inside one. */
  ghost predicate Segments(pages: seq<Page>, sections: seq<Section>) {
    && Flatten(PagesOf(sections)) == pages
    && (forall k :: 0 <= k < |sections| ==> Unbroken(sections[k].pages))
    && (forall k :: 0 < k < |sections| ==> BreakBetween(sections[k - 1], sections[k]))
  }

  ghost predicate Labelled(pages: seq<Page>, s: Section) {
    s.pages != [] && s == if |pages| == 1 then Alone(s.pages[0]) else Closed(s.pages)
  }

  lemma SegmentsExtended(pages: seq<Page>, sections: seq<Section>, s: Section)
    requires Segments(pages, sections) && Unbroken(s.pages)
    requires sections != [] ==> BreakBetween(Last(sections), s)
    ensures Segments(pages + s.pages, sections + [s])
  {
    FlattenSnoc(PagesOf(sections), s.pages);
    assert PagesOf(sections + [s]) == PagesOf(sections) + [s.pages];
    assert sections != [] ==> (sections + [s])[|sections| - 1] == Last(sections);
  }

  /** The pages before `start` are in closed sections; those from `start` to `i` belong to the open one. */
  ghost predicate Scanned(pages: seq<Page>, sections: seq<Section>, start: nat, i: nat) {
    && start < i <= |pages|
    && Segments(pages[..start], sections)
    && Unbroken(pages[start..i])
    && (sections != [] ==> BreakBetween(Last(sections), Closed(pages[start..i])))
    && (forall s :: s in sections ==> Labelled(pages, s))
  }

  lemma PageJoins(pages: seq<Page>, sections: seq<Section>, start: nat, i: nat)
    requires Scanned(pages, sections, start, i) && i < |pages| && !IsSectionBoundary(pages[i - 1], pages[i])
    ensures Scanned(pages, sections, start, i + 1)
  {
    assert pages[start..i + 1] == pages[start..i] + [pages[i]];
  }

  lemma SectionCloses(pages: seq<Page>, sections: seq<Section>, start: nat, i: nat)
    requires Scanned(pages, sections, start, i) && |pages| > 1
    ensures Segments(pages[..i], sections + [Closed(pages[start..i])])
    ensures forall s :: s in sections + [Closed(pages[start..i])] ==> Labelled(pages, s)
  {
    SegmentsExtended(pages[..start], sections, Closed(pages[start..i]));
    assert pages[..start] + pages[start..i] == pages[..i];
  }

  lemma NextOpens(pages: seq<Page>, sections: seq<Section>, start: nat, i: nat)
    requires Scanned(pages, sections, start, i) && i < |pages| && IsSectionBoundary(pages[i - 1], pages[i])
    ensures Scanned(pages, sections + [Closed(pages[start..i])], i, i + 1)
  {
    SectionCloses(pages, sections, start, i);
    assert Last(pages[start..i]) == pages[i - 1] && pages[i..i + 1] == [pages[i]];
    hide Segments, Labelled, IsSectionBoundary;
  }

  method SegmentDocument(pages: seq<Page>) returns (sections: seq<Section>)
    ensures Segments(pages, sections)
    ensures forall s :: s in sections ==> Labelled(pages, s)
  {
    sections := [];
    if pages == [] {
      return;
    }
    if |pages| == 1 {
      SegmentsExtended([], [], Alone(pages[0]));
      sections := [] + [Alone(pages[0])];
      assert [] + sections[0].pages == pages;
      return;
    }
    hide Segments, Closed, Labelled, IsSectionBoundary, BreakBetween;
    var currentStart := 0;
    for i := 1 to |pages|
      invariant Scanned(pages, sections, currentStart, i)
    {
      if IsSectionBoundary(pages[i - 1], pages[i]) {
        NextOpens(pages, sections, currentStart, i);
        sections := sections + [Closed(pages[currentStart..i])];
        currentStart := i;
      } else {
        PageJoins(pages, sections, currentStart, i);
      }
    }
    SectionCloses(pages, sections, currentStart, |pages|);
    sections := sections + [Closed(pages[currentStart..])];
    assert pages[..|pages|] == pages && pages[currentStart..] == pages[currentStart..|pages|];
  }

  // ---- The segmentation is determined by the boundary test ----

  lemma {:induction false} FlattenCons(s: Section, rest: seq<Section>)
    ensures Flatten(PagesOf([s] + rest)) == s.pages + Flatten(PagesOf(rest))
  {
    assert PagesOf([s] + rest)[1..] == PagesOf(rest);
  }

  /** The first section is an unbroken prefix, and ends where the document does or at the first boundary. */
  lemma FirstSection(pages: seq<Page>, a: seq<Section>)
    requires Segments(pages, a) && a != []
    ensures a[0].pages != [] && a[0].pages <= pages
    ensures forall i :: 0 < i < |a[0].pages| ==> !IsSectionBoundary(pages[i - 1], pages[i])
    ensures |a[0].pages| < |pages| ==> IsSectionBoundary(pages[|a[0].pages| - 1], pages[|a[0].pages|])
  {
    assert a == [a[0]] + a[1..];
    FlattenCons(a[0], a[1..]);
    if |a| > 1 {
      assert a[1..] == [a[1]] + a[2..];
      FlattenCons(a[1], a[2..]);
      assert BreakBetween(a[0], a[1]);
    } else {
      assert PagesOf(a[1..]) == [];
    }
  }

  lemma RestSegments(pages: seq<Page>, a: seq<Section>)
    requires Segments(pages, a) && a != []
    ensures pages == a[0].pages + pages[|a[0].pages|..] && Segments(pages[|a[0].pages|..], a[1..])
  {
    assert a == [a[0]] + a[1..];
    FlattenCons(a[0], a[1..]);
    assert pages == a[0].pages + Flatten(PagesOf(a[1..]));
    forall k | 0 < k < |a[1..]| ensures BreakBetween(a[1..][k - 1], a[1..][k]) {
      assert BreakBetween(a[k], a[k + 1]);
    }
  }

  /** Any two segmentations of one document have the same sections of pages. */
  lemma {:induction false} SegmentationIsUnique(pages: seq<Page>, a: seq<Section>, b: seq<Section>)
    requires Segments(pages, a) && Segments(pages, b)
    ensures PagesOf(a) == PagesOf(b)
    decreases |a|
  {
    if a == [] || b == [] {
      if a != [] {
        RestSegments(pages, a);
      }
      if b != [] {
        RestSegments(pages, b);
      }
    } else {
      FirstSection(pages, a);
      FirstSection(pages, b);
      RestSegments(pages, a);
      RestSegments(pages, b);
      assert a[0].pages == pages[..|a[0].pages|] == b[0].pages;
      SegmentationIsUnique(pages[|a[0].pages|..], a[1..], b[1..]);
      assert PagesOf(a) == [a[0].pages] + PagesOf(a[1..]);
      assert PagesOf(b) == [b[0].pages] + PagesOf(b[1..]);
    }
  }

  // ---- Which pages share a section ----

  /** How many pages the first `k` sections have. */
  function Length(sections: seq<Section>, k: nat): nat
    requires k <= |sections|
  {
    |Flatten(PagesOf(sections[..k]))|
  }

  ghost predicate InSection(sections: seq<Section>, k: nat, i: nat) {
    k < |sections| && Length(sections, k) <= i < Length(sections, k + 1)
  }

  ghost predicate Together(sections: seq<Section>, i: nat, j: nat) {
    exists k: nat :: InSection(sections, k, i) && InSection(sections, k, j)
  }

  lemma SectionSlice(pages: seq<Page>, sections: seq<Section>, k: nat)
    requires Segments(pages, sections) && k < |sections|
    ensures Length(sections, k) + |sections[k].pages| == Length(sections, k + 1) <= |pages|
    ensures sections[k].pages == pages[Length(sections, k)..Length(sections, k + 1)]
  {
    PrefixSnoc(sections, k);
    var before, s, rest := PagesOf(sections[..k]), sections[k], PagesOf(sections[k + 1..]);
    assert PagesOf(sections[..k + 1]) == before + [s.pages];
    FlattenSnoc(before, s.pages);
    assert PagesOf(sections) == (before + [s.pages]) + rest;
    FlattenAppend(before + [s.pages], rest);
    assert pages == Flatten(before) + s.pages + Flatten(rest);
  }

  lemma WholeLength(pages: seq<Page>, sections: seq<Section>)
    requires Segments(pages, sections)
    ensures Length(sections, 0) == 0 && Length(sections, |sections|) == |pages|
  {
    assert sections[..|sections|] == sections && PagesOf(sections[..0]) == [];
  }

  lemma {:induction false} SectionOf(pages: seq<Page>, sections: seq<Section>, i: nat, k: nat) returns (at: nat)
    requires Segments(pages, sections) && k <= |sections| && i < Length(sections, k)
    ensures at < k && InSection(sections, at, i)
  {
    WholeLength(pages, sections);
    if Length(sections, k - 1) <= i {
      at := k - 1;
    } else {
      at := SectionOf(pages, sections, i, k - 1);
    }
  }

  lemma {:induction false} LengthsAscend(pages: seq<Page>, sections: seq<Section>, j: nat, k: nat)
    requires Segments(pages, sections) && j <= k <= |sections|
    ensures Length(sections, j) <= Length(sections, k)
  {
    if j < k {
      LengthsAscend(pages, sections, j, k - 1);
      SectionSlice(pages, sections, k - 1);
    }
  }

  /** Where a section other than the last ends there is a boundary. */
  lemma EndIsBoundary(pages: seq<Page>, sections: seq<Section>, k: nat)
    requires Segments(pages, sections) && k + 1 < |sections|
    ensures 0 < Length(sections, k + 1) < |pages|
    ensures IsSectionBoundary(pages[Length(sections, k + 1) - 1], pages[Length(sections, k + 1)])
  {
    SectionSlice(pages, sections, k);
    SectionSlice(pages, sections, k + 1);
    assert BreakBetween(sections[k], sections[k + 1]);
  }

  lemma InsideIsUnbroken(pages: seq<Page>, sections: seq<Section>, k: nat, b: nat)
    requires Segments(pages, sections) && k < |sections|
    requires Length(sections, k) < b < Length(sections, k + 1)
    ensures b < |pages| && !IsSectionBoundary(pages[b - 1], pages[b])
  {
    SectionSlice(pages, sections, k);
    var s, i := sections[k].pages, b - Length(sections, k);
    assert Unbroken(s) && s[i - 1] == pages[b - 1] && s[i] == pages[b];
  }

  /** In every document two pages share a section exactly when no boundary lies between them. */
  lemma TogetherIff(pages: seq<Page>, sections: seq<Section>, i: nat, j: nat)
    requires Segments(pages, sections) && i <= j < |pages|
    ensures Together(sections, i, j) <==> forall b :: i < b <= j ==> !IsSectionBoundary(pages[b - 1], pages[b])
  {
    WholeLength(pages, sections);
    if k: nat :| InSection(sections, k, i) && InSection(sections, k, j) {
      forall b | i < b <= j ensures !IsSectionBoundary(pages[b - 1], pages[b]) {
        InsideIsUnbroken(pages, sections, k, b);
      }
    } else {
      var k := SectionOf(pages, sections, i, |sections|);
      assert !InSection(sections, k, j);
      LengthsAscend(pages, sections, k + 1, |sections|);
      EndIsBoundary(pages, sections, k);
    }
  }

  /**
   * When a change of type starts a new section: exactly when the two pages are neighbours and both score above
   * 0.02. Unknown pages between them hide the change, and so does a faint page on either side.
   */
  lemma TypeChangeSplitsIff(pages: seq<Page>, sections: seq<Section>, i: nat, j: nat)
    requires Segments(pages, sections) && i < j < |pages|
    requires DominantSchema(pages[i]) != Unknown && DominantSchema(pages[j]) != Unknown
    requires DominantSchema(pages[i]) != DominantSchema(pages[j])
    requires forall m :: i < m < j ==> DominantSchema(pages[m]) == Unknown
    ensures !Together(sections, i, j) <==> j == i + 1 && Peak(pages[i]) > 0.02 && Peak(pages[j]) > 0.02
  {
    TogetherIff(pages, sections, i, j);
    hide Together;
    if j == i + 1 {
      assert IsSectionBoundary(pages[i], pages[j]) <==> Peak(pages[i]) > 0.02 && Peak(pages[j]) > 0.02;
    } else {
      forall b | i < b <= j ensures !IsSectionBoundary(pages[b - 1], pages[b]) {
        assert DominantSchema(pages[if b == i + 1 then b else b - 1]) == Unknown;
      }
    }
  }

  /** If its first and last page share a section, the document is one section. */
  lemma OneSection(pages: seq<Page>, sections: seq<Section>)
    requires Segments(pages, sections) && pages != [] && Together(sections, 0, |pages| - 1)
    ensures |sections| == 1
  {
    WholeLength(pages, sections);
    TogetherIff(pages, sections, 0, |pages| - 1);
    if |sections| > 1 {
      EndIsBoundary(pages, sections, 0);
    }
  }

  /** So a page of unknown type keeps its neighbours in one section with it, whatever they are. */
  lemma UnknownPageHidesChange(before: Page, unknown: Page, after: Page, sections: seq<Section>)
    requires DominantSchema(unknown) == Unknown
    requires Segments([before, unknown, after], sections)
    ensures |sections| == 1
  {
    var pages := [before, unknown, after];
    TogetherIff(pages, sections, 0, 2);
    OneSection(pages, sections);
  }

  /** And so does a page that is recognised, but scores no more than 0.02. */
  lemma FaintPageHidesChange(faint: Page, other: Page, sections: seq<Section>)
    requires Peak(faint) <= 0.02
    requires Segments([faint, other], sections) || Segments([other, faint], sections)
    ensures |sections| == 1
  {
    var pages := if Segments([faint, other], sections) then [faint, other] else [other, faint];
    TogetherIff(pages, sections, 0, 1);
    OneSection(pages, sections);
  }

  // ---- Labels ----

  lemma {:induction false} UnanimousWeights(pages: seq<Page>, schema: Schema)
    requires pages != [] && schema != Unknown
    requires forall p :: p in pages ==> DominantSchema(p) == schema
    ensures schema
         == BestType(Weight(pages, BankStatement), Weight(pages, CustodyStatement), Weight(pages, SwiftConfirm))
    ensures Weight(pages, schema) > 0.005
    ensures |pages| >= 2 ==> Weight(pages, schema) > 0.01
    ensures Weight(pages, schema) >= Peak(pages[0])
  {
    assert DominantSchema(Last(pages)) == schema;
    if |pages| == 1 {
      assert Init(pages) == [];
      assert forall s :: Weight(pages, s) == Score(pages[0], s);
    } else {
      assert Init(pages)[0] == pages[0];
      assert forall p :: p in Init(pages) ==> p in pages;
      UnanimousWeights(Init(pages), schema);
    }
  }

  /** A section all of whose pages have one known type is labelled with that type, whatever the document. */
  lemma UnanimousSectionIsLabelled(pages: seq<Page>, sections: seq<Section>, k: nat, schema: Schema)
    requires Segments(pages, sections) && k < |sections| && Labelled(pages, sections[k])
    requires schema != Unknown && forall p :: p in sections[k].pages ==> DominantSchema(p) == schema
    ensures sections[k].schema == schema
  {
    var s := sections[k];
    assert s.pages[0] in s.pages;
    UnanimousWeights(s.pages, schema);
    if |s.pages| == 1 {
      if k > 0 {
        assert BreakBetween(sections[k - 1], s);
      } else if |sections| > 1 {
        assert BreakBetween(s, sections[1]);
      } else {
        assert PagesOf(sections)[1..] == [];
        assert Flatten(PagesOf(sections)) == s.pages + Flatten([]);
        assert |pages| == 1;
      }
    }
  }

  // ---- The runner's page texts ----

  /** The texts the runner hands to a section's extractor. */
  function SectionTexts(texts: seq<string>, s: Section): seq<string>
    requires 1 <= s.startPage <= s.endPage + 1 && s.endPage <= |texts|
  {
    texts[s.startPage - 1..s.endPage]
  }

  predicate NumberedFromOne(pages: seq<Page>) {
    forall i :: 0 <= i < |pages| ==> pages[i].number == i + 1
  }

  lemma SectionSpan(pages: seq<Page>, sections: seq<Section>, k: nat)
    requires Segments(pages, sections) && k < |sections| && Labelled(pages, sections[k])
    requires NumberedFromOne(pages)
    ensures Length(sections, k) + |sections[k].pages| == Length(sections, k + 1) <= |pages|
    ensures sections[k].startPage == Length(sections, k) + 1 && sections[k].endPage == Length(sections, k + 1)
  {
    SectionSlice(pages, sections, k);
    var s := sections[k];
    assert s.pages[0] == pages[Length(sections, k)] && Last(s.pages) == pages[Length(sections, k + 1) - 1];
  }

  /** A section's slice lies inside the document's texts and has one text for each of its pages. */
  ghost predicate Sliced(texts: seq<string>, s: Section, slice: seq<string>) {
    && 1 <= s.startPage <= s.endPage <= |texts|
    && slice == SectionTexts(texts, s)
    && |slice| == |s.pages|
  }

  lemma SliceOf(pages: seq<Page>, sections: seq<Section>, texts: seq<string>, k: nat)
    requires Segments(pages, sections) && k < |sections| && Labelled(pages, sections[k])
    requires NumberedFromOne(pages) && |texts| >= |pages|
    ensures Length(sections, k) <= Length(sections, k + 1) <= |pages|
    ensures 1 <= sections[k].startPage <= sections[k].endPage <= |texts|
    ensures Sliced(texts, sections[k], SectionTexts(texts, sections[k]))
    ensures texts[..Length(sections, k)] + SectionTexts(texts, sections[k]) == texts[..Length(sections, k + 1)]
  {
    SectionSpan(pages, sections, k);
    assert Unbroken(sections[k].pages);
  }

  /** Every section gets exactly its pages' texts, and in order they are the texts of the whole document. */
  lemma {:induction false} TextsPartition(pages: seq<Page>, sections: seq<Section>, texts: seq<string>, k: nat)
    returns (slices: seq<seq<string>>)
    requires Segments(pages, sections) && k <= |sections| && NumberedFromOne(pages) && |texts| >= |pages|
    requires forall s :: s in sections ==> Labelled(pages, s)
    ensures |slices| == k && Length(sections, k) <= |pages|
    ensures forall j :: 0 <= j < k ==> Sliced(texts, sections[j], slices[j])
    ensures Flatten(slices) == texts[..Length(sections, k)]
    ensures k == |sections| ==> Length(sections, k) == |pages|
  {
    WholeLength(pages, sections);
    hide Segments, Length, SectionTexts, Sliced, Labelled, NumberedFromOne;
    if k == 0 {
      slices := [];
    } else {
      var before := TextsPartition(pages, sections, texts, k - 1);
      assert sections[k - 1] in sections;
      SliceOf(pages, sections, texts, k - 1);
      var slice := SectionTexts(texts, sections[k - 1]);
      slices := before + [slice];
      FlattenSnoc(before, slice);
    }
  }
}
