/** Which pages a targeted extraction sends for a list of missing fields. */
module TargetPages {
  import opened Common
  import opened ChunkedExtractor
  import opened Extremes

  datatype Strategy = First | Numbered(page: nat) | LastPage | LastButOne

  /** The zero-based page a strategy names. */
  function ResolvePageIndex(s: Strategy, total: nat): int {
    match s
    case First => 0
    case LastPage => total - 1
    case LastButOne => Max(0, total - 2)
    case Numbered(n) => Min(n - 1, total - 1)
  }

  /** The header fields, and where in a document each is looked for. */
  function FieldPageMapping(field: string): Option<(Strategy, Strategy)> {
    if field == "institution" || field == "client_name" then Some((First, First))
    else if field == "statement_date" || field == "period_from" || field == "period_to"
            || field == "account_number" || field == "iban" then Some((First, Numbered(2)))
    else if field == "opening_balance" || field == "currency" then Some((First, Numbered(3)))
    else if field == "closing_balance" then Some((LastButOne, LastPage))
    else None
  }

  predicate HeaderField(field: string) {
    FieldPageMapping(field).Some?
  }

  function FieldPages(field: string, total: nat): set<int> {
    match FieldPageMapping(field)
    case None => {0, 1, Min(2, total - 1)}
    case Some((from, to)) => PageRange(ResolvePageIndex(from, total), ResolvePageIndex(to, total))
  }

  function PageRange(lo: int, hi: int): (pages: set<int>)
    ensures forall p :: p in pages <==> lo <= p <= hi
    decreases hi - lo
  {
    if hi < lo then {} else PageRange(lo, hi - 1) + {hi}
  }

  datatype Group = Group(pages: set<int>, fields: seq<string>)

  /** The first group sharing a page with `pages`; the number of groups when none does. */
  function FirstOverlap(groups: seq<Group>, pages: set<int>): (k: nat)
    ensures k <= |groups|
    ensures k < |groups| ==> groups[k].pages * pages != {}
    ensures forall i :: 0 <= i < k ==> groups[i].pages * pages == {}
  {
    if groups == [] || groups[0].pages * pages != {} then 0 else 1 + FirstOverlap(groups[1..], pages)
  }

  /** The field joins the first group whose pages it shares, or starts one. */
  function Place(groups: seq<Group>, field: string, pages: set<int>): seq<Group> {
    var k := FirstOverlap(groups, pages);
    if k == |groups| then groups + [Group(pages, [field])]
    else groups[k := Group(groups[k].pages + pages, groups[k].fields + [field])]
  }

  /** The keys of a dictionary filled in list order: each field once, where it first occurs. */
  function Firsts(fields: seq<string>): seq<string> {
    if fields == [] then []
    else Firsts(Init(fields)) + if Last(fields) in Init(fields) then [] else [Last(fields)]
  }

  function Grouped(fields: seq<string>, total: nat): seq<Group> {
    if fields == [] then []
    else Place(Grouped(Init(fields), total), Last(fields), FieldPages(Last(fields), total))
  }

  datatype Target = Target(window: Window, fields: seq<string>)

  /** A group's pages as one window: at least two pages where the document has them, capped at five. */
  function TargetOf(g: Group, total: nat): Target
    requires |g.pages| > 0
  {
    var start, last := Least(g.pages), Greatest(g.pages);
    var widened := if last - start < 1 && last + 1 < total then start + 1 else last;
    var end := if widened - start >= 5 then start + 4 else widened;
    Target(Window(start + 1, end + 1), g.fields)
  }

  ghost predicate NonEmptyGroups(groups: seq<Group>) {
    forall i :: 0 <= i < |groups| ==> |groups[i].pages| > 0
  }

  function Targets(groups: seq<Group>, total: nat): seq<Target>
    requires NonEmptyGroups(groups)
  {
    seq(|groups|, i requires 0 <= i < |groups| => TargetOf(groups[i], total))
  }

  method PlaceField(groups: seq<Group>, field: string, pages: set<int>) returns (placed: seq<Group>)
    ensures placed == Place(groups, field, pages)
  {
    for i := 0 to |groups|
      invariant forall j :: 0 <= j < i ==> groups[j].pages * pages == {}
    {
      if groups[i].pages * pages != {} {
        return groups[i := Group(groups[i].pages + pages, groups[i].fields + [field])];
      }
    }
    placed := groups + [Group(pages, [field])];
  }

  method FieldNames(fields: seq<string>) returns (names: seq<string>)
    ensures names == Firsts(fields)
  {
    names := [];
    for i := 0 to |fields|
      invariant names == Firsts(fields[..i]) && forall f :: f in names <==> f in fields[..i]
    {
      assert Init(fields[..i + 1]) == fields[..i];
      if fields[i] !in names {
        names := names + [fields[i]];
      }
    }
    assert fields[..|fields|] == fields;
  }

  method GroupFields(names: seq<string>, total: nat) returns (groups: seq<Group>)
    ensures groups == Grouped(names, total)
  {
    groups := [];
    for i := 0 to |names|
      invariant groups == Grouped(names[..i], total)
    {
      assert Init(names[..i + 1]) == names[..i];
      groups := PlaceField(groups, names[i], FieldPages(names[i], total));
    }
    assert names[..|names|] == names;
  }

  method WindowGroups(groups: seq<Group>, total: nat) returns (targets: seq<Target>)
    requires NonEmptyGroups(groups)
    ensures targets == Targets(groups, total)
  {
    targets := [];
    for i := 0 to |groups|
      invariant |targets| == i && forall j :: 0 <= j < i ==> targets[j] == TargetOf(groups[j], total)
    {
      targets := targets + [TargetOf(groups[i], total)];
    }
  }

  method SelectTargetPages(fields: seq<string>, total: nat) returns (targets: seq<Target>)
    ensures fields == [] || total == 0 ==> targets == []
    ensures fields != [] && total >= 1 ==>
              var groups := Grouped(Firsts(fields), total);
              NonEmptyGroups(groups) && targets == Targets(groups, total)
  {
    if fields == [] || total == 0 {
      return [];
    }
    hide AllShaped, Targets, Grouped, Firsts;
    var names := FieldNames(fields);
    var groups := GroupFields(names, total);
    GroupsShaped(names, total);
    targets := WindowGroups(groups, total);
  }

  // ---- The shape of a group ----

  ghost predicate IsRange(s: set<int>, lo: int, hi: int) {
    lo <= hi && forall p :: p in s <==> lo <= p <= hi
  }

  /** The head of the document, its last two pages, or both when they meet. */
  predicate Kind(lo: int, hi: int, total: nat) {
    || (lo == 0 && hi <= 2)
    || (lo == Max(0, total - 2) && hi == total - 1)
    || (lo == 0 && hi == total - 1 && total <= 4)
  }

  ghost predicate Shaped(pages: set<int>, total: nat) {
    |pages| > 0 && IsRange(pages, Least(pages), Greatest(pages)) && Kind(Least(pages), Greatest(pages), total)
  }

  lemma RangeExtremes(s: set<int>, lo: int, hi: int)
    requires IsRange(s, lo, hi)
    ensures |s| > 0 && Least(s) == lo && Greatest(s) == hi
  {
    assert lo in s && hi in s;
  }

  lemma HeaderMappings(field: string)
    requires HeaderField(field)
    ensures FieldPageMapping(field).value in
              [(First, First), (First, Numbered(2)), (First, Numbered(3)), (LastButOne, LastPage)]
  {
  }

  lemma RangeShaped(lo: int, hi: int, total: nat)
    requires 0 <= lo <= hi < total && Kind(lo, hi, total)
    ensures Shaped(PageRange(lo, hi), total) && Greatest(PageRange(lo, hi)) < total
  {
    RangeExtremes(PageRange(lo, hi), lo, hi);
  }

  lemma MappingShaped(from: Strategy, to: Strategy, total: nat)
    requires total >= 1
    requires (from, to) in [(First, First), (First, Numbered(2)), (First, Numbered(3)), (LastButOne, LastPage)]
    ensures var pages := PageRange(ResolvePageIndex(from, total), ResolvePageIndex(to, total));
            Shaped(pages, total) && Greatest(pages) < total
  {
    RangeShaped(ResolvePageIndex(from, total), ResolvePageIndex(to, total), total);
  }

  lemma FieldShaped(field: string, total: nat)
    requires total >= 1
    ensures Shaped(FieldPages(field, total), total)
    ensures HeaderField(field) || total >= 2 ==> Greatest(FieldPages(field, total)) < total
    ensures !HeaderField(field) ==> 1 in FieldPages(field, total)
  {
    if HeaderField(field) {
      HeaderMappings(field);
      MappingShaped(FieldPageMapping(field).value.0, FieldPageMapping(field).value.1, total);
    } else {
      RangeExtremes(FieldPages(field, total), 0, Max(1, Min(2, total - 1)));
    }
  }

  lemma UnionShaped(a: set<int>, b: set<int>, total: nat)
    requires total >= 1 && Shaped(a, total) && Shaped(b, total) && a * b != {}
    ensures Shaped(a + b, total)
    ensures Greatest(a + b) == Max(Greatest(a), Greatest(b))
  {
    assert |a * b| > 0;
    var p := AnyOf(a * b);
    RangeExtremes(a + b, Min(Least(a), Least(b)), Max(Greatest(a), Greatest(b)));
  }

  ghost predicate AllShaped(groups: seq<Group>, total: nat) {
    forall i :: 0 <= i < |groups| ==> Shaped(groups[i].pages, total)
  }

  lemma PlaceShaped(groups: seq<Group>, field: string, pages: set<int>, total: nat)
    requires total >= 1 && AllShaped(groups, total) && Shaped(pages, total)
    ensures AllShaped(Place(groups, field, pages), total)
  {
    var k := FirstOverlap(groups, pages);
    if k < |groups| {
      UnionShaped(groups[k].pages, pages, total);
    }
  }

  lemma {:induction false} GroupsShaped(names: seq<string>, total: nat)
    requires total >= 1
    ensures AllShaped(Grouped(names, total), total) && NonEmptyGroups(Grouped(names, total))
  {
    if names != [] {
      GroupsShaped(Init(names), total);
      FieldShaped(Last(names), total);
      PlaceShaped(Grouped(Init(names), total), Last(names), FieldPages(Last(names), total), total);
    }
  }

  // ---- Where the fields are looked for ----

  /** Page by page, zero-based, for a document of `total` pages. */
  lemma FieldPagesTable(field: string, total: nat, p: int)
    requires total >= 1
    ensures field in ["institution", "client_name"] ==> (p in FieldPages(field, total) <==> p == 0)
    ensures field in ["statement_date", "period_from", "period_to", "account_number", "iban"] ==>
              (p in FieldPages(field, total) <==> 0 <= p < 2 && p < total)
    ensures field in ["opening_balance", "currency"] ==> (p in FieldPages(field, total) <==> 0 <= p < 3 && p < total)
    ensures field == "closing_balance" ==> (p in FieldPages(field, total) <==> 0 <= p && total - 2 <= p < total)
    ensures field !in ["institution", "client_name", "statement_date", "period_from", "period_to", "account_number",
                       "iban", "opening_balance", "currency", "closing_balance"] ==>
              (p in FieldPages(field, total) <==> 0 <= p < 2 || (p == 2 && p < total))
  {
  }

  /** A group's window begins with its first page and ends with its last, or the page after if it is the only one. */
  lemma WindowIsTight(g: Group, total: nat)
    requires total >= 1 && Shaped(g.pages, total)
    ensures var t := TargetOf(g, total);
      && t.fields == g.fields
      && t.window.start - 1 in g.pages && (forall p :: p in g.pages ==> t.window.start <= p + 1 <= t.window.end)
      && (t.window.end - 1 in g.pages
          || (g.pages == {t.window.start - 1} && t.window.end == t.window.start + 1 && t.window.end <= total))
  {
    var only := Least(g.pages);
    if only == Greatest(g.pages) {
      assert g.pages == {only};
    }
  }

  lemma GroupedSnoc(names: seq<string>, field: string, total: nat, groups: seq<Group>, pages: set<int>)
    requires Grouped(names, total) == groups && FieldPages(field, total) == pages
    ensures Grouped(names + [field], total) == Place(groups, field, pages)
  {
    assert Init(names + [field]) == names;
  }

  lemma JoinsFirst(g: Group, rest: seq<Group>, field: string, pages: set<int>)
    requires g.pages * pages != {}
    ensures Place([g] + rest, field, pages) == [Group(g.pages + pages, g.fields + [field])] + rest
  {
    assert FirstOverlap([g] + rest, pages) == 0;
  }

  lemma OnTenPages()
    ensures FieldPages("institution", 10) == {0} && FieldPages("closing_balance", 10) == {8, 9}
    ensures FieldPages("iban", 10) == {0, 1} && FieldPages("note", 10) == {0, 1, 2}
  {
  }

  lemma HeadAndTail()
    ensures Grouped([] + ["institution"] + ["closing_balance"], 10)
         == [Group({0}, ["institution"])] + [Group({8, 9}, ["closing_balance"])]
  {
    OnTenPages();
    hide FieldPages;
    var head := Group({0}, ["institution"]);
    assert Grouped([], 10) == [] && Place([], "institution", {0}) == [head];
    assert {0} * {8, 9} == {};
    assert Place([head], "closing_balance", {8, 9}) == [head] + [Group({8, 9}, ["closing_balance"])];
    hide Grouped, Place;
    GroupedSnoc([], "institution", 10, [], {0});
    GroupedSnoc([] + ["institution"], "closing_balance", 10, [head], {8, 9});
  }

  /** On ten pages: what stands at the head of the document is one call, the closing balance another. */
  lemma TenPages()
    ensures Grouped([] + ["institution"] + ["closing_balance"] + ["iban"] + ["note"], 10)
         == [Group({0} + {0, 1} + {0, 1, 2}, ["institution"] + ["iban"] + ["note"])]
            + [Group({8, 9}, ["closing_balance"])]
  {
    OnTenPages();
    HeadAndTail();
    hide FieldPages, Grouped, Place;
    var tail, head := [Group({8, 9}, ["closing_balance"])], Group({0}, ["institution"]);
    assert 0 in {0} * {0, 1};
    JoinsFirst(head, tail, "iban", {0, 1});
    GroupedSnoc([] + ["institution"] + ["closing_balance"], "iban", 10, [head] + tail, {0, 1});
    var longer := Group({0} + {0, 1}, ["institution"] + ["iban"]);
    assert 0 in ({0} + {0, 1}) * {0, 1, 2};
    JoinsFirst(longer, tail, "note", {0, 1, 2});
    GroupedSnoc([] + ["institution"] + ["closing_balance"] + ["iban"], "note", 10, [longer] + tail, {0, 1, 2});
  }

  // ---- Who is where ----

  predicate Listed(groups: seq<Group>, field: string) {
    exists i | 0 <= i < |groups| :: field in groups[i].fields
  }

  ghost predicate ServedAt(groups: seq<Group>, i: int, field: string, pages: set<int>) {
    0 <= i < |groups| && field in groups[i].fields && pages <= groups[i].pages
  }

  ghost predicate Disjoint(groups: seq<Group>) {
    forall i, j, f :: 0 <= i < j < |groups| && f in groups[i].fields ==> f !in groups[j].fields
  }

  lemma PlaceServes(groups: seq<Group>, field: string, pages: set<int>)
    ensures ServedAt(Place(groups, field, pages), FirstOverlap(groups, pages), field, pages)
    ensures forall i, f, ps :: ServedAt(groups, i, f, ps) ==> ServedAt(Place(groups, field, pages), i, f, ps)
    ensures forall i, f :: 0 <= i < |Place(groups, field, pages)| && f in Place(groups, field, pages)[i].fields
                           ==> (i < |groups| && f in groups[i].fields)
                               || (f == field && i == FirstOverlap(groups, pages))
  {
  }

  lemma PlaceListed(groups: seq<Group>, field: string, pages: set<int>)
    ensures forall f :: Listed(Place(groups, field, pages), f) <==> Listed(groups, f) || f == field
  {
    PlaceServes(groups, field, pages);
    forall f | Listed(groups, f) ensures Listed(Place(groups, field, pages), f) {
      var i :| 0 <= i < |groups| && f in groups[i].fields;
      assert ServedAt(groups, i, f, {});
      assert ServedAt(Place(groups, field, pages), i, f, {});
    }
    assert field in Place(groups, field, pages)[FirstOverlap(groups, pages)].fields;
  }

  lemma PlaceDisjoint(groups: seq<Group>, field: string, pages: set<int>)
    requires !Listed(groups, field) && Disjoint(groups)
    ensures Disjoint(Place(groups, field, pages))
  {
    PlaceServes(groups, field, pages);
  }

  lemma {:induction false} FirstsDistinct(fields: seq<string>)
    ensures forall f :: f in Firsts(fields) <==> f in fields
    ensures forall i, j :: 0 <= i < j < |Firsts(fields)| ==> Firsts(fields)[i] != Firsts(fields)[j]
  {
    if fields != [] {
      FirstsDistinct(Init(fields));
      assert fields == Init(fields) + [Last(fields)];
    }
  }

  /** In the order in which they come up first. */
  lemma {:induction false} FirstsInOrder(fields: seq<string>, more: seq<string>)
    ensures Firsts(fields) <= Firsts(fields + more)
  {
    if more == [] {
      assert fields + more == fields;
    } else {
      assert Init(fields + more) == fields + Init(more);
      FirstsInOrder(fields, Init(more));
    }
  }

  /** Every name is in exactly one group, and that group has all its pages. */
  lemma {:induction false} GroupsServe(names: seq<string>, total: nat)
    requires forall i, j :: 0 <= i < j < |names| ==> names[i] != names[j]
    ensures Disjoint(Grouped(names, total))
    ensures forall f :: f in names <==> Listed(Grouped(names, total), f)
    ensures forall f :: f in names ==> exists i :: ServedAt(Grouped(names, total), i, f, FieldPages(f, total))
  {
    if names != [] {
      var before, f := Grouped(Init(names), total), Last(names);
      GroupsServe(Init(names), total);
      assert names == Init(names) + [f];
      PlaceServes(before, f, FieldPages(f, total));
      PlaceListed(before, f, FieldPages(f, total));
      PlaceDisjoint(before, f, FieldPages(f, total));
      assert ServedAt(Grouped(names, total), FirstOverlap(before, FieldPages(f, total)), f, FieldPages(f, total));
      forall g | g in names ensures exists i :: ServedAt(Grouped(names, total), i, g, FieldPages(g, total)) {
        if g in Init(names) {
          var i :| ServedAt(before, i, g, FieldPages(g, total));
          assert ServedAt(Grouped(names, total), i, g, FieldPages(g, total));
        }
      }
    }
  }

  // ---- The theorem ----

  ghost predicate Inside(t: Target, total: nat) {
    1 <= t.window.start <= t.window.end <= total
  }

  ghost predicate Sends(t: Target, field: string, total: nat) {
    field in t.fields && forall p :: p in FieldPages(field, total) ==> t.window.start <= p + 1 <= t.window.end
  }

  /** A shaped group's window keeps every page of the group, and its size is within bounds. */
  lemma WindowOfShaped(g: Group, total: nat)
    requires total >= 1 && Shaped(g.pages, total)
    ensures var w := TargetOf(g, total).window;
            && (forall p :: p in g.pages ==> w.start <= p + 1 <= w.end)
            && Min(2, total) <= w.end - w.start + 1 <= 4
            && 1 <= w.start
            && (w.end <= total <==> Greatest(g.pages) < total)
  {
  }

  /** What pages a group has, its fields brought. */
  lemma {:induction false} PagesFromFields(names: seq<string>, total: nat)
    requires total >= 1 && (total >= 2 || forall f :: f in names ==> HeaderField(f))
    ensures forall i, p :: 0 <= i < |Grouped(names, total)| && p in Grouped(names, total)[i].pages ==> p < total
  {
    if names != [] {
      PagesFromFields(Init(names), total);
      FieldShaped(Last(names), total);
    }
  }

  lemma EveryFieldSent(fields: seq<string>, total: nat)
    requires total >= 1
    ensures NonEmptyGroups(Grouped(Firsts(fields), total))
    ensures forall f :: f in fields ==>
              exists i :: 0 <= i < |Grouped(Firsts(fields), total)|
                          && Sends(Targets(Grouped(Firsts(fields), total), total)[i], f, total)
  {
    var names := Firsts(fields);
    var groups := Grouped(names, total);
    FirstsDistinct(fields);
    GroupsServe(names, total);
    GroupsShaped(names, total);
    hide Grouped, Firsts, FieldPages, Shaped;
    forall f | f in fields ensures exists i :: 0 <= i < |groups| && Sends(Targets(groups, total)[i], f, total) {
      var i :| ServedAt(groups, i, f, FieldPages(f, total));
      WindowOfShaped(groups[i], total);
      assert Sends(Targets(groups, total)[i], f, total);
    }
  }

  lemma WindowsBounded(groups: seq<Group>, total: nat)
    requires total >= 1 && AllShaped(groups, total) && NonEmptyGroups(groups)
    ensures forall i :: 0 <= i < |groups| ==>
              && Min(2, total) <= Targets(groups, total)[i].window.end - Targets(groups, total)[i].window.start + 1 <= 4
              && (Inside(Targets(groups, total)[i], total) <==> Greatest(groups[i].pages) < total)
  {
    forall i | 0 <= i < |groups|
      ensures Min(2, total) <= Targets(groups, total)[i].window.end - Targets(groups, total)[i].window.start + 1 <= 4
      ensures Inside(Targets(groups, total)[i], total) <==> Greatest(groups[i].pages) < total
    {
      WindowOfShaped(groups[i], total);
    }
  }

  lemma InsideIff(fields: seq<string>, total: nat)
    requires total >= 1
    ensures NonEmptyGroups(Grouped(Firsts(fields), total))
    ensures var ts := Targets(Grouped(Firsts(fields), total), total);
            && (forall i :: 0 <= i < |ts| ==> Min(2, total) <= ts[i].window.end - ts[i].window.start + 1 <= 4)
            && ((forall i :: 0 <= i < |ts| ==> Inside(ts[i], total))
                <==> total >= 2 || forall f :: f in fields ==> HeaderField(f))
  {
    var names := Firsts(fields);
    var groups := Grouped(names, total);
    FirstsDistinct(fields);
    GroupsShaped(names, total);
    WindowsBounded(groups, total);
    EveryFieldSent(fields, total);
    hide TargetOf, Grouped, Firsts, AllShaped, FieldPages, HeaderField;
    var ts := Targets(groups, total);
    if total >= 2 || forall f :: f in fields ==> HeaderField(f) {
      PagesFromFields(names, total);
    } else {
      var f :| f in fields && !HeaderField(f);
      var i :| 0 <= i < |ts| && Sends(ts[i], f, total);
      FieldShaped(f, total);
      assert !Inside(ts[i], total);
    }
  }

  lemma TargetsApart(groups: seq<Group>, total: nat)
    requires NonEmptyGroups(groups) && Disjoint(groups)
    ensures var ts := Targets(groups, total);
            |ts| == |groups| && forall i, j, f :: 0 <= i < j < |ts| && f in ts[i].fields ==> f !in ts[j].fields
  {
    assert forall i :: 0 <= i < |groups| ==> Targets(groups, total)[i].fields == groups[i].fields;
  }

  /**
   * For any fields and any non-empty document: every field is sent in exactly one window, with all its pages;
   * every window has at least two pages where the document does, and at most four, so the cap of five never
   * cuts; and all windows stay inside the document exactly when every field is a header field or the document
   * has two pages.
   */
  lemma TargetsComplete(fields: seq<string>, total: nat)
    requires total >= 1
    ensures NonEmptyGroups(Grouped(Firsts(fields), total))
    ensures var ts := Targets(Grouped(Firsts(fields), total), total);
            && (forall f :: f in fields ==> exists i :: 0 <= i < |ts| && Sends(ts[i], f, total))
            && (forall i, j, f :: 0 <= i < j < |ts| && f in ts[i].fields ==> f !in ts[j].fields)
            && (forall i :: 0 <= i < |ts| ==> Min(2, total) <= ts[i].window.end - ts[i].window.start + 1 <= 4)
            && ((forall i :: 0 <= i < |ts| ==> Inside(ts[i], total))
                <==> total >= 2 || forall f :: f in fields ==> HeaderField(f))
  {
    FirstsDistinct(fields);
    GroupsServe(Firsts(fields), total);
    EveryFieldSent(fields, total);
    InsideIff(fields, total);
    TargetsApart(Grouped(Firsts(fields), total), total);
    hide *;
  }
}
