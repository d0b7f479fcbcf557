/** The per-tenant template store: an insertion-ordered dictionary and a quarantine set. */
module TemplateStore {
  import opened Common
  import opened Templates

  datatype Entry = Entry(tenant: string, template: Template)

  /** A snapshot of the store. Entries keep the order in which their keys were first saved. */
  datatype Snapshot = Snapshot(entries: seq<Entry>, quarantined: set<(string, string)>)

  const GLOBAL := "*"

  /** The one hand-authored template every store starts from. */
  const DBS_GIRO_TEMPLATE := Template(
    "payments", "giro_payment", "DBS",
    [ FieldAnchor("institution", @"GIRO Payment\s*\(", "[^)]+", "text", true),
      FieldAnchor("client_name", @"Account:\s*", @"[^|]+?(?=\s*\|)", "text", true),
      FieldAnchor("currency", @"Currency:\s*", "[A-Z]{3}", "currency", true) ],
    [ TableAnchor("giro_transactions",
        ["Item No.", "Bank Code", "Branch", "Account", "Account Name",
         "Amount", "Particulars", "Reference", "Status", "Reason"], 10, Some(5)) ],
    HandAuthored, 1, "payments::dbs::giro_payment")

  predicate SameKey(en: Entry, tenant: string, key: string) {
    en.tenant == tenant && en.template.fingerprintKey == key
  }

  function IndexOf(entries: seq<Entry>, tenant: string, key: string): (i: nat)
    ensures i <= |entries|
    ensures i < |entries| ==> SameKey(entries[i], tenant, key)
    ensures forall j :: 0 <= j < i ==> !SameKey(entries[j], tenant, key)
  {
    if entries == [] || SameKey(entries[0], tenant, key) then 0
    else 1 + IndexOf(entries[1..], tenant, key)
  }

  /** A save overwrites in place, bumping the version, or appends; either way the quarantine is lifted. */
  function Saved(s: Snapshot, tenant: string, t: Template): Snapshot {
    var i := IndexOf(s.entries, tenant, t.fingerprintKey);
    Snapshot(
      if i < |s.entries|
      then s.entries[i := Entry(tenant, t.(version := s.entries[i].template.version + 1))]
      else s.entries + [Entry(tenant, t)],
      s.quarantined - {(tenant, t.fingerprintKey)})
  }

  function Quarantined(s: Snapshot, tenant: string, key: string): Snapshot {
    s.(quarantined := s.quarantined + {(tenant, key)})
  }

  predicate Visible(s: Snapshot, en: Entry, tenant: string, theme: string) {
    && en.template.theme == theme
    && (en.tenant == tenant || en.tenant == GLOBAL)
    && (tenant, en.template.fingerprintKey) !in s.quarantined
  }

  function VisibleAmong(s: Snapshot, entries: seq<Entry>, tenant: string, theme: string): seq<Template> {
    if entries == [] then []
    else VisibleAmong(s, Init(entries), tenant, theme)
         + if Visible(s, Last(entries), tenant, theme) then [Last(entries).template] else []
  }

  /** What a tenant's lookup under a theme returns, in store order. */
  function InTheme(s: Snapshot, tenant: string, theme: string): seq<Template> {
    VisibleAmong(s, s.entries, tenant, theme)
  }

  class TemplateStore {
    var entries: seq<Entry>
    var quarantined: set<(string, string)>

    function State(): Snapshot
      reads this
    {
      Snapshot(entries, quarantined)
    }

    constructor (seed: bool)
      ensures State() == Snapshot(if seed then [Entry(GLOBAL, DBS_GIRO_TEMPLATE)] else [], {})
    {
      entries := if seed then [Entry(GLOBAL, DBS_GIRO_TEMPLATE)] else [];
      quarantined := {};
    }

    method Save(tenant: string, t: Template)
      modifies this
      ensures State() == Saved(old(State()), tenant, t)
    {
      var i := IndexOf(entries, tenant, t.fingerprintKey);
      if i < |entries| {
        entries := entries[i := Entry(tenant, t.(version := entries[i].template.version + 1))];
      } else {
        entries := entries + [Entry(tenant, t)];
      }
      quarantined := quarantined - {(tenant, t.fingerprintKey)};
    }

    method Quarantine(tenant: string, key: string)
      modifies this`quarantined
      ensures State() == Quarantined(old(State()), tenant, key)
    {
      quarantined := quarantined + {(tenant, key)};
    }

    method FindInTheme(tenant: string, theme: string) returns (out: seq<Template>)
      ensures out == InTheme(State(), tenant, theme)
    {
      out := [];
      for i := 0 to |entries|
        invariant out == VisibleAmong(State(), entries[..i], tenant, theme)
      {
        assert Init(entries[..i + 1]) == entries[..i];
        if Visible(State(), entries[i], tenant, theme) {
          out := out + [entries[i].template];
        }
      }
      assert entries[..|entries|] == entries;
    }
  }

  /**
   * What a lookup returns of a part of the store: the templates of this theme that are the tenant's own or everyone's
   * and that the tenant has not quarantined.
   */
  lemma LookupIff(s: Snapshot, tenant: string, theme: string, t: Template)
    ensures t in InTheme(s, tenant, theme)
            <==> && t.theme == theme && (tenant, t.fingerprintKey) !in s.quarantined
                 && (Entry(tenant, t) in s.entries || Entry("*", t) in s.entries)
  {
    InThemeMembers(s, s.entries, tenant, theme);
  }

  /** In store order: what two stretches of entries give is what the first gives and then what the second gives. */
  lemma {:induction false} LookupInOrder(s: Snapshot, a: seq<Entry>, b: seq<Entry>, tenant: string, theme: string)
    ensures VisibleAmong(s, a + b, tenant, theme)
         == VisibleAmong(s, a, tenant, theme) + VisibleAmong(s, b, tenant, theme)
  {
    if b == [] {
      assert a + b == a;
    } else {
      assert a + b == (a + Init(b)) + [Last(b)] && Init(a + b) == a + Init(b);
      LookupInOrder(s, a, Init(b), tenant, theme);
      hide Visible;
    }
  }

  /** The stored template under a key and tenant. */
  ghost predicate Holds(s: Snapshot, i: nat, tenant: string, t: Template) {
    i < |s.entries| && s.entries[i] == Entry(tenant, t)
  }

  /**
   * The first save of a key adds the template as it is, at the end; each further one replaces it where it stands, one
   * version up. No other entry changes, and of the quarantines only this one goes.
   */
  lemma SaveMeaning(s: Snapshot, tenant: string, t: Template) returns (i: nat)
    ensures var after := Saved(s, tenant, t);
      && (if forall en :: en in s.entries ==> !(en.tenant == tenant && en.template.fingerprintKey == t.fingerprintKey)
          then i == |s.entries| && |after.entries| == |s.entries| + 1 && Holds(after, i, tenant, t)
          else && i < |s.entries| == |after.entries| && s.entries[i].tenant == tenant
               && s.entries[i].template.fingerprintKey == t.fingerprintKey
               && Holds(after, i, tenant, t.(version := s.entries[i].template.version + 1)))
      && (forall k :: 0 <= k < |s.entries| && k != i ==> after.entries[k] == s.entries[k])
      && (forall q :: q in after.quarantined <==> q in s.quarantined && q != (tenant, t.fingerprintKey))
  {
    i := IndexOf(s.entries, tenant, t.fingerprintKey);
    if i < |s.entries| {
      assert s.entries[i] in s.entries;
    }
  }

  lemma QuarantineMeaning(s: Snapshot, tenant: string, key: string)
    ensures Quarantined(s, tenant, key).entries == s.entries
    ensures forall q :: q in Quarantined(s, tenant, key).quarantined <==> q in s.quarantined || q == (tenant, key)
  {
  }

  /** A lookup returns exactly the templates of the entries the tenant may see. */
  lemma {:induction false} InThemeMembers(s: Snapshot, entries: seq<Entry>, tenant: string, theme: string)
    ensures forall t :: t in VisibleAmong(s, entries, tenant, theme)
              <==> exists en :: en in entries && en.template == t && Visible(s, en, tenant, theme)
  {
    if entries != [] {
      InThemeMembers(s, Init(entries), tenant, theme);
      assert entries == Init(entries) + [Last(entries)];
      forall t ensures t in VisibleAmong(s, entries, tenant, theme)
              <==> exists en :: en in entries && en.template == t && Visible(s, en, tenant, theme)
      {
        if t in VisibleAmong(s, Init(entries), tenant, theme) {
          var en :| en in Init(entries) && en.template == t && Visible(s, en, tenant, theme);
          assert en in entries;
        } else if Visible(s, Last(entries), tenant, theme) && t == Last(entries).template {
          assert Last(entries) in entries;
        }
      }
    }
  }

  /** A freshly saved template is visible to its tenant at once, whatever was quarantined before. */
  lemma SavedIsVisible(s: Snapshot, tenant: string, t: Template)
    ensures exists v: nat :: t.(version := v) in InTheme(Saved(s, tenant, t), tenant, t.theme)
  {
    var after := Saved(s, tenant, t);
    var i := IndexOf(s.entries, tenant, t.fingerprintKey);
    var en := after.entries[i];
    assert Visible(after, en, tenant, t.theme);
    InThemeMembers(after, after.entries, tenant, t.theme);
    assert en in after.entries;
    assert t.(version := en.template.version) == en.template;
  }

  /** Quarantining for one tenant changes no other tenant's lookups. */
  lemma ForeignQuarantineUnseen(s: Snapshot, tenant: string, key: string, other: string, theme: string)
    requires other != tenant
    ensures InTheme(Quarantined(s, tenant, key), other, theme) == InTheme(s, other, theme)
  {
    SameVisibility(s, Quarantined(s, tenant, key), s.entries, other, theme);
  }

  /** Nor does saving for it, unless it saves for everyone. */
  lemma ForeignSaveUnseen(s: Snapshot, tenant: string, t: Template, other: string, theme: string)
    requires other != tenant && tenant != GLOBAL
    ensures InTheme(Saved(s, tenant, t), other, theme) == InTheme(s, other, theme)
  {
    hide IndexOf, VisibleAmong;
    var after := Saved(s, tenant, t);
    SameVisibility(s, after, s.entries, other, theme);
    var i := IndexOf(s.entries, tenant, t.fingerprintKey);
    if i < |s.entries| {
      HiddenOverwrite(after, s.entries, i, after.entries[i], other, theme);
    } else {
      HiddenAdded(after, s.entries, Entry(tenant, t), other, theme);
    }
  }

  lemma {:induction false} SameVisibility(a: Snapshot, b: Snapshot, entries: seq<Entry>, tenant: string, theme: string)
    requires forall key :: (tenant, key) in a.quarantined <==> (tenant, key) in b.quarantined
    ensures VisibleAmong(a, entries, tenant, theme) == VisibleAmong(b, entries, tenant, theme)
  {
    if entries != [] {
      SameVisibility(a, b, Init(entries), tenant, theme);
    }
  }

  lemma HiddenAdded(s: Snapshot, entries: seq<Entry>, en: Entry, tenant: string, theme: string)
    requires !Visible(s, en, tenant, theme)
    ensures VisibleAmong(s, entries + [en], tenant, theme) == VisibleAmong(s, entries, tenant, theme)
  {
    assert Init(entries + [en]) == entries;
  }

  lemma {:induction false} HiddenOverwrite(
    s: Snapshot, entries: seq<Entry>, i: nat, en: Entry, tenant: string, theme: string)
    requires i < |entries| && !Visible(s, entries[i], tenant, theme) && !Visible(s, en, tenant, theme)
    ensures VisibleAmong(s, entries[i := en], tenant, theme) == VisibleAmong(s, entries, tenant, theme)
  {
    if i < |entries| - 1 {
      HiddenOverwrite(s, Init(entries), i, en, tenant, theme);
      assert Init(entries[i := en]) == Init(entries)[i := en];
    } else {
      assert Init(entries[i := en]) == Init(entries);
    }
  }
}
